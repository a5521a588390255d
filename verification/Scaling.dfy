/** Shrinking the control plane in bounded batches (pkg/operator/controllers/master/masterset.go). */
module Scaling {
  import opened Basics
  import opened Triples
  import opened EtcdMembers

  /** Go's division by two: towards zero. */
  function Half(x: int): int {
    if x >= 0 then x / 2 else -((-x) / 2)
  }

  /** What one call asks of the handler: nothing, a scale-out to `desired`, or one scale-in batch. */
  function Batch(current: int, desired: int): Option<int> {
    if desired == current then None
    else if desired > current then Some(desired)
    else Some(Max(current - Max(Half(current - 1), 1), desired))
  }

  datatype Outcome = Success | RetryNextBatch | Failed

  /**
   One batch towards a target of at least one: progress, no undershoot, a strict
   majority of the old size stays, and the step to one is taken from two only.
   */
  lemma BatchBound(current: int, desired: int)
    requires 1 <= desired < current
    ensures var t := Batch(current, desired).value;
            && desired <= t < current
            && (3 <= current ==> current / 2 + 1 <= t && 2 * t > current)
            && (t == 1 <==> current == 2)
  {
  }

  /** What is asked lies between the present number and the wanted one, and is the wanted one when growing. */
  lemma BatchSide(current: int, desired: int)
    requires current >= 0 && desired != current
    ensures var t := Batch(current, desired).value;
            && (desired > current ==> t == desired)
            && (desired < current ==> desired <= t < current && (3 <= current ==> 2 * t > current && t >= 2))
  {
  }

  /** From two machines or more, asking for none is like asking for one. */
  lemma BatchAsOne(current: int, desired: int)
    requires 2 <= current && desired < 1
    ensures Batch(current, desired) == Batch(current, 1)
  {
  }

  /** The handover step is asked for only with exactly two instances, whatever the target. */
  lemma OneOnlyFromTwo(current: int, desired: int)
    requires desired < current && 1 <= current
    ensures Batch(current, desired) == Some(1) <==> current == 2 && desired <= 1
  {
  }

  /** The size after b successful batches. */
  function After(n: int, target: int, b: nat): int
    decreases b
  {
    if b == 0 || n <= target then n else After(Batch(n, target).value, target, b - 1)
  }

  function Pow2(k: nat): nat {
    if k == 0 then 1 else 2 * Pow2(k - 1)
  }

  /** Every batch strictly shrinks until the target is met, and never goes below it. */
  lemma {:induction false} BatchesDescend(n: int, target: int, b: nat)
    requires 1 <= target <= n
    ensures target <= After(n, target, b) <= n
    ensures target < After(n, target, b) ==> After(n, target, b + 1) < After(n, target, b)
    decreases b
  {
    if n > target {
      BatchBound(n, target);
      if b > 0 {
        BatchesDescend(Batch(n, target).value, target, b - 1);
      } else {
        assert After(n, target, 1) == After(Batch(n, target).value, target, 0);
      }
    }
  }

  /** From n with n - 1 <= 2^k, at most k + 1 batches reach any target. */
  lemma {:induction false} LogarithmicScaleIn(n: int, target: int, k: nat)
    requires 1 <= target <= n && n - 1 <= Pow2(k)
    ensures After(n, target, k + 1) == target
    decreases k
  {
    if n > target {
      var next := Batch(n, target).value;
      BatchBound(n, target);
      if next > target {
        assert next - 1 <= Pow2(k - 1);
        LogarithmicScaleIn(next, target, k - 1);
      }
    }
  }

  // ----- From two to one ------------------------------------------------------

  /** One line of `etcdctl endpoint status`. */
  datatype Endpoint = Endpoint(url: string, memberId: nat, leader: nat)

  /** Remove the first of exactly two members that does not hold itself to be the leader. */
  method RemoveFollower(endps: seq<Endpoint>, mems: seq<Member>, reply: Reply)
    returns (r: Result<string>, left: seq<Member>)
    ensures |endps| != 2 ==> r.Err? && left == mems
    ensures forall m :: m in left ==> m in mems
    ensures |endps| == 2 ==>
              var e := if endps[0].leader != endps[0].memberId then endps[0] else endps[1];
              && (e.leader == e.memberId ==> r.Err? && left == mems)
              && (r.Ok? ==> r.value == e.url)
              && (e.leader != e.memberId && 0 < e.memberId ==>
                    (r.Ok? <==> reply.Done?) && (left == if reply.Applied() then Without(mems, e.memberId) else mems))
  {
    left := mems;
    if |endps| != 2 {
      return Err("remove follower can only work with 2 etcd member"), left;
    }
    for k := 0 to |endps|
      invariant left == mems
      invariant forall j :: 0 <= j < k ==> endps[j].leader == endps[j].memberId
    {
      var end := endps[k];
      if end.leader == end.memberId {
        continue;
      }
      if end.memberId == 0 {
        // an empty member id: removal is skipped and counts as done
        return Ok(end.url), left;
      }
      if reply.Applied() {
        left := Without(mems, end.memberId);
      }
      if !reply.Done? {
        return Err("remove member"), left;
      }
      return Ok(end.url), left;
    }
    return Err("empty endpoint"), left;
  }

  function FindId(instances: seq<Instance>, url: string): (id: string)
    ensures id != "" ==> exists i :: i in instances && i.id == id && Advertise(i.ip, "2379") == url
  {
    if instances == [] then ""
    else if url == Advertise(instances[0].ip, "2379") then instances[0].id
    else FindId(instances[1..], url)
  }

  method FindInstanceId(instances: seq<Instance>, url: string) returns (id: string)
    ensures id == FindId(instances, url)
  {
    for k := 0 to |instances|
      invariant FindId(instances, url) == FindId(instances[k..], url)
    {
      if url == Advertise(instances[k].ip, "2379") {
        return instances[k].id;
      }
    }
    return "";
  }

  lemma {:induction false} FindIdUnique(instances: seq<Instance>, i: Instance)
    requires i in instances
    requires forall a, b :: 0 <= a < b < |instances| ==> instances[a].ip != instances[b].ip
    ensures FindId(instances, Advertise(i.ip, "2379")) == i.id
  {
    if instances[0] != i {
      if Advertise(i.ip, "2379") == Advertise(instances[0].ip, "2379") {
        AdvertiseInjective(i.ip, instances[0].ip, "2379");
      }
      FindIdUnique(instances[1..], i);
    }
  }
}

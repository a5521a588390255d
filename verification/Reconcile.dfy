/**
 The masterset controller as the code runs it (pkg/operator/controllers/master/masterset.go),
 on the same control plane as the healer. Every call amounts to a run of the ControlPlane
 machine, so the whole-run safety of ScaleInSafety holds of this code.
 */
module Reconciling {
  import opened Basics
  import opened ProviderIds
  import opened Triples
  import opened JoinTheorem
  import opened TripleDiffs
  import opened EtcdMembers
  import opened HealView
  import opened NodeRepair
  import opened PassRun
  import opened Healing
  import Scaling
  import ControlPlane
  import Passes
  import ScaleInSafety

  // ----- Machines leaving the group ---------------------------------------------

  function DropInstance(instances: seq<Instance>, id: string): (r: seq<Instance>)
    ensures forall i :: i in r <==> i in instances && i.id != id
  {
    Filter(instances, (i: Instance) => i.id != id)
  }

  lemma {:induction false} DropInstanceDistinct(instances: seq<Instance>, id: string)
    requires Inventory(instances, [], []).DistinctInstances()
    ensures Inventory(DropInstance(instances, id), [], []).DistinctInstances()
    ensures |instances| - 1 <= |DropInstance(instances, id)| <= |instances|
    decreases |instances|
  {
    FilterPairwise(instances, (i: Instance) => i.id != id, (a: Instance, b: Instance) => a.id != b.id);
    if instances != [] {
      if instances[0].id == id {
        FilterAll(instances[1..], (i: Instance) => i.id != id);
      } else {
        DropInstanceDistinct(instances[1..], id);
      }
    }
  }

  lemma DropInstanceKeys(nm: Naming, instances: seq<Instance>, masters: seq<Master>, nodes: seq<Node>, id: string)
    ensures Inventory(DropInstance(instances, id), masters, nodes).InstanceKeys(nm) ==
            Inventory(instances, masters, nodes).InstanceKeys(nm) - {nm.ProviderId(id)}
  {
    forall i | i in instances
      ensures nm.ProviderId(i.id) == nm.ProviderId(id) <==> i.id == id
    {
      if nm.ProviderId(i.id) == nm.ProviderId(id) {
        ProviderIdInjective(nm, i.id, id);
      }
    }
  }

  /** One machine leaves the scaling group. */
  method TakeOut(p: Plane, id: string)
    requires p.Valid() && exists i :: i in p.instances && i.id == id
    modifies p`instances
    ensures p.Valid() && |old(p.instances)| - 1 <= |p.instances| <= |old(p.instances)|
    ensures p.Abs() == old(p.Abs()).(insts := old(p.Abs().insts) - {p.nm.ProviderId(id)})
  {
    DropInstanceDistinct(p.instances, id);
    DropInstanceKeys(p.nm, p.instances, p.masters, p.nodes, id);
    p.instances := DropInstance(p.instances, id);
  }

  method RemoveMachine(p: Plane, id: string) returns (reply: Reply)
    requires p.Valid() && exists i :: i in p.instances && i.id == id
    modifies p`instances, p`faults
    ensures p.faults == old(p.faults) + if reply.Done? then 0 else 1
    ensures p.Valid() && |old(p.instances)| - 1 <= |p.instances| <= |old(p.instances)|
    ensures p.Abs() == old(p.Abs()).(insts := ControlPlane.Drop(old(p.Abs().insts), p.nm.ProviderId(id), reply))
  {
    reply := *;
    p.faults := p.faults + if reply.Done? then 0 else 1;
    if reply.Applied() {
      TakeOut(p, id);
    }
  }

  /** Some machine leaves, or none. */
  method TakeAny(p: Plane) returns (ghost gone: set<Id>)
    requires p.Valid()
    modifies p`instances
    ensures p.Valid() && |old(p.instances)| - 1 <= |p.instances| <= |old(p.instances)|
    ensures |gone| <= 1 && p.Abs() == old(p.Abs()).(insts := old(p.Abs().insts) - gone)
  {
    var k: int := *;
    if 0 <= k < |p.instances| {
      var id := p.instances[k].id;
      assert p.instances[k] in p.instances;
      TakeOut(p, id);
      return {p.nm.ProviderId(id)};
    }
    return {};
  }

  lemma TwiceLess(insts: set<Id>, victims: set<Id>, gone: set<Id>, n: int)
    requires victims <= insts && |victims| <= n && |gone| <= 1
    ensures insts - victims - gone == insts - (victims + gone * insts)
    ensures victims + gone * insts <= insts && |victims + gone * insts| <= n + 1
  {
    SubsetSize(gone * insts, gone);
    assert victims + gone * insts == victims + (gone * insts - victims);
    SubsetSize(gone * insts - victims, gone * insts);
  }

  /** The group shrinks towards `target`: any machines may go, perhaps fewer than asked, never more. */
  method ShrinkGroup(p: Plane, target: int) returns (ghost victims: set<Id>)
    requires p.Valid() && target <= |p.instances|
    modifies p`instances
    ensures p.Valid() && target <= |p.instances| <= |old(p.instances)|
    ensures victims <= old(p.Abs().insts) && |victims| <= |old(p.instances)| - target
    ensures p.Abs() == old(p.Abs()).(insts := old(p.Abs().insts) - victims)
  {
    victims := {};
    var excess := |p.instances| - target;
    ghost var c := p.Abs();
    for k := 0 to excess
      invariant p.Valid() && target + excess - k <= |p.instances| <= |old(p.instances)|
      invariant victims <= c.insts && |victims| <= k
      invariant p.Abs() == c.(insts := c.insts - victims)
    {
      ghost var gone := TakeAny(p);
      TwiceLess(c.insts, victims, gone, k);
      victims := victims + gone * c.insts;
    }
  }

  /**
   Outside effect: the cloud brings up new machines, with ids no list has seen, and at most
   as many as asked. The contract says what may change, and callers know no more than that.
   */
  method BringUp(p: Plane, target: int) returns (ghost newcomers: set<Id>)
    requires p.Valid() && |p.instances| <= target
    modifies p`instances
    ensures p.Valid() && |old(p.instances)| <= |p.instances| <= target
    ensures newcomers !! ControlPlane.Named(old(p.Abs())) && |newcomers| <= target - |old(p.instances)|
    ensures p.Abs() == old(p.Abs()).(insts := old(p.Abs().insts) + newcomers)
  {
    newcomers := {};
    assert p.Abs().insts + {} == p.Abs().insts;
  }

  // ----- The health check -----------------------------------------------------------

  /** A consistent snapshot is a healthy view, and conversely. */
  lemma ConsistentView(nm: Naming, inv: Inventory)
    ensures Consistent(nm, inv) <==> ViewOf(nm, inv).Healthy()
  {
    ConsistentMeans(nm, inv);
    NodeMapKeys(inv);
    var nodes := NodeMap(inv.nodes);
    forall key | key in nodes
      ensures nodes[key] == NodeReady(FirstNode(inv.nodes, key).value)
    {
    }
  }

  lemma NoBlankRow(nm: Naming, inv: Inventory)
    ensures forall r :: r in inv.Rows(nm) ==> !Blank(r)
  {
    forall r | r in inv.Rows(nm)
      ensures !Blank(r)
    {
      OneOfThree(nm, inv, r);
    }
  }

  method Healthy(p: Plane) returns (healthy: bool, read: bool)
    requires p.Valid()
    modifies p`faults
    ensures healthy <==> read && ControlPlane.Look(p.Abs()).Healthy()
    ensures p.faults == old(p.faults) + if read then 0 else 1
  {
    var trip := p.ReadTriple();
    if trip.Err? {
      return false, false;
    }
    healthy := SystemInConsistency(trip.value.rows);
    NoBlankRow(p.nm, p.Lists());
    ConsistentView(p.nm, p.Lists());
    return healthy, true;
  }

  // ----- From two machines to one ------------------------------------------------------

  /** `endpoint status` at a Master's address is answered by the member there. */
  ghost predicate AnsweredBy(members: seq<Member>, m: Master, e: Scaling.Endpoint) {
    exists x :: x in members && x.ip == m.ip && e.memberId == x.id && e.url == Advertise(x.ip, "2379")
  }

  /** The status of every Master's endpoint; one that no member answers fails the call. */
  method Endpoints(p: Plane) returns (r: Result<seq<Scaling.Endpoint>>)
    requires p.Valid()
    modifies p`faults
    ensures p.faults == old(p.faults) + if r.Ok? then 0 else 1
    ensures r.Ok? ==> |r.value| == |p.masters|
    ensures r.Ok? ==> forall k :: 0 <= k < |p.masters| ==> AnsweredBy(p.members, p.masters[k], r.value[k])
  {
    var endps := [];
    for k := 0 to |p.masters|
      invariant |endps| == k && p.faults == old(p.faults)
      invariant forall j :: 0 <= j < k ==> AnsweredBy(p.members, p.masters[j], endps[j])
    {
      var ip := p.masters[k].ip;
      var answers: bool := *;
      var mem := FindMemberByIP(p.members, ip);
      if !answers || mem.id == 0 {
        p.faults := p.faults + 1;
        return Err("endpoint status error");
      }
      AdvertiseInjective(mem.ip, ip, "2380");
      var leader: nat := *;
      endps := endps + [Scaling.Endpoint(Advertise(ip, "2379"), mem.id, leader)];
      assert AnsweredBy(p.members, p.masters[k], endps[k]);
    }
    return Ok(endps);
  }

  /** Giving up; a handover under way stays half done. */
  lemma StopRun(s: ControlPlane.State)
    ensures Reaches(s, [ControlPlane.ScaleStop],
                    s.(scaler := ControlPlane.Rest, half := s.half || s.scaler.Handover?))
  {
    assert Reaches(s, [], s);
    ReachesStep(s, [], s, ControlPlane.ScaleStop);
    assert [] + [ControlPlane.ScaleStop] == [ControlPlane.ScaleStop];
  }

  /** Both Masters answer, so both are members; the follower is one of them. */
  lemma FollowerRun(s: ControlPlane.State, target: int, d: Id, reply: Reply)
    requires s.scaler.Cleared? && Scaling.Batch(|s.c.insts|, target) == Some(1)
    requires |s.c.crds| == 2 && s.c.crds <= s.c.members && d in s.c.crds
    ensures Reaches(s, [ControlPlane.RemoveFollower(target, d, reply)],
                    s.(c := s.c.(members := ControlPlane.Drop(s.c.members, d, reply)),
                       scaler := if reply.Done? then ControlPlane.Handover(d) else ControlPlane.Rest,
                       half := s.half || reply.Lost?, strayed := s.strayed || target < 1))
  {
    var e := ControlPlane.RemoveFollower(target, d, reply);
    assert Reaches(s, [], s);
    ReachesStep(s, [], s, e);
    assert [] + [e] == [e];
  }

  lemma MachineRun(s: ControlPlane.State, reply: Reply)
    requires s.scaler.Handover?
    ensures Reaches(s, [ControlPlane.RemoveMachine(reply)],
                    s.(c := s.c.(insts := ControlPlane.Drop(s.c.insts, s.scaler.follower, reply)),
                       scaler := ControlPlane.Rest, half := s.half || reply.Refused?))
  {
    var e := ControlPlane.RemoveMachine(reply);
    assert Reaches(s, [], s);
    ReachesStep(s, [], s, e);
    assert [] + [e] == [e];
  }

  lemma {:induction false} MasterKeysSize(masters: seq<Master>)
    requires DistinctMasterNames(masters)
    ensures |Inventory([], masters, []).MasterKeys()| == |masters|
  {
    if masters != [] {
      var init, last := masters[..|masters| - 1], masters[|masters| - 1];
      assert masters == init + [last];
      MasterKeysSize(init);
      assert Inventory([], masters, []).MasterKeys() == Inventory([], init, []).MasterKeys() + {last.id};
    }
  }

  /** The member that answers for a Master is the one of the Master's machine. */
  lemma AnswerOf(p: Plane, k: nat, e: Scaling.Endpoint) returns (x: Member)
    requires p.Valid() && k < |p.masters| && AnsweredBy(p.members, p.masters[k], e)
    ensures x in p.members && x.id == e.memberId && e.url == Advertise(x.ip, "2379") && x.id > 0
    ensures var d := p.masters[k].id; d in p.addr && p.addr[d] == x.ip && d in p.Abs().members && d in p.Abs().crds
  {
    x :| x in p.members && x.ip == p.masters[k].ip && e.memberId == x.id && e.url == Advertise(x.ip, "2379");
    assert p.masters[k] in p.masters;
  }

  lemma AllAnswer(p: Plane, endps: seq<Scaling.Endpoint>)
    requires p.Valid() && |endps| == |p.masters|
    requires forall k :: 0 <= k < |p.masters| ==> AnsweredBy(p.members, p.masters[k], endps[k])
    ensures |p.Abs().crds| == |p.masters| && p.Abs().crds <= p.Abs().members
  {
    MasterKeysSize(p.masters);
    assert Inventory([], p.masters, []).MasterKeys() == p.Abs().crds;
    forall d | d in p.Abs().crds
      ensures d in p.Abs().members
    {
      var m :| m in p.masters && m.id == d;
      var k :| 0 <= k < |p.masters| && p.masters[k] == m;
      var x := AnswerOf(p, k, endps[k]);
    }
  }

  /** The membership after an attempt to remove x, whose machine is d. */
  method SetMembers(p: Plane, left: seq<Member>, ghost x: Member, ghost d: Id, ghost reply: Reply)
    requires p.Valid() && x in p.members && d in p.addr && p.addr[d] == x.ip
    requires left == if reply.Applied() then Without(p.members, x.id) else p.members
    modifies p`members
    ensures p.Valid()
    ensures p.Abs() == old(p.Abs()).(members := ControlPlane.Drop(old(p.Abs().members), d, reply))
  {
    WithoutOk(p.members, p.addr, x, d);
    p.members := left;
  }

  /** The endpoint that is removed: the first that does not hold itself to be the leader. */
  function Follower(endps: seq<Scaling.Endpoint>): (k: nat)
    requires |endps| == 2
    ensures k < 2
  {
    if endps[0].leader != endps[0].memberId then 0 else 1
  }

  /** One of the two does not hold itself to be the leader. */
  predicate HasFollower(endps: seq<Scaling.Endpoint>) {
    |endps| == 2 && (endps[0].leader != endps[0].memberId || endps[1].leader != endps[1].memberId)
  }

  /** The follower's member was asked to go, or nobody was and the scaler stopped. */
  predicate Dismissal(es: seq<ControlPlane.Event>, target: int, ok: bool) {
    && |es| == 1
    && match es[0]
       case RemoveFollower(n, _, reply) => n == target && (ok <==> reply.Done?)
       case ScaleStop => !ok
       case _ => false
  }

  /** What the scaler does once the cluster is cleared: one order towards `target` machines, or none. */
  predicate Order(es: seq<ControlPlane.Event>, target: int) {
    && 1 <= |es| <= 2
    && match es[0]
       case ScaleGroup(n, _) => n == target && |es| == 1
       case ScaleOut(n, _) => n == target && |es| == 1
       case RemoveFollower(n, _, reply) =>
         && n == target
         && if reply.Done? then |es| == 2 && (es[1].RemoveMachine? || es[1].ScaleStop?) else |es| == 1
       case ScaleStop => |es| == 1
       case _ => false
  }

  /** Nobody, or only the member of the follower, was asked to go. */
  lemma DismissalOrdered(es: seq<ControlPlane.Event>, target: int, errors: int)
    requires Dismissal(es, target, false) && errors >= 0 && (errors == 0 ==> es[0].ScaleStop?)
    ensures Ordered(es, target, 1, false, errors)
  {
  }

  lemma HandoverOrdered(es: seq<ControlPlane.Event>, e: ControlPlane.Event, target: int, ok: bool, errors: int)
    requires Dismissal(es, target, true) && (e.RemoveMachine? || e.ScaleStop?)
    requires errors >= 0 && (ok <==> errors == 0 && e.RemoveMachine?)
    ensures Ordered(es + [e], target, 1, ok, errors) && (GaveUp(es + [e]) <==> e.ScaleStop?)
  {
  }

  lemma GroupReported(e: ControlPlane.Event, target: int, expected: int, ok: bool, before: ControlPlane.Cluster,
                      after: ControlPlane.Cluster, log: seq<Action>)
    requires (e.ScaleGroup? || e.ScaleOut?) && e.target == target && expected != 1 && Carried(before, expected, after)
    ensures Reported([e], target, expected, ok, if ok then 0 else 1, before, after, log, log + [GroupTold(expected)])
  {
  }

  lemma HandoverReported(es: seq<ControlPlane.Event>, target: int, ok: bool, errors: int, before: ControlPlane.Cluster,
                         after: ControlPlane.Cluster, log: seq<Action>)
    requires Executed(es, target, 1, ok, errors, before, after)
    ensures Reported(es, target, 1, ok, errors, before, after, log, log)
  {
  }

  /** An order to the group, which is told a number. */
  predicate ToGroup(es: seq<ControlPlane.Event>) {
    es != [] && (es[|es| - 1].ScaleGroup? || es[|es| - 1].ScaleOut?)
  }

  /** Both endpoints name one leader, and it is one of them. */
  predicate Agree(endps: seq<Scaling.Endpoint>) {
    && |endps| == 2 && endps[0].memberId != endps[1].memberId
    && endps[0].leader == endps[1].leader && endps[0].leader in {endps[0].memberId, endps[1].memberId}
  }

  lemma FollowerFacts(p: Plane, endps: seq<Scaling.Endpoint>, k: nat) returns (x: Member)
    requires p.Valid() && |endps| == |p.masters| == 2 && k < 2
    requires forall k :: 0 <= k < |p.masters| ==> AnsweredBy(p.members, p.masters[k], endps[k])
    ensures x in p.members && x.id == endps[k].memberId && x.id > 0 && endps[k].url == Advertise(x.ip, "2379")
    ensures var d, c := p.masters[k].id, p.Abs();
            d in p.addr && p.addr[d] == x.ip && d in c.crds && |c.crds| == 2 && c.crds <= c.members
  {
    AllAnswer(p, endps);
    x := AnswerOf(p, k, endps[k]);
  }

  /** The follower leaves etcd. On success its endpoint is returned. */
  method RemoveFollower(p: Plane, endps: seq<Scaling.Endpoint>, ghost target: int, ghost s: ControlPlane.State)
    returns (r: Result<string>, ghost d: Id, ghost es: seq<ControlPlane.Event>, ghost t: ControlPlane.State)
    requires p.Valid() && s.c == p.Abs() && s.scaler == ControlPlane.Cleared
    requires Scaling.Batch(|s.c.insts|, target) == Some(1)
    requires |endps| == |p.masters|
    requires forall k :: 0 <= k < |p.masters| ==> AnsweredBy(p.members, p.masters[k], endps[k])
    modifies p`members, p`faults
    ensures p.Valid() && Reaches(s, es, t) && old(p.faults) <= p.faults
    ensures r.Ok? <==> HasFollower(endps) && p.faults == old(p.faults)
    ensures Dismissal(es, target, r.Ok?) && (es[0].ScaleStop? <==> !HasFollower(endps))
    ensures es[0].ScaleStop? ==> t.c == s.c && t.half == s.half && p.faults == old(p.faults)
    ensures r.Err? ==> t == s.(c := p.Abs(), scaler := ControlPlane.Rest, half := t.half, strayed := t.strayed)
    ensures r.Ok? ==> t == s.(c := p.Abs(), scaler := ControlPlane.Handover(d), strayed := t.strayed)
    ensures target >= 1 ==> t.strayed == s.strayed
    ensures r.Ok? ==> d in s.c.crds && p.Abs() == s.c.(members := s.c.members - {d})
    ensures r.Ok? ==> d in p.addr && r.value == Advertise(p.addr[d], "2379")
    ensures r.Ok? ==> Picked(p.masters, endps, d)
  {
    var reply: Reply := *;
    var left;
    r, left := AskFollower(endps, p.members, reply);
    if !HasFollower(endps) {
      StopRun(s);
      d, es, t := "", [ControlPlane.ScaleStop], s.(scaler := ControlPlane.Rest);
      return;
    }
    AnswererNamed(p, endps, Follower(endps));
    d, es, t := Depose(p, endps, left, reply, target, s);
  }

  lemma AnswererNamed(p: Plane, endps: seq<Scaling.Endpoint>, k: nat)
    requires p.Valid() && k < |endps| == |p.masters| && AnsweredBy(p.members, p.masters[k], endps[k])
    ensures endps[k].memberId > 0
  {
    var x := AnswerOf(p, k, endps[k]);
  }

  method AskFollower(endps: seq<Scaling.Endpoint>, members: seq<Member>, reply: Reply)
    returns (r: Result<string>, left: seq<Member>)
    ensures !HasFollower(endps) ==> r.Err? && left == members
    ensures HasFollower(endps) && endps[Follower(endps)].memberId > 0 ==>
              && (r.Ok? <==> reply.Done?) && (r.Ok? ==> r.value == endps[Follower(endps)].url)
              && left == if reply.Applied() then Without(members, endps[Follower(endps)].memberId) else members
  {
    r, left := Scaling.RemoveFollower(endps, members, reply);
  }

  /** The membership once the follower has been asked to go, and the step this amounts to. */
  method Depose(p: Plane, endps: seq<Scaling.Endpoint>, left: seq<Member>, ghost reply: Reply, ghost target: int,
                ghost s: ControlPlane.State)
    returns (ghost d: Id, ghost es: seq<ControlPlane.Event>, ghost t: ControlPlane.State)
    requires p.Valid() && s.c == p.Abs() && s.scaler == ControlPlane.Cleared
    requires Scaling.Batch(|s.c.insts|, target) == Some(1)
    requires |endps| == |p.masters| == 2
    requires forall k :: 0 <= k < |p.masters| ==> AnsweredBy(p.members, p.masters[k], endps[k])
    requires left == if reply.Applied() then Without(p.members, endps[Follower(endps)].memberId) else p.members
    modifies p`members, p`faults
    ensures p.faults == old(p.faults) + if reply.Done? then 0 else 1
    ensures p.Valid() && Reaches(s, es, t) && d == p.masters[Follower(endps)].id && d in s.c.crds
    ensures Dismissal(es, target, reply.Done?) && !es[0].ScaleStop?
    ensures p.Abs() == s.c.(members := ControlPlane.Drop(s.c.members, d, reply))
    ensures t == s.(c := p.Abs(), scaler := if reply.Done? then ControlPlane.Handover(d) else ControlPlane.Rest,
                    half := s.half || reply.Lost?, strayed := s.strayed || target < 1)
    ensures d in p.addr && endps[Follower(endps)].url == Advertise(p.addr[d], "2379")
  {
    ghost var k := Follower(endps);
    ghost var x := FollowerFacts(p, endps, k);
    d := p.masters[k].id;
    p.faults := p.faults + if reply.Done? then 0 else 1;
    SetMembers(p, left, x, d, reply);
    FollowerRun(s, target, d, reply);
    es := [ControlPlane.RemoveFollower(target, d, reply)];
    t := s.(c := p.Abs(), scaler := if reply.Done? then ControlPlane.Handover(d) else ControlPlane.Rest,
            half := s.half || reply.Lost?, strayed := s.strayed || target < 1);
  }

  /** The machine found by the follower's endpoint is the follower's own. */
  lemma FollowersMachine(p: Plane, d: Id, id: string)
    requires p.Valid() && d in p.addr && id != "" && id == Scaling.FindId(p.instances, Advertise(p.addr[d], "2379"))
    ensures p.nm.ProviderId(id) == d && exists i :: i in p.instances && i.id == id
  {
    var i :| i in p.instances && i.id == id && Advertise(i.ip, "2379") == Advertise(p.addr[d], "2379");
    AdvertiseInjective(i.ip, p.addr[d], "2379");
  }

  /** A machine that is in the group is found. */
  lemma MachineFound(p: Plane, d: Id)
    requires p.Valid() && d in p.addr && d in p.Abs().insts
    ensures Scaling.FindId(p.instances, Advertise(p.addr[d], "2379")) != ""
  {
    var i :| i in p.instances && p.nm.ProviderId(i.id) == d;
    MachineAddresses(p);
    Scaling.FindIdUnique(p.instances, i);
  }

  lemma MachineAddresses(p: Plane)
    requires p.Valid()
    ensures forall a, b :: 0 <= a < b < |p.instances| ==> p.instances[a].ip != p.instances[b].ip
  {
    forall a, b | 0 <= a < b < |p.instances|
      ensures p.instances[a].ip != p.instances[b].ip
    {
      if p.nm.ProviderId(p.instances[a].id) == p.nm.ProviderId(p.instances[b].id) {
        ProviderIdInjective(p.nm, p.instances[a].id, p.instances[b].id);
      }
    }
  }

  /** The controller stopped of its own accord, not because a call to etcd or the cloud failed. */
  predicate GaveUp(es: seq<ControlPlane.Event>) {
    es != [] && es[|es| - 1].ScaleStop?
  }

  /** d is the Master whose endpoint did not hold itself to be the leader. */
  predicate Picked(masters: seq<Master>, endps: seq<Scaling.Endpoint>, d: Id) {
    && |endps| == |masters| == 2
    && var k := Follower(endps); d == masters[k].id && endps[k].leader != endps[k].memberId
  }

  /** The other Master is the one whose member both endpoints named. */
  predicate Leads(masters: seq<Master>, endps: seq<Scaling.Endpoint>, leader: Id) {
    && |endps| == |masters| == 2
    && var k := 1 - Follower(endps); leader == masters[k].id && endps[k].memberId == endps[0].leader
  }

  /** What a finished handover leaves: the member and the machine of `leader`, and not those of d. */
  ghost predicate LeaderSurvives(before: ControlPlane.Cluster, after: ControlPlane.Cluster, leader: Id, d: Id) {
    && leader != d && leader in after.members && leader in after.crds && d !in after.members && d !in after.insts
    && (leader in before.insts ==> leader in after.insts)
  }

  /** If both endpoints named one of them as leader, that is the one that stays. */
  lemma LeaderIsOther(p: Plane, endps: seq<Scaling.Endpoint>) returns (leader: Id)
    requires p.Valid() && Agree(endps) && |p.masters| == 2
    requires forall k :: 0 <= k < |p.masters| ==> AnsweredBy(p.members, p.masters[k], endps[k])
    ensures Leads(p.masters, endps, leader) && leader != p.masters[Follower(endps)].id
    ensures leader in p.Abs().members && leader in p.Abs().crds
  {
    var k := 1 - Follower(endps);
    leader := p.masters[k].id;
    var x := AnswerOf(p, k, endps[k]);
    assert p.masters[0].id != p.masters[1].id;
  }

  lemma LeaderFacts(p: Plane, endps: seq<Scaling.Endpoint>) returns (leader: Id)
    requires p.Valid() && |endps| == |p.masters|
    requires forall k :: 0 <= k < |p.masters| ==> AnsweredBy(p.members, p.masters[k], endps[k])
    ensures Agree(endps) ==> LeaderListed(p.masters, endps, p.Abs(), leader)
  {
    leader := "";
    if Agree(endps) {
      leader := LeaderIsOther(p, endps);
    }
  }

  ghost predicate LeaderListed(masters: seq<Master>, endps: seq<Scaling.Endpoint>, c: ControlPlane.Cluster, leader: Id) {
    && Leads(masters, endps, leader) && leader != masters[Follower(endps)].id
    && leader in c.members && leader in c.crds
  }

  lemma Survivor(masters: seq<Master>, endps: seq<Scaling.Endpoint>, before: ControlPlane.Cluster,
                 after: ControlPlane.Cluster, leader: Id, d: Id)
    ensures LeaderListed(masters, endps, before, leader) && Picked(masters, endps, d) &&
            after == before.(members := before.members - {d}, insts := before.insts - {d}) ==>
              LeaderSurvives(before, after, leader, d)
  {
  }

  /**
   The step to one machine: the follower's member first, then its machine. On success both
   are gone; and if both endpoints had named one leader among them, the survivor is the
   leader, still with its member and on its own machine. If every Master has its machine,
   then giving up, with no call to etcd or the cloud failing, means nothing was changed.
   */
  method HandOver(p: Plane, ghost target: int, ghost s: ControlPlane.State)
    returns (ok: bool, ghost endps: seq<Scaling.Endpoint>, ghost d: Id, ghost leader: Id,
             ghost es: seq<ControlPlane.Event>, ghost t: ControlPlane.State)
    requires p.Valid() && s.c == p.Abs() && s.scaler == ControlPlane.Cleared
    requires Scaling.Batch(|s.c.insts|, target) == Some(1)
    modifies p`members, p`instances, p`faults
    ensures p.Valid() && |old(p.instances)| - 1 <= |p.instances| <= |old(p.instances)|
    ensures Ordered(es, target, 1, ok, p.faults - old(p.faults)) && (ok ==> p.faults == old(p.faults))
    ensures s.c.crds <= s.c.insts ==> (ok <==> p.faults == old(p.faults) && HasFollower(endps))
    ensures |old(p.masters)| == 0 ==> |p.instances| == |old(p.instances)|
    ensures Reaches(s, es, t)
    ensures t == s.(c := p.Abs(), scaler := ControlPlane.Rest, half := t.half, strayed := t.strayed)
    ensures target >= 1 ==> t.strayed == s.strayed
    ensures ok ==> d in s.c.crds && t.half == s.half
    ensures ok ==> t.c == s.c.(members := s.c.members - {d}, insts := s.c.insts - {d})
    ensures ok ==> Picked(p.masters, endps, d) && (Agree(endps) ==> Leads(p.masters, endps, leader))
    ensures ok && Agree(endps) ==> LeaderSurvives(s.c, t.c, leader, d)
    ensures GaveUp(es) && s.c.crds <= s.c.insts ==> t.c == s.c && t.half == s.half
  {
    d, leader, endps := "", "", [];
    var status := Endpoints(p);
    if status.Err? {
      StopRun(s);
      es, t := [ControlPlane.ScaleStop], s.(scaler := ControlPlane.Rest);
      return false, endps, d, leader, es, t;
    }
    endps := status.value;
    leader := LeaderFacts(p, endps);
    ok, d, es, t := PassOn(p, status.value, target, s);
    Survivor(p.masters, endps, s.c, t.c, leader, d);
  }

  /** The two removals, in this order. */
  method PassOn(p: Plane, endps: seq<Scaling.Endpoint>, ghost target: int, ghost s: ControlPlane.State)
    returns (ok: bool, ghost d: Id, ghost es: seq<ControlPlane.Event>, ghost t: ControlPlane.State)
    requires p.Valid() && s.c == p.Abs() && s.scaler == ControlPlane.Cleared
    requires Scaling.Batch(|s.c.insts|, target) == Some(1)
    requires |endps| == |p.masters|
    requires forall k :: 0 <= k < |p.masters| ==> AnsweredBy(p.members, p.masters[k], endps[k])
    modifies p`members, p`instances, p`faults
    ensures p.Valid() && |old(p.instances)| - 1 <= |p.instances| <= |old(p.instances)|
    ensures Ordered(es, target, 1, ok, p.faults - old(p.faults)) && (ok ==> p.faults == old(p.faults))
    ensures s.c.crds <= s.c.insts ==> (ok <==> p.faults == old(p.faults) && HasFollower(endps))
    ensures |p.masters| != 2 ==> p.instances == old(p.instances)
    ensures Reaches(s, es, t)
    ensures t == s.(c := p.Abs(), scaler := ControlPlane.Rest, half := t.half, strayed := t.strayed)
    ensures target >= 1 ==> t.strayed == s.strayed
    ensures ok ==> Picked(p.masters, endps, d) && d in s.c.crds && t.half == s.half
    ensures ok ==> t.c == s.c.(members := s.c.members - {d}, insts := s.c.insts - {d})
    ensures GaveUp(es) && s.c.crds <= s.c.insts ==> t.c == s.c && t.half == s.half
  {
    var follower;
    follower, d, es, t := RemoveFollower(p, endps, target, s);
    if follower.Err? {
      DismissalOrdered(es, target, p.faults - old(p.faults));
      return false, d, es, t;
    }
    ghost var e;
    ok, e, t := DropFollowersMachine(p, follower.value, d, s, es, t);
    HandoverOrdered(es, e, target, ok, p.faults - old(p.faults));
    es := es + [e];
  }

  /** The second half: find the follower's machine and take it out of the group. */
  method DropFollowersMachine(p: Plane, url: string, ghost d: Id, ghost s: ControlPlane.State,
                              ghost es: seq<ControlPlane.Event>, ghost u: ControlPlane.State)
    returns (ok: bool, ghost e: ControlPlane.Event, ghost t: ControlPlane.State)
    requires p.Valid() && d in p.addr && url == Advertise(p.addr[d], "2379")
    requires Reaches(s, es, u) && u.c == p.Abs() && u.scaler == ControlPlane.Handover(d)
    modifies p`instances, p`faults
    ensures old(p.faults) <= p.faults && (ok <==> p.faults == old(p.faults) && e.RemoveMachine?)
    ensures (e.RemoveMachine? || e.ScaleStop?) && (d in u.c.insts ==> e.RemoveMachine?)
    ensures p.Valid() && |old(p.instances)| - 1 <= |p.instances| <= |old(p.instances)|
    ensures Reaches(s, es + [e], t) && t == u.(c := p.Abs(), scaler := ControlPlane.Rest, half := t.half)
    ensures ok ==> t.half == u.half && t.c == u.c.(insts := u.c.insts - {d})
  {
    if d in p.Abs().insts {
      MachineFound(p, d);
    }
    var id := Scaling.FindInstanceId(p.instances, url);
    if id == "" {
      StopRun(u);
      t := u.(scaler := ControlPlane.Rest, half := true);
      ReachesConcat(s, es, u, [ControlPlane.ScaleStop], t);
      return false, ControlPlane.ScaleStop, t;
    }
    FollowersMachine(p, d, id);
    var reply := RemoveMachine(p, id);
    MachineRun(u, reply);
    t := u.(c := p.Abs(), scaler := ControlPlane.Rest, half := u.half || reply.Refused?);
    ReachesConcat(s, es, u, [ControlPlane.RemoveMachine(reply)], t);
    return reply.Done?, ControlPlane.RemoveMachine(reply), t;
  }

  // ----- The controller ------------------------------------------------------------------

  lemma GroupRun(s: ControlPlane.State, target: int, victims: set<Id>)
    requires s.scaler.Cleared? && target < |s.c.insts| && victims <= s.c.insts
    requires var t := Scaling.Batch(|s.c.insts|, target).value; t != 1 && |victims| <= |s.c.insts| - t
    ensures Reaches(s, [ControlPlane.ScaleGroup(target, victims)],
                    s.(c := s.c.(insts := s.c.insts - victims), scaler := ControlPlane.Rest,
                       strayed := s.strayed || target < 1))
  {
    var e := ControlPlane.ScaleGroup(target, victims);
    assert Reaches(s, [], s);
    ReachesStep(s, [], s, e);
    assert [] + [e] == [e];
  }

  lemma GrowRun(s: ControlPlane.State, target: int, newcomers: set<Id>)
    requires s.scaler.Cleared? && |s.c.insts| < target && target != 1
    requires newcomers !! ControlPlane.Named(s.c) && |newcomers| <= target - |s.c.insts|
    ensures Reaches(s, [ControlPlane.ScaleOut(target, newcomers)],
                    s.(c := s.c.(insts := s.c.insts + newcomers), scaler := ControlPlane.Rest, strayed := true))
  {
    var e := ControlPlane.ScaleOut(target, newcomers);
    assert Reaches(s, [], s);
    ReachesStep(s, [], s, e);
    assert [] + [e] == [e];
  }

  lemma MachineCount(p: Plane)
    requires p.Valid()
    ensures |p.Abs().insts| == |p.instances|
  {
    InstanceKeysSize(p.nm, p.instances);
    assert Inventory(p.instances, [], []).InstanceKeys(p.nm) == p.Abs().insts;
  }

  /** The group is told to have `expected` machines, fewer or more than now. */
  method ScaleMasterGroup(p: Plane, expected: int, ghost replicas: int, ghost s: ControlPlane.State)
    returns (ok: bool, ghost es: seq<ControlPlane.Event>, ghost t: ControlPlane.State)
    requires p.Valid() && s.c == p.Abs() && s.scaler == ControlPlane.Cleared
    requires Scaling.Batch(|p.instances|, replicas) == Some(expected) && expected != 1
    modifies p`instances, p`faults, p`log
    ensures p.faults == old(p.faults) + (if ok then 0 else 1)
    ensures Reported(es, replicas, expected, ok, p.faults - old(p.faults), s.c, t.c, old(p.log), p.log)
    ensures p.Valid() && Between(expected, |p.instances|, |old(p.instances)|)
    ensures Reaches(s, es, t)
    ensures t == s.(c := p.Abs(), scaler := ControlPlane.Rest, strayed := t.strayed)
    ensures 1 <= replicas < |old(p.instances)| ==> t.strayed == s.strayed
  {
    ghost var e;
    e, t := Resize(p, expected, replicas, s);
    ok := *;
    p.faults := p.faults + if ok then 0 else 1;
    p.log := p.log + [GroupTold(expected)];
    es := [e];
    GroupReported(e, replicas, expected, ok, s.c, t.c, old(p.log));
  }

  /** Machines leave or come until the group has, at most, reached `expected`. */
  method Resize(p: Plane, expected: int, ghost replicas: int, ghost s: ControlPlane.State)
    returns (ghost e: ControlPlane.Event, ghost t: ControlPlane.State)
    requires p.Valid() && s.c == p.Abs() && s.scaler == ControlPlane.Cleared
    requires Scaling.Batch(|p.instances|, replicas) == Some(expected) && expected != 1
    modifies p`instances
    ensures (e.ScaleGroup? || e.ScaleOut?) && e.target == replicas && Carried(s.c, expected, t.c)
    ensures p.Valid() && Between(expected, |p.instances|, |old(p.instances)|)
    ensures Reaches(s, [e], t)
    ensures t == s.(c := p.Abs(), scaler := ControlPlane.Rest, strayed := t.strayed)
    ensures 1 <= replicas < |old(p.instances)| ==> t.strayed == s.strayed
  {
    MachineCount(p);
    Scaling.BatchSide(|p.instances|, replicas);
    if expected <= |p.instances| {
      ghost var victims := ShrinkGroup(p, expected);
      GroupRun(s, replicas, victims);
      e := ControlPlane.ScaleGroup(replicas, victims);
      t := s.(c := p.Abs(), scaler := ControlPlane.Rest, strayed := s.strayed || replicas < 1);
    } else {
      ghost var newcomers := BringUp(p, expected);
      GrowRun(s, replicas, newcomers);
      e := ControlPlane.ScaleOut(replicas, newcomers);
      t := s.(c := p.Abs(), scaler := ControlPlane.Rest, strayed := true);
    }
  }

  /** From `was` towards `expected`, possibly stopping before, never past it. */
  predicate Between(expected: int, now: int, was: int) {
    if expected <= was then expected <= now <= was else was <= now <= expected
  }

  /** One step of scaling, once the cluster has been found healthy; the step to one machine is a handover. */
  method ScaleTo(p: Plane, expected: int, ghost replicas: int, ghost s: ControlPlane.State)
    returns (ok: bool, ghost es: seq<ControlPlane.Event>, ghost t: ControlPlane.State)
    requires p.Valid() && s.c == p.Abs() && s.scaler == ControlPlane.Cleared && ControlPlane.Look(s.c).Healthy()
    requires Scaling.Batch(|p.instances|, replicas) == Some(expected)
    modifies p`members, p`instances, p`faults, p`log
    ensures Reported(es, replicas, expected, ok, p.faults - old(p.faults), s.c, t.c, old(p.log), p.log)
    ensures p.Valid() && Between(expected, |p.instances|, |old(p.instances)|)
    ensures Reaches(s, es, t)
    ensures t == s.(c := p.Abs(), scaler := ControlPlane.Rest, half := t.half, strayed := t.strayed)
    ensures 1 <= replicas < |old(p.instances)| ==> t.strayed == s.strayed
  {
    if expected == 1 {
      ok, es, t := ScaleToOne(p, replicas, s);
      HandoverReported(es, replicas, ok, p.faults - old(p.faults), s.c, t.c, p.log);
    } else {
      ok, es, t := ScaleMasterGroup(p, expected, replicas, s);
    }
  }

  /** A handover, seen as a scaling step. */
  method ScaleToOne(p: Plane, ghost replicas: int, ghost s: ControlPlane.State)
    returns (ok: bool, ghost es: seq<ControlPlane.Event>, ghost t: ControlPlane.State)
    requires p.Valid() && s.c == p.Abs() && s.scaler == ControlPlane.Cleared && ControlPlane.Look(s.c).Healthy()
    requires Scaling.Batch(|p.instances|, replicas) == Some(1)
    modifies p`members, p`instances, p`faults
    ensures Executed(es, replicas, 1, ok, p.faults - old(p.faults), s.c, t.c)
    ensures p.Valid() && Between(1, |p.instances|, |old(p.instances)|)
    ensures Reaches(s, es, t)
    ensures t == s.(c := p.Abs(), scaler := ControlPlane.Rest, half := t.half, strayed := t.strayed)
    ensures 1 <= replicas < |old(p.instances)| ==> t.strayed == s.strayed
  {
    MachineCount(p);
    Scaling.BatchSide(|p.instances|, replicas);
    MasterCount(p);
    ghost var endps, d, leader;
    ok, endps, d, leader, es, t := HandOver(p, replicas, s);
    if ok {
      HandedOver(s.c, d, t.c);
    }
  }

  /** The group is told a number unless it is one. */
  function TellGroup(expected: int): seq<Action> {
    if expected == 1 then [] else [GroupTold(expected)]
  }

  function Telling(log: seq<Action>, expected: int): seq<Action> {
    if expected == 1 then log else log + [GroupTold(expected)]
  }

  lemma TellingIs(log: seq<Action>, expected: int)
    ensures Telling(log, expected) == log + TellGroup(expected)
  {
  }

  /**
   Exactly one order was given, to the group unless one machine is wanted. Without a failing
   call it was carried out, but for a handover that was given up.
   */
  predicate Ordered(es: seq<ControlPlane.Event>, replicas: int, expected: int, ok: bool, errors: int) {
    && Order(es, replicas) && (ToGroup(es) <==> expected != 1) && errors >= 0
    && (errors == 0 ==> (ok <==> !GaveUp(es)))
  }

  /** An order, and what became of the cluster: nothing if it was given up. */
  predicate Executed(es: seq<ControlPlane.Event>, replicas: int, expected: int, ok: bool, errors: int,
                     before: ControlPlane.Cluster, after: ControlPlane.Cluster) {
    && Ordered(es, replicas, expected, ok, errors) && (GaveUp(es) ==> after == before)
    && (ok ==> Carried(before, expected, after))
  }

  /** And what the group was told. */
  predicate Reported(es: seq<ControlPlane.Event>, replicas: int, expected: int, ok: bool, errors: int,
                     before: ControlPlane.Cluster, after: ControlPlane.Cluster, log: seq<Action>, more: seq<Action>) {
    Executed(es, replicas, expected, ok, errors, before, after) && more == Telling(log, expected)
  }

  lemma MasterCount(p: Plane)
    requires p.Valid()
    ensures |p.Abs().crds| == |p.masters|
  {
    MasterKeysSize(p.masters);
    assert Inventory([], p.masters, []).MasterKeys() == p.Abs().crds;
  }

  /** The scale function handed to `QuorumScale`: an unhealthy cluster is left alone, and that counts as success. */
  method Scale(p: Plane, expected: int, ghost replicas: int, ghost s: ControlPlane.State)
    returns (ok: bool, ghost es: seq<ControlPlane.Event>, ghost t: ControlPlane.State, ghost told: seq<Action>)
    requires p.Valid() && s.c == p.Abs() && s.scaler == ControlPlane.Rest
    requires Scaling.Batch(|p.instances|, replicas) == Some(expected)
    modifies p`members, p`instances, p`faults, p`log
    ensures old(p.faults) <= p.faults
    ensures es == [] || Scaled(es, replicas, expected, ok, p.faults - old(p.faults), s.c, t.c)
    ensures es == [] ==> ok && t == s
    ensures es == [] && p.faults == old(p.faults) ==> !ControlPlane.Look(s.c).Healthy()
    ensures p.log == old(p.log) + told && told == if es == [] then [] else TellGroup(expected)
    ensures p.Valid() && Between(expected, |p.instances|, |old(p.instances)|)
    ensures Reaches(s, es, t) && t == s.(c := p.Abs(), half := t.half, strayed := t.strayed)
    ensures 1 <= replicas < |old(p.instances)| ==> t.strayed == s.strayed
    ensures !ControlPlane.Look(s.c).Healthy() ==> ok && t == s && p.instances == old(p.instances)
  {
    var healthy, read := Healthy(p);
    if !healthy {
      return true, [], s, [];
    }
    TellingIs(p.log, expected);
    ok, es, t := ScaleHealthy(p, expected, replicas, s);
    told := TellGroup(expected);
  }

  /** The same once the cluster has been found healthy. */
  method ScaleHealthy(p: Plane, expected: int, ghost replicas: int, ghost s: ControlPlane.State)
    returns (ok: bool, ghost es: seq<ControlPlane.Event>, ghost t: ControlPlane.State)
    requires p.Valid() && s.c == p.Abs() && s.scaler == ControlPlane.Rest && ControlPlane.Look(s.c).Healthy()
    requires Scaling.Batch(|p.instances|, replicas) == Some(expected)
    modifies p`members, p`instances, p`faults, p`log
    ensures Scaled(es, replicas, expected, ok, p.faults - old(p.faults), s.c, t.c)
    ensures p.log == Telling(old(p.log), expected)
    ensures p.Valid() && Between(expected, |p.instances|, |old(p.instances)|)
    ensures Reaches(s, es, t) && t == s.(c := p.Abs(), half := t.half, strayed := t.strayed)
    ensures 1 <= replicas < |old(p.instances)| ==> t.strayed == s.strayed
  {
    ScaleInSafety.ClearedRun(s);
    ghost var u := s.(scaler := ControlPlane.Cleared);
    ghost var order;
    ok, order, t := ScaleTo(p, expected, replicas, u);
    ReachesConcat(s, Scans(), u, order, t);
    ScaledIs(order, replicas, expected, ok, p.faults - old(p.faults), s.c, t.c);
    es := Scans() + order;
  }

  /** The reading of the three lists that clears the scaler. */
  function Scans(): seq<ControlPlane.Event> {
    [ControlPlane.ScanCrds, ControlPlane.ScanNodes, ControlPlane.ScanInsts]
  }

  /** What an order carried out does: machines leave or come, and going to one their members leave with them. */
  predicate Carried(before: ControlPlane.Cluster, expected: int, after: ControlPlane.Cluster) {
    && after == before.(insts := after.insts, members := after.members)
    && after.members == (if expected == 1 then before.members - (before.insts - after.insts) else before.members)
    && if expected <= |before.insts| then after.insts <= before.insts else before.insts <= after.insts
  }

  lemma HandedOver(before: ControlPlane.Cluster, d: Id, after: ControlPlane.Cluster)
    requires d in before.insts && 1 <= |before.insts|
    requires after == before.(members := before.members - {d}, insts := before.insts - {d})
    ensures Carried(before, 1, after) && after.insts < before.insts
  {
    assert before.insts - after.insts == {d};
  }

  /** A scaling step in full: the lists are read, then exactly one order is given. */
  predicate Scaled(es: seq<ControlPlane.Event>, replicas: int, expected: int, ok: bool, errors: int,
                   before: ControlPlane.Cluster, after: ControlPlane.Cluster) {
    Scans() <= es && Executed(es[3..], replicas, expected, ok, errors, before, after)
  }

  lemma ScaledIs(order: seq<ControlPlane.Event>, replicas: int, expected: int, ok: bool, errors: int,
                 before: ControlPlane.Cluster, after: ControlPlane.Cluster)
    requires Executed(order, replicas, expected, ok, errors, before, after)
    ensures Scaled(Scans() + order, replicas, expected, ok, errors, before, after)
  {
    assert (Scans() + order)[3..] == order;
  }

  /**
   One call towards `replicas` machines. Nothing happens when they are there. A scale-in is
   never reported as done but asks to be called again; it does not undershoot, it leaves a
   strict majority of three machines or more, and it goes to one machine only from two.
   */
  method QuorumScale(p: Plane, replicas: int, ghost s: ControlPlane.State)
    returns (r: Scaling.Outcome, ghost es: seq<ControlPlane.Event>, ghost t: ControlPlane.State, ghost told: seq<Action>)
    requires p.Valid() && s.c == p.Abs() && s.scaler == ControlPlane.Rest
    modifies p`members, p`instances, p`faults, p`log
    ensures old(p.faults) <= p.faults && p.log == old(p.log) + told
    ensures p.faults == old(p.faults) && ControlPlane.Look(s.c).Healthy() && |old(p.instances)| != replicas ==>
              Stepped(r, es, replicas, |old(p.instances)|, s.c, t.c) && told == Told(|old(p.instances)|, replicas)
    ensures p.Valid() && Between(replicas, |p.instances|, |old(p.instances)|)
    ensures Reaches(s, es, t) && t == s.(c := p.Abs(), half := t.half, strayed := t.strayed)
    ensures |old(p.instances)| == replicas ==> r.Success? && t == s && p.instances == old(p.instances)
    ensures r.Success? ==> |old(p.instances)| <= replicas
    ensures r.RetryNextBatch? ==> replicas < |old(p.instances)|
    ensures 3 <= |old(p.instances)| ==> 2 * |p.instances| > |old(p.instances)| && |p.instances| >= 2
    ensures 1 <= replicas <= |old(p.instances)| ==> t.strayed == s.strayed
  {
    es, t, told := [], s, [];
    var current := |p.instances|;
    if replicas == current {
      return Scaling.Success, es, t, told;
    }
    var ok;
    if replicas > current {
      ok, es, t, told := Scale(p, replicas, replicas, s);
      return if ok then Scaling.Success else Scaling.Failed, es, t, told;
    }
    var max := Max(Scaling.Half(current - 1), 1);
    var expected := Max(current - max, replicas);
    Scaling.BatchSide(current, replicas);
    ok, es, t, told := Scale(p, expected, replicas, s);
    return if ok then Scaling.RetryNextBatch else Scaling.Failed, es, t, told;
  }

  /** What the group is told on the way from `current` to `desired` machines; nothing when a handover is due. */
  function Told(current: int, desired: int): seq<Action> {
    var t := Scaling.Batch(current, desired);
    if t.None? then [] else TellGroup(t.value)
  }

  /** A call that met no error: one order, and the answer that goes with it. */
  predicate Stepped(r: Scaling.Outcome, es: seq<ControlPlane.Event>, replicas: int, current: int,
                    before: ControlPlane.Cluster, after: ControlPlane.Cluster) {
    && Scaling.Batch(current, replicas).Some?
    && Scaled(es, replicas, Scaling.Batch(current, replicas).value, !r.Failed?, 0, before, after)
    && (r.Success? ==> current < replicas) && (r.RetryNextBatch? ==> replicas < current)
  }

  /** Which of the listing and configuration calls in front of a batch are answered. */
  datatype Answers = Answers(masterSet: bool, nodes: bool, detail: bool, userData: bool, config: bool)

  /** Any of these calls may fail; then nothing happens. */
  method Ready(p: Plane, replicas: int, a: Answers) returns (go: bool)
    modifies p`faults
    ensures go <==> a == Answers(true, true, true, true, true) && |p.nodes| != replicas && |p.instances| != replicas
    ensures old(p.faults) <= p.faults && (a == Answers(true, true, true, true, true) ==> p.faults == old(p.faults))
    ensures go <==> p.faults == old(p.faults) && |p.nodes| != replicas && |p.instances| != replicas
  {
    if !a.masterSet || !a.nodes {
      p.faults := p.faults + 1;
      return false;
    }
    if |p.nodes| == replicas {
      return false;
    }
    if !a.detail {
      p.faults := p.faults + 1;
      return false;
    }
    if |p.instances| == replicas {
      return false;
    }
    if !a.userData || !a.config {
      p.faults := p.faults + 1;
      return false;
    }
    return true;
  }

  /** What a finished repair pass did, from the lists it read. */
  ghost predicate Repaired(nm: Naming, inv: Inventory, env: Surroundings, before: ControlPlane.Cluster, made: set<Id>,
                           after: ControlPlane.Cluster, acts: seq<Action>) {
    && Passes.PassDone(before, made, after) && Tended(nm, inv.Rows(nm), env, true, acts)
    && Treated(ControlPlane.Look(before), Passes.Tidied(before, made), after, acts)
    && (AllWell(before, made, after, acts) ==> Passes.GoodRound(before, after))
  }

  /**
   One reconciliation towards any number of machines: an unhealthy control plane is
   repaired, a healthy one takes one step towards the number. Whatever fails on the way, it
   amounts to a run of the state machine and never passes the wanted number; and if nothing
   fails, it is a finished pass in the first case, in the second exactly one order, unless
   there are as many nodes or machines as wanted, when nothing happens.
   */
  method Reconcile(p: Plane, replicas: int, a: Answers, ghost s: ControlPlane.State)
    returns (ghost es: seq<ControlPlane.Event>, ghost t: ControlPlane.State, ghost env: Surroundings,
             ghost made: set<Id>, ghost acts: seq<Action>)
    requires p.Valid() && s.c == p.Abs() && s.heal == ControlPlane.Idle && s.scaler == ControlPlane.Rest
    modifies p
    ensures p.Valid() && Between(replicas, |p.instances|, |old(p.instances)|)
    ensures Reaches(s, es, t) && t == s.(c := p.Abs(), half := t.half, strayed := t.strayed)
    ensures 1 <= replicas <= |old(p.instances)| ==> t.strayed == s.strayed
    ensures 3 <= |old(p.instances)| ==> 2 * |p.instances| > |old(p.instances)|
    ensures old(p.faults) <= p.faults && p.log == old(p.log) + acts
    ensures p.faults == old(p.faults) && !ControlPlane.Look(s.c).Healthy() && old(p.masters) != [] ==>
              Repaired(p.nm, old(p.Lists()), env, s.c, made, p.Abs(), acts) && p.instances == old(p.instances)
    ensures p.faults == old(p.faults) && ControlPlane.Look(s.c).Healthy() ==>
              if |old(p.nodes)| == replicas || |old(p.instances)| == replicas then t == s && es == [] && acts == []
              else acts == Told(|old(p.instances)|, replicas) &&
                   exists r :: Stepped(r, es, replicas, |old(p.instances)|, s.c, t.c)
  {
    es, t, made, acts := [], s, {}, [];
    var around: Surroundings := *;
    env := around;
    var healthy, read := Healthy(p);
    if !healthy {
      var ok;
      ok, made, es, t, acts := p.FixMasterNode(around, s);
      return;
    }
    var go := Ready(p, replicas, a);
    if !go {
      return;
    }
    var r;
    r, es, t, acts := QuorumScale(p, replicas, s);
  }
}

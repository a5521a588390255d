/** What a successful repair pass does to the cluster, and where repeated passes lead. */
module Passes {
  import opened Basics
  import opened ControlPlane
  import Scaling

  function Keep(nodes: map<Id, bool>, ids: set<Id>): map<Id, bool> {
    map n | n in nodes && n in ids :: nodes[n]
  }

  /** The cluster after steps 1 and 2 and the node deletions, when `made` Masters could be created. */
  function Tidied(c: Cluster, made: set<Id>): Cluster {
    Cluster(c.insts, c.crds * c.insts + made, Keep(c.nodes, c.insts), c.members - MemDiff(c.members, c.insts))
  }

  /** A pass that reported success. Failed Master creations are only logged, so `made` may be any part. */
  predicate PassDone(c: Cluster, made: set<Id>, after: Cluster) {
    made <= Look(c).MissedCrds() && Repaired(Look(c), Tidied(c, made), after)
  }

  /**
   Nothing of a live machine is deleted, save the member of a machine that had no
   node and is being reset.
   */
  lemma PassSparesLive(c: Cluster, made: set<Id>, after: Cluster, i: Id)
    requires PassDone(c, made, after) && i in c.insts
    ensures after.insts == c.insts
    ensures i in c.crds ==> i in after.crds
    ensures i in c.nodes ==> i in after.nodes
    ensures i in c.members && i in c.nodes ==> i in after.members
  {
    var mid := Tidied(c, made);
    assert i in c.members ==> i in mid.members;
    if exists j :: j in Look(c).Additions() && Rejoined(j, mid, after) {
      var j :| j in Look(c).Additions() && Rejoined(j, mid, after);
      if i in c.nodes && i in c.members {
        assert i in mid.members - {j};
      }
    }
  }

  /** No Master and no node without a machine is left. */
  lemma PassLeavesNoOrphan(c: Cluster, made: set<Id>, after: Cluster)
    requires PassDone(c, made, after)
    ensures Look(after).OrphanCrds() == {} && Look(after).OrphanNodes() == {}
  {
    assert Look(c).Additions() <= c.insts && Tidied(c, made).nodes.Keys <= c.insts;
  }

  /**
   A live machine that has a node ends with a Master exactly when it had one or the
   creation went through: the pass reports success either way.
   */
  lemma PassRebuildsMasters(c: Cluster, made: set<Id>, after: Cluster, i: Id)
    requires PassDone(c, made, after) && i in c.insts && i in c.nodes
    ensures i in after.crds <==> i in c.crds || i in made
  {
    assert i !in Look(c).Additions();
  }

  /** Every successful pass leaves a live machine that has a node with a Master if and only if it had one. */
  lemma MasterSureIff(c: Cluster, i: Id)
    requires i in c.insts && i in c.nodes
    ensures (forall made, after :: PassDone(c, made, after) ==> i in after.crds) <==> i in c.crds
  {
    forall made, after | PassDone(c, made, after)
      ensures i in c.crds ==> i in after.crds
    {
      PassRebuildsMasters(c, made, after, i);
    }
    if i !in c.crds {
      assert PassDone(c, {}, Tidied(c, {})) && i !in Tidied(c, {}).crds;
    }
  }

  /** The reported success is compatible with a missing Master. */
  lemma SilentCreateFailure() returns (c: Cluster, after: Cluster)
    ensures PassDone(c, {}, after)
    ensures !Look(after).Healthy() && after.insts == after.nodes.Keys == after.members && after.crds != after.insts
  {
    c := Cluster({"a", "b"}, {"a"}, map["a" := true, "b" := true], {"a", "b"});
    after := Tidied(c, {});
    assert "b" in after.insts && "b" !in after.crds;
    assert after.nodes == c.nodes && MemDiff(c.members, c.insts) == {};
  }

  /** A pass may take the member of a live machine away exactly if that machine has no node. */
  lemma LiveMemberKept(c: Cluster, made: set<Id>, i: Id)
    requires i in c.insts * c.members && made <= Look(c).MissedCrds()
    ensures (forall after :: PassDone(c, made, after) ==> i in after.members) <==> i in c.nodes
  {
    if i in c.nodes {
      forall after | PassDone(c, made, after)
        ensures i in after.members
      {
        PassSparesLive(c, made, after, i);
      }
    } else {
      var after := ResetOnly(c, made, i);
      assert i !in after.members;
    }
  }

  /** A pass whose repair got as far as removing the member, and failed there. */
  lemma ResetOnly(c: Cluster, made: set<Id>, i: Id) returns (after: Cluster)
    requires i in c.insts && i !in c.nodes && made <= Look(c).MissedCrds()
    ensures PassDone(c, made, after) && after == Tidied(c, made).(members := Tidied(c, made).members - {i})
  {
    var mid := Tidied(c, made);
    after := mid.(members := mid.members - {i});
    assert i in Look(c).Additions() && Rejoined(i, mid, after);
  }

  /** The reported success is compatible with a live machine's member gone: its reset failed half-way. */
  lemma ResetDropsMember() returns (c: Cluster, after: Cluster)
    ensures PassDone(c, {}, after) && Look(c).OrphanCrds() == {} && c.members == c.insts
    ensures "b" in after.insts && "b" in c.members && "b" !in after.members
  {
    c := OneNodeMissing();
    after := ResetOnly(c, {}, "b");
  }

  /** Two machines, both Masters and members, of which b has no node. */
  function OneNodeMissing(): Cluster {
    Cluster({"a", "b"}, {"a", "b"}, map["a" := true], {"a", "b"})
  }

  // ----- The second pass --------------------------------------------------------

  predicate DeletesNothing(c: Cluster, after: Cluster) {
    c.crds <= after.crds && c.nodes.Keys <= after.nodes.Keys && c.members <= after.members
  }

  /** No pass from here, whatever its repair does, deletes anything. */
  ghost predicate Stable(c: Cluster) {
    forall made, after :: PassDone(c, made, after) ==> DeletesNothing(c, after)
  }

  /** Members stay exactly when none is listed for removal and none sits on a machine without a node. */
  predicate MembersSettled(c: Cluster) {
    MemDiff(c.members, c.insts) == {} && c.members * c.insts <= c.nodes.Keys
  }

  lemma SettledKeeps(c: Cluster, made: set<Id>, after: Cluster)
    requires PassDone(c, made, after) && MembersSettled(c)
    ensures c.members <= after.members
  {
    var mid := Tidied(c, made);
    assert mid.members == c.members;
    if exists j :: j in Look(c).Additions() && Rejoined(j, mid, after) {
      var j :| j in Look(c).Additions() && Rejoined(j, mid, after);
      assert j !in c.members;
      assert c.members - {j} == c.members;
    }
  }

  lemma UnsettledLoses(c: Cluster) returns (made: set<Id>, after: Cluster)
    requires !MembersSettled(c)
    ensures PassDone(c, made, after) && !(c.members <= after.members)
  {
    made := {};
    if MemDiff(c.members, c.insts) != {} {
      after := Tidied(c, made);
      var m :| m in MemDiff(c.members, c.insts);
      assert m in c.members && m !in after.members;
    } else {
      var i :| i in c.members * c.insts && i !in c.nodes.Keys;
      after := ResetOnly(c, made, i);
      assert i in c.members && i !in after.members;
    }
  }

  /**
   Once a pass has succeeded, the next deletes no Master and no node. It deletes nothing at
   all, whatever its repair does, if and only if no member is listed for removal and no
   member sits on a machine without a node.
   */
  lemma SecondPassDeletesNothing(c: Cluster, made: set<Id>, after: Cluster)
    requires PassDone(c, made, after)
    ensures forall more, last :: PassDone(after, more, last) ==>
              after.crds <= last.crds && after.nodes.Keys <= last.nodes.Keys
    ensures Stable(after) <==> MembersSettled(after)
  {
    PassLeavesNoOrphan(c, made, after);
    forall more, last | PassDone(after, more, last)
      ensures after.crds <= last.crds && after.nodes.Keys <= last.nodes.Keys
      ensures MembersSettled(after) ==> after.members <= last.members
    {
      NoOrphanNoLoss(after, more, last);
      if MembersSettled(after) {
        SettledKeeps(after, more, last);
      }
    }
    if !MembersSettled(after) {
      var more, last := UnsettledLoses(after);
      assert PassDone(after, more, last) && !DeletesNothing(after, last);
    }
  }

  lemma NoOrphanNoLoss(c: Cluster, made: set<Id>, after: Cluster)
    requires PassDone(c, made, after) && Look(c).OrphanCrds() == {} && Look(c).OrphanNodes() == {}
    ensures c.crds <= after.crds && c.nodes.Keys <= after.nodes.Keys
  {
    forall i | i in c.crds
      ensures i in after.crds
    {
      assert i !in Look(c).OrphanCrds();
      PassSparesLive(c, made, after, i);
    }
    forall i | i in c.nodes
      ensures i in after.nodes
    {
      assert i !in Look(c).OrphanNodes();
      PassSparesLive(c, made, after, i);
    }
  }

  lemma StaleAfterPass(c: Cluster, made: set<Id>, after: Cluster)
    requires PassDone(c, made, after)
    ensures after.members - after.insts == Tidied(c, made).members - c.insts
    ensures 2 * |c.members - c.insts| <= |c.members| ==> MemDiff(after.members, after.insts) == {}
  {
    RepairKeepsStale(Look(c), Tidied(c, made), after);
  }

  /** A repair touches only members of live machines. */
  lemma RepairKeepsStale(v: View, mid: Cluster, after: Cluster)
    requires mid.insts == v.insts && Repaired(v, mid, after)
    ensures after.insts == mid.insts && after.members - after.insts == mid.members - mid.insts
  {
    if exists j :: j in v.Additions() && Rejoined(j, mid, after) {
      var j :| j in v.Additions() && Rejoined(j, mid, after);
      assert forall m :: m != j ==> (m in after.members <==> m in after.members - {j});
      assert forall m :: m != j ==> (m in mid.members <==> m in mid.members - {j});
    }
  }

  /** If the guard accepted, only a member machine without a node can make the second pass delete. */
  lemma AcceptedGuardSettles(c: Cluster, made: set<Id>, after: Cluster)
    requires PassDone(c, made, after) && 2 * |c.members - c.insts| <= |c.members|
    ensures Stable(after) <==> after.members * after.insts <= after.nodes.Keys
  {
    SecondPassDeletesNothing(c, made, after);
    StaleAfterPass(c, made, after);
  }

  /** It does happen: the first pass was throttled, the second resets b, and b's member is gone. */
  lemma SecondPassResets() returns (c: Cluster, last: Cluster)
    ensures PassDone(c, {}, c) && PassDone(c, {}, last)
    ensures c.members == c.insts && "b" in c.members && "b" !in last.members
  {
    c := OneNodeMissing();
    last := ResetOnly(c, {}, "b");
    assert Tidied(c, {}) == c by { assert Keep(c.nodes, c.insts) == c.nodes; }
  }

  /**
   If the guard refused, the second pass removes stale members exactly when the repair in
   between brought in enough live ones to tip the count; and it deletes nothing exactly
   when that did not happen and every member's machine has its node.
   */
  lemma RefusedGuardTips(c: Cluster, made: set<Id>, after: Cluster)
    requires PassDone(c, made, after) && 2 * |c.members - c.insts| > |c.members|
    ensures MemDiff(after.members, after.insts) != {} <==> 2 * |c.members - c.insts| <= |after.members|
    ensures Stable(after) <==>
            2 * |c.members - c.insts| > |after.members| && after.members * after.insts <= after.nodes.Keys
  {
    SecondPassDeletesNothing(c, made, after);
    StaleAfterPass(c, made, after);
    assert MemDiff(c.members, c.insts) == {};
    assert after.members - after.insts == c.members - c.insts;
  }

  /**
   It does happen: two of three members are stale, so the guard refuses; the repair
   brings in a fourth, and the next pass removes the two.
   */
  lemma SecondPassDeletes() returns (c: Cluster, after: Cluster)
    ensures PassDone(c, {}, after)
    ensures MemDiff(after.members, after.insts) == {"x", "y"}
  {
    var insts, stale := {"a", "d"}, {"x", "y"};
    c := Cluster(insts, insts, map["a" := true], {"a"} + stale);
    after := Cluster(insts, insts, map["a" := true, "d" := true], insts + stale);
    Tips(insts, stale);
    assert MemDiff(c.members, insts) == {};
    assert Tidied(c, {}) == c by { assert Keep(c.nodes, insts) == c.nodes; }
    assert after.nodes == c.nodes["d" := true];
    assert "d" in Look(c).Additions() && Rejoined("d", Tidied(c, {}), after);
  }

  lemma Tips(insts: set<Id>, stale: set<Id>)
    requires insts == {"a", "d"} && stale == {"x", "y"}
    ensures ({"a"} + stale) - insts == stale && |stale| == 2 && |{"a"} + stale| == 3
    ensures (insts + stale) - insts == stale && |insts + stale| == 4
  {
  }

  // ----- Convergence ----------------------------------------------------------

  /** Machines without a node plus unready nodes. */
  function Measure(c: Cluster): nat {
    |Look(c).Additions()| + |Look(c).Unready()|
  }

  /** A pass in which every call works and the one repair it attempts succeeds. */
  predicate GoodRound(c: Cluster, after: Cluster) {
    var v := Look(c);
    var mid := Tidied(c, v.MissedCrds());
    if v.Additions() != {} then
      exists i :: i in v.Additions() && Rejoined(i, mid, after) && after.nodes == mid.nodes[i := true]
    else if v.Unready() != {} then
      exists n :: n in v.Unready() && after == mid.(nodes := mid.nodes[n := true])
    else after == mid
  }

  lemma GoodRoundIsPass(c: Cluster, after: Cluster)
    requires GoodRound(c, after)
    ensures PassDone(c, Look(c).MissedCrds(), after)
  {
    var v := Look(c);
    var mid := Tidied(c, v.MissedCrds());
    if v.Additions() == {} && v.Unready() != {} {
      var n :| n in v.Unready() && after == mid.(nodes := mid.nodes[n := true]);
      assert n in mid.nodes;
    }
  }

  /** Tidying changes neither what lacks a node nor what is unready. */
  lemma TidyKeepsMeasure(c: Cluster, made: set<Id>)
    ensures Look(Tidied(c, made)).Additions() == Look(c).Additions()
    ensures Look(Tidied(c, made)).Unready() == Look(c).Unready()
  {
  }

  /** A ready node for machine i takes i, and only i, off both lists. */
  lemma ReadyNode(c: Cluster, after: Cluster, i: Id)
    requires i in c.insts && after.insts == c.insts && after.nodes == c.nodes[i := true]
    ensures Look(after).Additions() == Look(c).Additions() - {i}
    ensures Look(after).Unready() == Look(c).Unready() - {i}
  {
  }

  lemma OneRepair(c: Cluster, made: set<Id>, after: Cluster, i: Id)
    requires i in Look(c).Additions() || i in Look(c).Unready()
    requires after.insts == c.insts && after.nodes == Tidied(c, made).nodes[i := true]
    ensures Measure(after) == Measure(c) - 1
  {
    TidyKeepsMeasure(c, made);
    ReadyNode(Tidied(c, made), after, i);
    var a, u := Look(c).Additions(), Look(c).Unready();
    assert Look(after).Additions() == a - {i} && Look(after).Unready() == u - {i};
    assert if i in a then u - {i} == u else a - {i} == a;
  }

  /** Each good round repairs exactly one machine, while one needs it. */
  lemma RoundProgress(c: Cluster, after: Cluster)
    requires GoodRound(c, after)
    ensures Measure(after) == if Measure(c) == 0 then 0 else Measure(c) - 1
  {
    var v := Look(c);
    var made := v.MissedCrds();
    if v.Additions() != {} {
      var i :| i in v.Additions() && Rejoined(i, Tidied(c, made), after) && after.nodes == Tidied(c, made).nodes[i := true];
      OneRepair(c, made, after, i);
    } else if v.Unready() != {} {
      var n :| n in v.Unready() && after == Tidied(c, made).(nodes := Tidied(c, made).nodes[n := true]);
      OneRepair(c, made, after, n);
    } else {
      TidyKeepsMeasure(c, made);
    }
  }

  predicate Rounds(cs: seq<Cluster>) {
    cs != [] && forall i :: 0 <= i < |cs| - 1 ==> GoodRound(cs[i], cs[i + 1])
  }

  lemma RoundKeeps(c: Cluster, after: Cluster)
    requires GoodRound(c, after)
    ensures after.insts == c.insts && c.crds * c.insts <= after.crds * after.insts
  {
    GoodRoundIsPass(c, after);
    forall i | i in c.crds * c.insts
      ensures i in after.crds * after.insts
    {
      PassSparesLive(c, Look(c).MissedCrds(), after, i);
    }
    assert after.insts == c.insts;
  }

  lemma {:induction false} RoundsDescend(cs: seq<Cluster>, k: nat)
    requires Rounds(cs) && k < |cs|
    ensures Measure(cs[k]) == Max(Measure(cs[0]) - k, 0)
    ensures cs[k].insts == cs[0].insts
    ensures cs[0].crds * cs[0].insts <= cs[k].crds * cs[k].insts
  {
    if k > 0 {
      RoundsDescend(cs, k - 1);
      var c, after := cs[k - 1], cs[k];
      assert GoodRound(c, cs[k - 1 + 1]);
      RoundProgress(c, after);
      RoundKeeps(c, after);
    }
  }

  lemma MeasureZero(c: Cluster)
    requires Measure(c) == 0
    ensures c.insts <= c.nodes.Keys && forall n :: n in c.nodes && n in c.insts ==> c.nodes[n]
  {
    var v := Look(c);
    assert v.Additions() == {} && v.Unready() == {};
    forall n | n in c.nodes && n in c.insts
      ensures c.nodes[n]
    {
      assert n !in v.Unready();
    }
    forall n | n in c.insts
      ensures n in c.nodes.Keys
    {
      assert n !in v.Additions();
    }
  }

  /** When every machine has a node, tidying leaves exactly the machines' Masters and nodes. */
  lemma TidyAligns(c: Cluster)
    requires c.insts <= c.nodes.Keys
    ensures var mid := Tidied(c, Look(c).MissedCrds());
            mid.insts == c.insts == mid.crds == mid.nodes.Keys
  {
    var mid := Tidied(c, Look(c).MissedCrds());
    assert mid.nodes.Keys == c.insts;
    forall i | i in c.insts
      ensures i in mid.crds
    {
      assert i in c.crds || i in Look(c).MissedCrds();
    }
  }

  lemma LastRound(c: Cluster, after: Cluster)
    requires GoodRound(c, after) && Measure(c) == 0
    ensures Look(after).Healthy()
  {
    MeasureZero(c);
    TidyAligns(c);
    assert after == Tidied(c, Look(c).MissedCrds()) by {
      assert Look(c).Additions() == {} && Look(c).Unready() == {};
    }
    forall n | n in after.nodes
      ensures after.nodes[n]
    {
      assert n in c.nodes && n in c.insts;
    }
  }

  /**
   Convergence. With a fixed set of machines, one of which has a Master, good rounds
   lower the measure by one each; the etcd step is never aborted for want of a Master;
   and one round after the measure is used up the system is healthy and stays so.
   */
  lemma Converges(cs: seq<Cluster>, k: nat)
    requires Rounds(cs) && k < |cs|
    requires cs[0].crds * cs[0].insts != {}
    ensures cs[k].crds != {}
    ensures Measure(cs[k]) == Max(Measure(cs[0]) - k, 0)
    ensures Measure(cs[0]) < k ==> Look(cs[k]).Healthy()
  {
    RoundsDescend(cs, k);
    var i :| i in cs[0].crds * cs[0].insts;
    assert i in cs[k].crds * cs[k].insts;
    if Measure(cs[0]) < k {
      RoundsDescend(cs, k - 1);
      assert GoodRound(cs[k - 1], cs[k - 1 + 1]);
      LastRound(cs[k - 1], cs[k]);
    }
  }

  // ----- Scale-in without faults ------------------------------------------------

  predicate Aligned(c: Cluster) {
    && c.insts == c.crds == c.nodes.Keys == c.members
    && forall n :: n in c.nodes ==> c.nodes[n]
  }

  /** One batch of any victims, then one pass. Going to one, the follower leaves etcd first. */
  ghost predicate BatchAndPass(c: Cluster, target: int, after: Cluster) {
    exists victims :: Shrunk(c, victims, target, after)
  }

  /** One round of a scale-in: nothing to do, or a batch and a pass. */
  ghost predicate ScaleStep(c: Cluster, target: int, after: Cluster) {
    if |c.insts| == target then after == c else BatchAndPass(c, target, after)
  }

  predicate Shrunk(c: Cluster, victims: set<Id>, target: int, after: Cluster) {
    && target < |c.insts| && victims <= c.insts
    && var t := Scaling.Batch(|c.insts|, target).value;
    && |victims| == |c.insts| - t
    && var cut := c.(insts := c.insts - victims, members := if t == 1 then c.members - victims else c.members);
    GoodRound(cut, after)
  }

  lemma ShrinkAligns(c: Cluster, victims: set<Id>, target: int, after: Cluster)
    requires Aligned(c) && 1 <= target && Shrunk(c, victims, target, after)
    ensures Aligned(after) && |after.insts| == Scaling.Batch(|c.insts|, target).value
  {
    var n := |c.insts|;
    Scaling.BatchBound(n, target);
    var t := Scaling.Batch(n, target).value;
    var left := c.insts - victims;
    assert n == |left| + |victims| by { assert c.insts == left + victims; }
    var cut := c.(insts := left, members := if t == 1 then c.members - victims else c.members);
    assert Look(cut).Additions() == {} && Look(cut).Unready() == {};
    LastRound(cut, after);
    assert cut.members - left == if t == 1 then {} else victims;
    assert MemDiff(cut.members, left) == cut.members - left;
    assert after.members == left;
  }

  /**
   From n machines with n - 1 <= 2^k, at most k + 1 rounds of batch and pass end with
   exactly `target` machines, and masters, nodes and etcd members are those machines.
   */
  lemma {:induction false} ScaleInCompletes(cs: seq<Cluster>, target: int, k: nat)
    requires |cs| == k + 2 && Aligned(cs[0])
    requires 1 <= target <= |cs[0].insts| && |cs[0].insts| - 1 <= Scaling.Pow2(k)
    requires forall i :: 0 <= i <= k ==> ScaleStep(cs[i], target, cs[i + 1])
    ensures |cs[k + 1].insts| == target && Aligned(cs[k + 1])
  {
    ScaleInRounds(cs, target, k + 1);
    Scaling.LogarithmicScaleIn(|cs[0].insts|, target, k);
  }

  lemma {:induction false} ScaleInRounds(cs: seq<Cluster>, target: int, j: nat)
    requires j < |cs| && Aligned(cs[0]) && 1 <= target <= |cs[0].insts|
    requires forall i :: 0 <= i < j ==> ScaleStep(cs[i], target, cs[i + 1])
    ensures Aligned(cs[j]) && |cs[j].insts| == Scaling.After(|cs[0].insts|, target, j)
    decreases j
  {
    if j > 0 {
      ScaleInRounds(cs, target, j - 1);
      var n := |cs[0].insts|;
      Scaling.BatchesDescend(n, target, j - 1);
      AfterLast(n, target, j - 1);
      assert ScaleStep(cs[j - 1], target, cs[j - 1 + 1]);
      StepAligns(cs[j - 1], target, cs[j]);
    }
  }

  lemma StepAligns(c: Cluster, target: int, after: Cluster)
    requires Aligned(c) && 1 <= target <= |c.insts| && ScaleStep(c, target, after)
    ensures Aligned(after)
    ensures |after.insts| == if |c.insts| <= target then |c.insts| else Scaling.Batch(|c.insts|, target).value
  {
    if |c.insts| != target {
      BatchAligns(c, target, after);
    }
  }

  lemma BatchAligns(c: Cluster, target: int, after: Cluster)
    requires Aligned(c) && 1 <= target && BatchAndPass(c, target, after)
    ensures Aligned(after) && |after.insts| == Scaling.Batch(|c.insts|, target).value
  {
    var victims :| Shrunk(c, victims, target, after);
    ShrinkAligns(c, victims, target, after);
  }

  lemma {:induction false} AfterLast(n: int, target: int, b: nat)
    requires 1 <= target <= n
    ensures var m := Scaling.After(n, target, b);
            && Scaling.After(n, target, b + 1) == if m <= target then m else Scaling.Batch(m, target).value
    decreases b
  {
    if n > target {
      Scaling.BatchBound(n, target);
      if b > 0 {
        AfterLast(Scaling.Batch(n, target).value, target, b - 1);
      } else {
        assert Scaling.After(n, target, 1) == Scaling.After(Scaling.Batch(n, target).value, target, 0);
      }
    }
  }
}

/**
 Where the operator's code leads when nothing fails: repair passes converge, and a scale-in
 ends with exactly the machines asked for. The rounds of module Passes are here those of the
 methods themselves.
 */
module Completion {
  import opened Basics
  import opened Triples
  import opened TripleDiffs
  import opened NodeRepair
  import opened Passes
  import opened PassRun
  import opened Healing
  import opened HealView
  import opened Reconciling
  import opened Operating
  import ControlPlane
  import Scaling

  // ----- Repeated passes ------------------------------------------------------------

  /** These clusters are those between finished passes. */
  ghost predicate Recorded(cs: seq<ControlPlane.Cluster>, ps: seq<Pass>) {
    && |cs| == |ps| + 1
    && forall i :: 0 <= i < |ps| ==>
         && ps[i].made <= ControlPlane.Look(cs[i]).MissedCrds()
         && Treated(ControlPlane.Look(cs[i]), Tidied(cs[i], ps[i].made), cs[i + 1], ps[i].acts)
  }

  /** Each of them created the missing Masters and left the machine it tended to with a ready node. */
  ghost predicate Mended(cs: seq<ControlPlane.Cluster>, ps: seq<Pass>)
    requires |cs| == |ps| + 1
  {
    forall i :: 0 <= i < |ps| ==> AllWell(cs[i], ps[i].made, cs[i + 1], ps[i].acts)
  }

  /** They lead from one cluster to another. */
  ghost predicate From(c: ControlPlane.Cluster, k: nat, cs: seq<ControlPlane.Cluster>, ps: seq<Pass>,
                       now: ControlPlane.Cluster) {
    |ps| == k && Recorded(cs, ps) && cs[0] == c && cs[k] == now
  }

  lemma RecordedNext(c: ControlPlane.Cluster, k: nat, cs: seq<ControlPlane.Cluster>, ps: seq<Pass>,
                     now: ControlPlane.Cluster, p: Pass, after: ControlPlane.Cluster)
    requires From(c, k, cs, ps, now) && p.made <= ControlPlane.Look(now).MissedCrds()
    requires Treated(ControlPlane.Look(now), Tidied(now, p.made), after, p.acts)
    ensures From(c, k + 1, cs + [after], ps + [p], after)
  {
  }

  lemma MendedConverge(c: ControlPlane.Cluster, k: nat, cs: seq<ControlPlane.Cluster>, ps: seq<Pass>,
                       now: ControlPlane.Cluster)
    requires From(c, k, cs, ps, now) && Mended(cs, ps) && c.crds * c.insts != {}
    ensures Measure(now) == Max(Measure(c) - k, 0) && (Measure(c) < k ==> ControlPlane.Look(now).Healthy())
  {
    MendedRounds(cs, ps);
    Converges(cs, k);
  }

  lemma MendedRounds(cs: seq<ControlPlane.Cluster>, ps: seq<Pass>)
    requires Recorded(cs, ps) && Mended(cs, ps)
    ensures Rounds(cs)
  {
    forall i | 0 <= i < |cs| - 1
      ensures GoodRound(cs[i], cs[i + 1])
    {
      TreatedIsGood(cs[i], ps[i].made, cs[i + 1], ps[i].acts);
    }
  }

  /**
   Repeated passes of the code. From a live Master on, if no call fails, every pass finishes;
   and if moreover the missing Masters get created and each machine tended to gets a ready
   node, then each pass repairs one machine, and one pass after the last the system is
   consistent.
   */
  method RepairAll(p: Plane, rounds: nat, ghost s: ControlPlane.State)
    returns (ghost cs: seq<ControlPlane.Cluster>, ghost ps: seq<Pass>, ghost es: seq<ControlPlane.Event>,
             ghost t: ControlPlane.State)
    requires p.Valid() && s.c == p.Abs() && s.heal == ControlPlane.Idle && s.c.crds * s.c.insts != {}
    modifies p
    ensures p.Valid() && Reaches(s, es, t) && t == s.(c := p.Abs()) && old(p.faults) <= p.faults
    ensures p.faults == old(p.faults) ==>
              && From(s.c, rounds, cs, ps, p.Abs())
              && (Mended(cs, ps) ==>
                    && Measure(p.Abs()) == Max(Measure(s.c) - rounds, 0)
                    && (Measure(s.c) < rounds ==> ControlPlane.Look(p.Abs()).Healthy()))
  {
    cs, ps, es, t := [s.c], [], [], s;
    ghost var calm := true;
    for k := 0 to rounds
      invariant p.Valid() && Reaches(s, es, t) && t == s.(c := p.Abs())
      invariant old(p.faults) <= p.faults && (calm <==> p.faults == old(p.faults))
      invariant calm ==> Onward(s.c, k, cs, ps, t.c)
    {
      ghost var fs, u;
      cs, ps, fs, u := NextPass(p, s.c, k, cs, ps, t);
      calm := p.faults == old(p.faults);
      ReachesConcat(s, es, t, fs, u);
      es, t := es + fs, u;
    }
    if calm && Mended(cs, ps) {
      MendedConverge(s.c, rounds, cs, ps, p.Abs());
    }
  }

  ghost predicate Onward(c: ControlPlane.Cluster, k: nat, cs: seq<ControlPlane.Cluster>, ps: seq<Pass>,
                         now: ControlPlane.Cluster) {
    From(c, k, cs, ps, now) && now.crds * now.insts != {}
  }

  method NextPass(p: Plane, ghost c: ControlPlane.Cluster, ghost k: nat, ghost cs: seq<ControlPlane.Cluster>,
                  ghost ps: seq<Pass>, ghost s: ControlPlane.State)
    returns (ghost more: seq<ControlPlane.Cluster>, ghost qs: seq<Pass>, ghost es: seq<ControlPlane.Event>,
             ghost t: ControlPlane.State)
    requires p.Valid() && s.c == p.Abs() && s.heal == ControlPlane.Idle
    modifies p
    ensures p.Valid() && Reaches(s, es, t) && t == s.(c := p.Abs()) && old(p.faults) <= p.faults
    ensures p.faults == old(p.faults) && Onward(c, k, cs, ps, s.c) ==> Onward(c, k + 1, more, qs, t.c)
  {
    ghost var pass, after;
    pass, after, es, t := OnePass(p, s);
    more, qs := cs + [after], ps + [pass];
    if p.faults == old(p.faults) && Onward(c, k, cs, ps, s.c) {
      RecordedNext(c, k, cs, ps, s.c, pass, after);
    }
  }

  // ----- Repeated scaling -------------------------------------------------------------

  /** With four equal lists, or after one batch from there, a pass has nothing to repair. */
  lemma NothingToMend(c: ControlPlane.Cluster, made: set<Id>, after: ControlPlane.Cluster, acts: seq<Action>)
    requires c.insts <= c.crds && c.insts <= c.nodes.Keys && forall n :: n in c.nodes ==> c.nodes[n]
    requires made <= ControlPlane.Look(c).MissedCrds() && Treated(ControlPlane.Look(c), Tidied(c, made), after, acts)
    ensures GoodRound(c, after)
  {
    assert ControlPlane.Look(c).Additions() == {} && ControlPlane.Look(c).Unready() == {};
    assert ControlPlane.Look(c).MissedCrds() == {};
    TreatedIsGood(c, made, after, acts);
  }

  lemma RoundDone(c: ControlPlane.Cluster, target: int, mid: ControlPlane.Cluster, made: set<Id>,
                  after: ControlPlane.Cluster, acts: seq<Action>)
    requires Aligned(c) && 1 <= target < |c.insts|
    requires var t := Scaling.Batch(|c.insts|, target).value; Carried(c, t, mid) && |mid.insts| == t
    requires made <= ControlPlane.Look(mid).MissedCrds()
    requires Treated(ControlPlane.Look(mid), Tidied(mid, made), after, acts)
    ensures ScaleStep(c, target, after)
  {
    var t := Scaling.Batch(|c.insts|, target).value;
    Scaling.BatchBound(|c.insts|, target);
    var victims := c.insts - mid.insts;
    assert c.insts - victims == mid.insts;
    SplitSize(c.insts, victims);
    assert c.insts * victims == victims;
    NothingToMend(mid, made, after, acts);
    assert Shrunk(c, victims, target, after);
  }

  lemma IdleRound(c: ControlPlane.Cluster, made: set<Id>, after: ControlPlane.Cluster, acts: seq<Action>)
    requires Aligned(c) && made <= ControlPlane.Look(c).MissedCrds()
    requires Treated(ControlPlane.Look(c), Tidied(c, made), after, acts)
    ensures after == c
  {
    NothingToMend(c, made, after, acts);
    assert ControlPlane.Look(c).Additions() == {} && ControlPlane.Look(c).Unready() == {};
    assert ControlPlane.MemDiff(c.members, c.insts) == {} by { assert c.members - c.insts == {}; }
    assert c.crds * c.insts + {} == c.crds && Keep(c.nodes, c.insts) == c.nodes;
    assert ControlPlane.Look(c).MissedCrds() == {};
  }

  /** The group did what it was told: it has the number of machines that the batch asked for. */
  predicate Obeyed(before: int, replicas: int, now: int) {
    now == if before == replicas then before else Scaling.Batch(before, replicas).value
  }

  /** What a reconciliation that meets no error makes of four equal lists, if the group obeys. */
  predicate Stepping(c: ControlPlane.Cluster, replicas: int, mid: ControlPlane.Cluster) {
    if |c.insts| == replicas then mid == c else Carried(c, Scaling.Batch(|c.insts|, replicas).value, mid)
  }

  /** An order that was given up leaves more machines than asked for. */
  lemma FailedStays(c: ControlPlane.Cluster, replicas: int, es: seq<ControlPlane.Event>, mid: ControlPlane.Cluster)
    requires 1 <= replicas < |c.insts| && exists r :: Stepped(r, es, replicas, |c.insts|, c, mid)
    requires Obeyed(|c.insts|, replicas, |mid.insts|)
    ensures Stepping(c, replicas, mid)
  {
    Scaling.BatchBound(|c.insts|, replicas);
  }

  method ScaleOnce(p: Plane, replicas: int, ghost s: ControlPlane.State)
    returns (ghost es: seq<ControlPlane.Event>, ghost t: ControlPlane.State)
    requires p.Valid() && s.c == p.Abs() && s.heal == ControlPlane.Idle && s.scaler == ControlPlane.Rest
    modifies p
    ensures p.Valid() && Reaches(s, es, t) && t == s.(c := p.Abs(), half := t.half, strayed := t.strayed)
    ensures old(p.faults) <= p.faults && |p.Abs().insts| == |p.instances|
    ensures Aligned(s.c) && 1 <= replicas <= |s.c.insts| && p.faults == old(p.faults) &&
            Obeyed(|s.c.insts|, replicas, |p.instances|) ==>
              Stepping(s.c, replicas, p.Abs())
  {
    ghost var was := |p.instances|;
    MachineCount(p);
    ghost var acts;
    es, t, acts := ReconcileOnce(p, replicas, s);
    MachineCount(p);
    if Aligned(s.c) && 1 <= replicas < was && p.faults == old(p.faults) && Obeyed(was, replicas, |p.instances|) {
      FailedStays(s.c, replicas, es, t.c);
    }
  }

  /**
   A reconciliation and the pass that follows it. From four equal lists, if no call fails and
   the group obeys, it is one round of a scale-in: a batch, after which the lists are equal
   again.
   */
  method ScaleRound(p: Plane, replicas: int, ghost s: ControlPlane.State)
    returns (now: int, ghost es: seq<ControlPlane.Event>, ghost t: ControlPlane.State)
    requires p.Valid() && s.c == p.Abs() && s.heal == ControlPlane.Idle && s.scaler == ControlPlane.Rest
    modifies p
    ensures p.Valid() && Reaches(s, es, t) && t == s.(c := p.Abs(), half := t.half, strayed := t.strayed)
    ensures old(p.faults) <= p.faults && now == |p.instances|
    ensures Aligned(s.c) && 1 <= replicas <= |old(p.instances)| && p.faults == old(p.faults) &&
            Obeyed(|old(p.instances)|, replicas, now) ==>
              ScaleStep(s.c, replicas, p.Abs())
  {
    ghost var was := |p.instances|;
    MachineCount(p);
    es, t := ScaleOnce(p, replicas, s);
    now := |p.instances|;
    ghost var mid := p.Abs();
    ghost var pass, after, fs, u;
    pass, after, fs, u := OnePass(p, t);
    ReachesConcat(s, es, t, fs, u);
    es, t := es + fs, u;
    if Aligned(s.c) && 1 <= replicas <= was && p.faults == old(p.faults) && Obeyed(was, replicas, now) {
      RoundIsStep(s.c, replicas, mid, pass, after);
    }
  }

  lemma RoundIsStep(c: ControlPlane.Cluster, replicas: int, mid: ControlPlane.Cluster, pass: Pass,
                    after: ControlPlane.Cluster)
    requires Aligned(c) && 1 <= replicas <= |c.insts| && Obeyed(|c.insts|, replicas, |mid.insts|)
    requires Stepping(c, replicas, mid)
    requires mid.crds != {} ==> Passed(mid, pass, after)
    ensures ScaleStep(c, replicas, after)
  {
    if |c.insts| != replicas {
      Scaling.BatchBound(|c.insts|, replicas);
    }
    assert mid.insts <= mid.crds && mid.insts != {};
    assert mid.crds * mid.insts == mid.insts;
    if |c.insts| == replicas {
      IdleRound(c, pass.made, after, pass.acts);
    } else {
      RoundDone(c, replicas, mid, pass.made, after, pass.acts);
    }
  }

  /** Round by round: the machines there were, and what became of the cluster. */
  ghost predicate InRounds(cs: seq<ControlPlane.Cluster>, sizes: seq<int>, replicas: int) {
    && |cs| == |sizes| && (forall i :: 0 <= i < |cs| ==> sizes[i] == |cs[i].insts|)
    && forall i :: 0 <= i < |cs| - 1 ==> Met(cs[i], replicas, cs[i + 1])
  }

  ghost predicate Met(c: ControlPlane.Cluster, replicas: int, after: ControlPlane.Cluster) {
    Aligned(c) && 1 <= replicas <= |c.insts| && Obeyed(|c.insts|, replicas, |after.insts|) ==>
      ScaleStep(c, replicas, after)
  }

  /** The group obeyed in every round. */
  predicate AllObeyed(sizes: seq<int>, replicas: int) {
    forall i :: 0 <= i < |sizes| - 1 ==> Obeyed(sizes[i], replicas, sizes[i + 1])
  }

  lemma {:induction false} RoundsAreSteps(cs: seq<ControlPlane.Cluster>, sizes: seq<int>, replicas: int, j: nat)
    requires InRounds(cs, sizes, replicas) && AllObeyed(sizes, replicas) && j < |sizes|
    requires Aligned(cs[0]) && 1 <= replicas <= |cs[0].insts|
    ensures Aligned(cs[j]) && replicas <= |cs[j].insts|
    ensures forall i :: 0 <= i < j ==> ScaleStep(cs[i], replicas, cs[i + 1])
    decreases j
  {
    if j > 0 {
      RoundsAreSteps(cs, sizes, replicas, j - 1);
      var c, after := cs[j - 1], cs[j];
      assert Met(cs[j - 1], replicas, cs[j - 1 + 1]) && Obeyed(sizes[j - 1], replicas, sizes[j - 1 + 1]);
      StepAligns(c, replicas, after);
      if |c.insts| > replicas {
        Scaling.BatchBound(|c.insts|, replicas);
      }
    }
  }

  /**
   Scale-in by the code itself. From four equal lists of n machines with n - 1 <= 2^k, if no
   call fails and the group obeys, k + 1 rounds end with exactly the machines asked for, and
   Masters, nodes and etcd members are those machines.
   */
  method ScaleInAll(p: Plane, replicas: int, k: nat, ghost s: ControlPlane.State)
    returns (sizes: seq<int>, ghost es: seq<ControlPlane.Event>, ghost t: ControlPlane.State)
    requires p.Valid() && s.c == p.Abs() && s.heal == ControlPlane.Idle && s.scaler == ControlPlane.Rest
    requires Aligned(s.c) && 1 <= replicas <= |p.instances| && |p.instances| - 1 <= Scaling.Pow2(k)
    modifies p
    ensures p.Valid() && Reaches(s, es, t) && t.c == p.Abs()
    ensures |sizes| == k + 2 && sizes[0] == |old(p.instances)| && sizes[k + 1] == |p.instances|
    ensures p.faults == old(p.faults) && AllObeyed(sizes, replicas) ==>
              |p.instances| == replicas && Aligned(p.Abs())
  {
    MachineCount(p);
    ghost var cs, calm := [s.c], true;
    sizes, es, t := [|p.instances|], [], s;
    for i := 0 to k + 1
      invariant p.Valid() && Reaches(s, es, t) && t == s.(c := p.Abs(), half := t.half, strayed := t.strayed)
      invariant old(p.faults) <= p.faults && (calm <==> p.faults == old(p.faults))
      invariant |sizes| == |cs| == i + 1 && cs[0] == s.c && sizes[0] == |old(p.instances)|
      invariant cs[i] == p.Abs() && sizes[i] == |p.instances|
      invariant calm ==> InRounds(cs, sizes, replicas)
    {
      var now;
      ghost var fs, u;
      now, fs, u := MeetRound(p, replicas, t);
      ReachesConcat(s, es, t, fs, u);
      calm := p.faults == old(p.faults);
      if calm {
        InRoundsNext(cs, sizes, replicas, p.Abs());
      }
      sizes, cs, es, t := sizes + [now], cs + [p.Abs()], es + fs, u;
    }
    if calm && AllObeyed(sizes, replicas) {
      RoundsAreSteps(cs, sizes, replicas, k + 1);
      ScaleInCompletes(cs, replicas, k);
      MachineCount(p);
    }
  }

  /** One of these rounds. */
  method MeetRound(p: Plane, replicas: int, ghost s: ControlPlane.State)
    returns (now: int, ghost es: seq<ControlPlane.Event>, ghost t: ControlPlane.State)
    requires p.Valid() && s.c == p.Abs() && s.heal == ControlPlane.Idle && s.scaler == ControlPlane.Rest
    modifies p
    ensures p.Valid() && Reaches(s, es, t) && t == s.(c := p.Abs(), half := t.half, strayed := t.strayed)
    ensures old(p.faults) <= p.faults && now == |p.instances| == |p.Abs().insts|
    ensures p.faults == old(p.faults) ==> Met(s.c, replicas, p.Abs())
  {
    MachineCount(p);
    now, es, t := ScaleRound(p, replicas, s);
    MachineCount(p);
  }

  lemma InRoundsNext(cs: seq<ControlPlane.Cluster>, sizes: seq<int>, replicas: int, after: ControlPlane.Cluster)
    requires cs != [] && InRounds(cs, sizes, replicas) && Met(cs[|cs| - 1], replicas, after)
    ensures InRounds(cs + [after], sizes + [|after.insts|], replicas)
  {
  }
}

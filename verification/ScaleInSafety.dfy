/** What every run of healer and scaler keeps, however their steps interleave and fail. */
module ScaleInSafety {
  import opened Basics
  import opened ControlPlane
  import opened PassRun
  import Scaling

  /** A healthy control plane whose etcd members are its machines. */
  predicate Init(s: State) {
    && s.c.insts != {} && s.c.insts == s.c.crds == s.c.nodes.Keys == s.c.members
    && (forall n :: n in s.c.nodes ==> s.c.nodes[n])
    && s.heal == Idle && s.scaler == Rest && !s.half && !s.strayed
  }

  /** A step of a scale-in: no machine is added, and never fewer than one is asked for. */
  predicate Shrinking(e: Event) {
    && !e.ScaleOut?
    && (e.ScaleGroup? || e.RemoveFollower? ==> e.target >= 1)
  }

  /** Every machine and every stale member still has its node. */
  predicate NodesCover(c: Cluster) {
    c.insts <= c.nodes.Keys && c.members <= c.nodes.Keys
  }

  predicate HealOk(c: Cluster, h: Heal) {
    match h
    case Idle => true
    case SawCrds(_) => true
    case SawNodes(_, nodes) => c.nodes.Keys <= nodes.Keys
    case Listing(v) => ViewOk(c, v)
    case Repairing(v) => ViewOk(c, v)
    case Working(phase, v, todo) =>
      && ViewOk(c, v)
      && (phase.Rebuilding? || todo !! v.insts)
      && (phase.Removing? ==> c.members - v.insts <= todo)
      && (phase.Deleting? ==> c.members <= v.insts)
  }

  /** A snapshot may be old, but machines only ever leave. */
  predicate ViewOk(c: Cluster, v: View) {
    c.insts <= v.insts && v.insts <= v.nodes.Keys
  }

  predicate ScalerOk(s: State) {
    match s.scaler
    case Rest => Paired(s)
    case ScannedCrds(_) => Paired(s)
    case ScannedNodes(_, nodes) => Paired(s) && s.c.nodes.Keys <= nodes.Keys
    case Cleared => Paired(s) && s.c.members <= s.c.insts
    case Handover(f) => !s.half && f !in s.c.members && |s.c.members| == 1 && s.c.insts == s.c.members + {f}
  }

  /** Every machine is a member, unless a handover stopped half-way. */
  predicate Paired(s: State) {
    if s.half then |s.c.insts| == 2 && |s.c.members| == 1 && s.c.members <= s.c.insts
    else s.c.insts <= s.c.members
  }

  predicate Inv(s: State) {
    && Majority(s.c) && NodesCover(s.c) && HealOk(s.c, s.heal) && ScalerOk(s)
  }

  predicate ByScaler(e: Event) {
    || e.ScanCrds? || e.ScanNodes? || e.ScanInsts? || e.ScaleGroup? || e.ScaleOut?
    || e.RemoveFollower? || e.RemoveMachine? || e.ScaleStop?
  }

  lemma InitOk(s: State)
    requires Init(s)
    ensures Inv(s)
  {
    assert s.c.members * s.c.insts == s.c.members;
  }

  /** Losing a stale member never hurts the majority. */
  lemma DropStale(c: Cluster, d: Id)
    requires Majority(c) && d !in c.insts
    ensures Majority(c.(members := c.members - {d}))
  {
    assert (c.members - {d}) * c.insts == c.members * c.insts;
    SubsetSize(c.members - {d}, c.members);
  }

  /** The guard of `EtcdMemDiff` cannot refuse: an old snapshot only knows more machines. */
  lemma GuardAccepts(c: Cluster, v: View)
    requires Majority(c) && ViewOk(c, v)
    ensures 2 * |c.members - v.insts| < |c.members|
    ensures MemDiff(c.members, v.insts) == c.members - v.insts
  {
    SplitSize(c.members, c.insts);
    SubsetSize(c.members - v.insts, c.members - c.insts);
  }

  lemma HealKeeps(s: State, e: Event)
    requires Inv(s) && Enabled(s, e) && !ByScaler(e) && !e.Repair?
    requires e.Call? ==> !s.heal.phase.Removing?
    ensures Inv(Next(s, e))
  {
    if e.ListMembers? {
      GuardAccepts(s.c, s.heal.v);
    } else if e.Finish? && s.heal.phase.Removing? {
      assert forall m :: m in s.c.members ==> m in s.heal.v.insts || m in s.c.members - s.heal.v.insts;
    }
  }

  lemma RemoveKeeps(s: State, e: Event)
    requires Inv(s) && Enabled(s, e) && e.Call? && s.heal.phase.Removing?
    ensures Inv(Next(s, e))
  {
    if e.reply.Applied() {
      DropStale(s.c, e.d);
      if s.half || s.scaler.Handover? {
        assert e.d !in s.c.members;
        assert s.c.members - {e.d} == s.c.members;
      }
    }
  }

  lemma RepairKeeps(s: State, e: Event)
    requires Inv(s) && Enabled(s, e) && e.Repair?
    ensures Inv(Next(s, e))
    ensures e.after.members == s.c.members
  {
    assert s.heal.v.Additions() == {};
  }

  lemma ScaleGroupKeeps(s: State, e: Event)
    requires Inv(s) && Enabled(s, e) && e.ScaleGroup? && Shrinking(e)
    ensures Inv(Next(s, e))
  {
    var n := |s.c.insts|;
    Scaling.BatchBound(n, e.target);
    var t := Scaling.Batch(n, e.target).value;
    var left := s.c.insts - e.victims;
    assert n == |left| + |e.victims| by { assert s.c.insts == left + e.victims; }
    assert s.c.members == s.c.insts;
    assert s.c.members * left == left;
  }

  /** The handover starts only from two machines that are both members. */
  lemma TwoOfTwo(s: State, e: Event)
    requires Inv(s) && Enabled(s, e) && e.RemoveFollower? && Shrinking(e)
    ensures !s.half && s.c.members == s.c.insts == s.c.crds && |s.c.members| == 2 && e.d in s.c.members
  {
    SubsetSize(s.c.crds, s.c.members);
    SubsetSize(s.c.members, s.c.insts);
    Scaling.OneOnlyFromTwo(|s.c.insts|, e.target);
    SubsetSize(s.c.crds, s.c.insts);
  }

  lemma FollowerKeeps(s: State, e: Event)
    requires Inv(s) && Enabled(s, e) && e.RemoveFollower? && Shrinking(e)
    ensures Inv(Next(s, e))
  {
    TwoOfTwo(s, e);
    var members := Drop(s.c.members, e.d, e.reply);
    assert members * s.c.insts == members;
  }

  lemma MachineKeeps(s: State, e: Event)
    requires Inv(s) && Enabled(s, e) && e.RemoveMachine?
    ensures Inv(Next(s, e))
  {
    var insts := Drop(s.c.insts, s.scaler.follower, e.reply);
    assert s.c.members * insts == s.c.members;
  }

  /** One step, any step. */
  lemma StepKeeps(s: State, e: Event)
    requires Inv(s) && Enabled(s, e) && Shrinking(e)
    ensures Inv(Next(s, e))
  {
    if e.Call? && s.heal.phase.Removing? {
      RemoveKeeps(s, e);
    } else if e.Repair? {
      RepairKeeps(s, e);
    } else if e.ScaleGroup? {
      ScaleGroupKeeps(s, e);
    } else if e.RemoveFollower? {
      FollowerKeeps(s, e);
    } else if e.RemoveMachine? {
      MachineKeeps(s, e);
    } else if e.ScanInsts? {
      assert Paired(s) && s.c.members <= s.scaler.nodes.Keys == s.c.insts;
    } else if !ByScaler(e) {
      HealKeeps(s, e);
    }
  }

  lemma {:induction false} RunKeeps(s: State, es: seq<Event>)
    requires Inv(s) && Possible(s, es) && forall e :: e in es ==> Shrinking(e)
    ensures Inv(Exec(s, es))
    decreases es
  {
    if es != [] {
      StepKeeps(s, es[0]);
      RunKeeps(Next(s, es[0]), es[1..]);
    }
  }

  /** A run that has not strayed was a scale-in. */
  lemma {:induction false} NotStrayed(s: State, es: seq<Event>)
    requires Possible(s, es) && !Exec(s, es).strayed
    ensures !s.strayed && forall e :: e in es ==> Shrinking(e)
    decreases es
  {
    if es != [] {
      NotStrayed(Next(s, es[0]), es[1..]);
    }
  }

  /**
   Whole-run safety. After any scale-in run from a healthy start, a strict majority of the
   etcd members has a live machine; the healer's guard lets the cleanup through; and
   whenever the scaler has found the cluster healthy, the members are exactly the
   machines, if and only if no handover stopped between its two removals.
   */
  lemma ScaleInIsSafe(s: State, es: seq<Event>)
    requires Init(s) && Possible(s, es) && forall e :: e in es ==> Shrinking(e)
    ensures var t := Exec(s, es);
            && 2 * |t.c.members * t.c.insts| > |t.c.members|
            && (t.heal.Listing? ==> MemDiff(t.c.members, t.heal.v.insts) == t.c.members - t.heal.v.insts)
            && (t.scaler.Cleared? ==> t.c.members <= t.c.insts)
            && (t.scaler.Cleared? ==> (t.c.members == t.c.insts <==> !t.half))
  {
    InitOk(s);
    RunKeeps(s, es);
    var t := Exec(s, es);
    if t.heal.Listing? {
      GuardAccepts(t.c, t.heal.v);
    }
  }

  /**
   A healthy look alone does not mean that the members are the machines. Outside a handover
   they are exactly when there are as many of the one as of the other, which a caller can
   count; with any number of machines but two the count is not even needed.
   */
  lemma HealthyMeansMembersMatch(s: State, es: seq<Event>)
    requires Init(s) && Possible(s, es) && forall e :: e in es ==> Shrinking(e)
    requires Look(Exec(s, es).c).Healthy() && !Exec(s, es).scaler.Handover?
    ensures var t := Exec(s, es);
            && (t.c.members == t.c.insts <==> |t.c.members| == |t.c.insts|)
            && (t.c.members == t.c.insts <==> !t.half)
            && (|t.c.insts| != 2 ==> t.c.members == t.c.insts)
  {
    InitOk(s);
    RunKeeps(s, es);
  }

  lemma NoHandover(s: State, e: Event)
    requires Inv(s) && Enabled(s, e) && Shrinking(e) && (e.RemoveFollower? ==> e.target >= 2)
    ensures !e.RemoveFollower?
  {
    if e.RemoveFollower? {
      TwoOfTwo(s, e);
    }
  }

  /** A scale-in that never asks for fewer than two makes no handover, so none stops half-way. */
  lemma {:induction false} TwoOrMoreNeverHalf(s: State, es: seq<Event>)
    requires Inv(s) && !s.half && !s.scaler.Handover? && Possible(s, es)
    requires forall e :: e in es ==> Shrinking(e) && (e.ScaleGroup? || e.RemoveFollower? ==> e.target >= 2)
    ensures !Exec(s, es).half && !Exec(s, es).scaler.Handover?
    decreases es
  {
    if es != [] {
      StepKeeps(s, es[0]);
      NoHandover(s, es[0]);
      TwoOrMoreNeverHalf(Next(s, es[0]), es[1..]);
    }
  }

  /** So for such targets a healthy look does mean that the members are the machines. */
  lemma HealthyIsEnoughAboveOne(s: State, es: seq<Event>)
    requires Init(s) && Possible(s, es)
    requires forall e :: e in es ==> Shrinking(e) && (e.ScaleGroup? || e.RemoveFollower? ==> e.target >= 2)
    requires Look(Exec(s, es).c).Healthy()
    ensures Exec(s, es).c.members == Exec(s, es).c.insts
  {
    InitOk(s);
    TwoOrMoreNeverHalf(s, es);
    HealthyMeansMembersMatch(s, es);
  }

  /** Two machines of which only a is a member. */
  function Lone(): Cluster {
    Cluster({"a", "b"}, {"a", "b"}, map["a" := true, "b" := true], {"a"})
  }

  /**
   The exception is real: two machines, the follower leaves etcd, removing its machine
   fails. The control plane looks healthy, and one of its machines is not a member.
   */
  lemma HalfHandover() returns (s: State, es: seq<Event>)
    ensures Init(s) && Possible(s, es)
    ensures Look(Exec(s, es).c).Healthy() && Exec(s, es).scaler == Rest
    ensures Exec(s, es).c.members != Exec(s, es).c.insts
    ensures Exec(s, es) == State(Lone(), Idle, Rest, true, false)
  {
    var two, nodes := {"a", "b"}, map["a" := true, "b" := true];
    s := State(Cluster(two, two, nodes, two), Idle, Rest, false, false);
    assert nodes.Keys == two && "a" != "b" && |two| == 2;
    ClearedRun(s);
    var t := s.(scaler := Cleared);
    assert Enabled(t, RemoveFollower(1, "b", Done)) by { Scaling.BatchBound(2, 1); }
    ReachesStep(s, [ScanCrds, ScanNodes, ScanInsts], t, RemoveFollower(1, "b", Done));
    var u := Next(t, RemoveFollower(1, "b", Done));
    ReachesStep(s, [ScanCrds, ScanNodes, ScanInsts] + [RemoveFollower(1, "b", Done)], u, RemoveMachine(Refused));
    es := [ScanCrds, ScanNodes, ScanInsts] + [RemoveFollower(1, "b", Done)] + [RemoveMachine(Refused)];
    assert "b" !in u.c.members && "b" in u.c.insts;
  }

  /** The scaler's three reads of a healthy cluster, nothing coming between. */
  lemma ClearedRun(s: State)
    requires s.scaler == Rest && Look(s.c).Healthy()
    ensures Reaches(s, [ScanCrds, ScanNodes, ScanInsts], s.(scaler := Cleared))
  {
    assert Reaches(s, [], s);
    ReachesStep(s, [], s, ScanCrds);
    var s1 := Next(s, ScanCrds);
    assert [] + [ScanCrds] == [ScanCrds];
    ReachesStep(s, [ScanCrds], s1, ScanNodes);
    var s2 := Next(s1, ScanNodes);
    assert [ScanCrds] + [ScanNodes] == [ScanCrds, ScanNodes];
    ReachesStep(s, [ScanCrds, ScanNodes], s2, ScanInsts);
    assert [ScanCrds, ScanNodes] + [ScanInsts] == [ScanCrds, ScanNodes, ScanInsts];
  }
}

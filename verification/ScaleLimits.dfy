/**
 The limits of whole-run safety: what shrinking to nothing and growing again cost, and
 exactly when the majority holds nevertheless.
 */
module ScaleLimits {
  import opened Basics
  import opened ControlPlane
  import opened PassRun
  import opened Passes
  import opened ScaleInSafety
  import HealerSafety
  import Scaling

  /** One scaling step of a healthy cluster, nothing coming between. */
  lemma ScaleRun(s: State, e: Event) returns (es: seq<Event>)
    requires s.scaler == Rest && Look(s.c).Healthy() && Enabled(s.(scaler := Cleared), e)
    ensures Reaches(s, es, Next(s.(scaler := Cleared), e))
    ensures forall x :: x in es ==> x == e || x.ScanCrds? || x.ScanNodes? || x.ScanInsts?
  {
    ClearedRun(s);
    ReachesStep(s, [ScanCrds, ScanNodes, ScanInsts], s.(scaler := Cleared), e);
    es := [ScanCrds, ScanNodes, ScanInsts] + [e];
  }

  /** Machines a and b after the half handover, and a newcomer c that has joined. */
  function Joined(): Cluster {
    Cluster({"a", "b", "c"}, {"a", "b", "c"}, map["a" := true, "b" := true, "c" := true], {"a", "c"})
  }

  lemma NewcomerJoins(c: Cluster)
    requires c == Lone().(insts := {"a", "b", "c"})
    ensures PassDone(c, {}, Joined())
  {
    assert MemDiff(c.members, c.insts) == {} by { assert c.members - c.insts == {}; }
    assert Tidied(c, {}) == c by {
      assert c.crds * c.insts == c.crds && Keep(c.nodes, c.insts) == c.nodes;
    }
    assert Joined().crds == c.crds + {"c"} && Joined().nodes == c.nodes["c" := true];
    assert Joined().members - {"c"} == c.members - {"c"};
    assert "c" in Look(c).Additions() && Rejoined("c", Tidied(c, {}), Joined());
  }

  lemma Three()
    ensures |Joined().insts| == 3 && Look(Joined()).Healthy()
    ensures Scaling.Batch(3, 2) == Some(2)
  {
    assert Joined().nodes.Keys == Joined().insts;
  }

  lemma LostToo(c: Cluster)
    requires c == Joined().(insts := {"b", "c"})
    ensures !Majority(c)
  {
    assert c.members * c.insts == {"c"} && |c.members| == 2;
  }

  /** Only growth takes such a run out of a scale-in. */
  ghost predicate AsksAtLeastOne(es: seq<Event>) {
    forall e :: e in es ==> e.ScaleOut? || Shrinking(e)
  }

  /**
   Growing again: after a handover that stopped half-way a third machine is added and joins;
   the cluster looks healthy with two members of three machines, and the next batch, from
   three to two, takes one of the two.
   */
  lemma GrowthLosesMajority() returns (s: State, es: seq<Event>)
    ensures Init(s) && Possible(s, es) && AsksAtLeastOne(es) && !Majority(Exec(s, es).c)
  {
    s, es := HalfHandover();
    var t := Exec(s, es);
    NotStrayed(s, es);
    var fs, u := GrowJoinShrink(t);
    ReachesConcat(s, es, t, fs, u);
    es := es + fs;
  }

  lemma GrowJoinShrink(t: State) returns (es: seq<Event>, w: State)
    requires t.scaler == Rest && t.heal == Idle && t.c == Lone()
    ensures Reaches(t, es, w) && AsksAtLeastOne(es) && !Majority(w.c)
  {
    es := GrownRun(t);
    var u := t.(c := t.c.(insts := {"a", "b", "c"}), strayed := true);
    NewcomerJoins(u.c);
    var pass := HealerSafety.PassIsRun(u, {}, Joined());
    var v := u.(c := Joined());
    ReachesConcat(t, es, u, pass, v);
    var cut := CutRun(v);
    w := v.(c := v.c.(insts := {"b", "c"}));
    ReachesConcat(t, es + pass, v, cut, w);
    LostToo(w.c);
    es := es + pass + cut;
  }

  lemma GrownRun(t: State) returns (es: seq<Event>)
    requires t.scaler == Rest && t.c == Lone()
    ensures Reaches(t, es, t.(c := t.c.(insts := {"a", "b", "c"}), strayed := true)) && AsksAtLeastOne(es)
  {
    TwoToThree(t.c);
    es := ScaleRun(t, ScaleOut(3, {"c"}));
  }

  lemma TwoToThree(c: Cluster)
    requires c == Lone()
    ensures Look(c).Healthy() && Named(c) == {"a", "b"} && |c.insts| == 2 && c.insts + {"c"} == {"a", "b", "c"}
  {
    assert c.nodes.Keys == {"a", "b"};
  }

  lemma CutRun(t: State) returns (es: seq<Event>)
    requires t.scaler == Rest && t.c == Joined()
    ensures Reaches(t, es, t.(c := t.c.(insts := {"b", "c"}))) && AsksAtLeastOne(es)
  {
    Three();
    assert {"a", "b", "c"} - {"a"} == {"b", "c"};
    es := ScaleRun(t, ScaleGroup(2, {"a"}));
  }

  /** Shrinking to nothing: the last machine goes, its member stays. */
  lemma ZeroLosesMajority() returns (s: State, es: seq<Event>)
    ensures Init(s) && Possible(s, es) && !Majority(Exec(s, es).c)
  {
    s := State(Cluster({"a"}, {"a"}, map["a" := true], {"a"}), Idle, Rest, false, false);
    assert s.c.nodes.Keys == {"a"};
    assert {"a"} - {"a"} == {} && s.c.members * {} == {};
    es := ScaleRun(s, ScaleGroup(0, {"a"}));
  }

  // ----- Any targets, no growth ------------------------------------------------------

  /** The target in its event, which only the `strayed` mark of the next state depends on, set to one. */
  function AskOne(e: Event): Event
    requires e.ScaleGroup? || e.RemoveFollower?
  {
    if e.ScaleGroup? then ScaleGroup(1, e.victims) else RemoveFollower(1, e.d, e.reply)
  }

  lemma AsOne(s: State, e: Event)
    requires Inv(s) && Enabled(s, e) && !Shrinking(e) && !e.ScaleOut? && |s.c.insts| >= 2
    ensures Enabled(s, AskOne(e)) && Next(s, e) == Next(s, AskOne(e)).(strayed := true)
  {
    Scaling.BatchAsOne(|s.c.insts|, e.target);
  }

  lemma LastGoes(s: State, e: Event)
    requires Inv(s) && Enabled(s, e) && !Shrinking(e) && !e.ScaleOut? && |s.c.insts| == 1
    ensures Next(s, e).c.insts == {} || Inv(Next(s, e))
  {
    Scaling.OneOnlyFromTwo(1, e.target);
    SubsetSize(e.victims, s.c.insts);
    if |e.victims| == 0 {
      assert s.c.insts - e.victims == s.c.insts;
    } else {
      assert e.victims == s.c.insts;
    }
  }

  lemma StepKeepsOrEmpties(s: State, e: Event)
    requires (Inv(s) || s.c.insts == {}) && Enabled(s, e) && !e.ScaleOut?
    ensures Inv(Next(s, e)) || Next(s, e).c.insts == {}
  {
    if s.c.insts == {} {
      EmptyStays(s, e);
    } else if Shrinking(e) {
      StepKeeps(s, e);
    } else if |s.c.insts| >= 2 {
      AsOne(s, e);
      StepKeeps(s, AskOne(e));
    } else {
      assert |s.c.insts| == 1;
      LastGoes(s, e);
    }
  }

  lemma EmptyStays(s: State, e: Event)
    requires s.c.insts == {} && Enabled(s, e) && !e.ScaleOut?
    ensures Next(s, e).c.insts == {}
  {
  }

  lemma {:induction false} RunKeepsOrEmpties(s: State, es: seq<Event>)
    requires (Inv(s) || s.c.insts == {}) && Possible(s, es) && forall e :: e in es ==> !e.ScaleOut?
    ensures Inv(Exec(s, es)) || Exec(s, es).c.insts == {}
    decreases es
  {
    if es != [] {
      StepKeepsOrEmpties(s, es[0]);
      RunKeepsOrEmpties(Next(s, es[0]), es[1..]);
    }
  }

  /**
   Without growth, and whatever numbers are asked for, zero and less included: the majority
   holds exactly as long as there is a machine.
   */
  lemma MajorityIffMachines(s: State, es: seq<Event>)
    requires Init(s) && Possible(s, es) && forall e :: e in es ==> !e.ScaleOut?
    ensures Majority(Exec(s, es).c) <==> Exec(s, es).c.insts != {}
  {
    InitOk(s);
    RunKeepsOrEmpties(s, es);
    var c := Exec(s, es).c;
    assert c.insts == {} ==> c.members * c.insts == {};
  }

  // ----- One batch, grown or not ------------------------------------------------------

  /**
   If every member has a machine, a batch of up to k machines keeps the majority, whichever
   they are, if and only if they are fewer than half of the members.
   */
  lemma BatchSafeIff(c: Cluster, k: nat)
    requires c.members <= c.insts && c.members != {} && k <= |c.insts|
    ensures (forall victims :: victims <= c.insts && |victims| <= k ==> Majority(c.(insts := c.insts - victims))) <==>
            2 * k < |c.members|
  {
    if 2 * k < |c.members| {
      forall victims | victims <= c.insts && |victims| <= k
        ensures Majority(c.(insts := c.insts - victims))
      {
        CountedBatch(c, victims);
      }
    } else {
      var victims := SubsetOfSize(c.members, if k <= |c.members| then k else |c.members|);
      var left := c.insts - victims;
      assert c.members * left == c.members - victims;
      SplitSize(c.members, victims);
      assert c.members * victims == victims;
      assert victims <= c.insts && |victims| <= k && !Majority(c.(insts := c.insts - victims));
    }
  }

  lemma CountedBatch(c: Cluster, victims: set<Id>)
    requires c.members <= c.insts && 2 * |victims| < |c.members|
    ensures Majority(c.(insts := c.insts - victims))
  {
    assert c.members * (c.insts - victims) == c.members - victims;
    SplitSize(c.members, victims);
    SubsetSize(c.members * victims, victims);
  }

  // ----- Runs that grow, with that count made before every batch ------------------------

  /** The scaler acts while no pass is under way, and counts the members before a machine goes. */
  predicate Guarded(s: State, e: Event) {
    && (ByScaler(e) ==> s.heal == Idle)
    && (e.ScaleGroup? ==> s.c.members <= s.c.insts && 2 * |e.victims| < |s.c.members|)
    && (e.RemoveFollower? ==> s.c.members <= s.c.insts)
    && (e.RemoveMachine? ==> s.scaler.Handover? && s.scaler.follower !in s.c.members)
  }

  predicate GuardedRun(s: State, es: seq<Event>)
    requires Possible(s, es)
    decreases es
  {
    es == [] || (Guarded(s, es[0]) && GuardedRun(Next(s, es[0]), es[1..]))
  }

  lemma GuardedFollower(s: State, e: Event)
    requires HealerSafety.Holds(s) && Enabled(s, e) && Guarded(s, e) && e.RemoveFollower?
    ensures HealerSafety.Holds(Next(s, e))
  {
    var c := Next(s, e).c;
    assert c.members * c.insts == c.members;
  }

  lemma GuardedMachine(s: State, e: Event)
    requires HealerSafety.Holds(s) && Enabled(s, e) && Guarded(s, e) && e.RemoveMachine?
    ensures HealerSafety.Holds(Next(s, e))
  {
    var c := Next(s, e).c;
    assert c.members * c.insts == s.c.members * s.c.insts;
  }

  lemma GuardedGrowth(s: State, e: Event)
    requires HealerSafety.Holds(s) && Enabled(s, e) && Guarded(s, e) && e.ScaleOut?
    ensures HealerSafety.Holds(Next(s, e))
  {
    var c := Next(s, e).c;
    assert c.members * c.insts == s.c.members * s.c.insts;
  }

  lemma GuardedStep(s: State, e: Event)
    requires HealerSafety.Holds(s) && Enabled(s, e) && Guarded(s, e)
    ensures HealerSafety.Holds(Next(s, e))
  {
    if !ByScaler(e) {
      HealerSafety.StepHolds(s, e);
    } else if e.ScaleGroup? {
      CountedBatch(s.c, e.victims);
    } else if e.ScaleOut? {
      GuardedGrowth(s, e);
    } else if e.RemoveFollower? {
      GuardedFollower(s, e);
    } else if e.RemoveMachine? {
      GuardedMachine(s, e);
    }
  }

  lemma {:induction false} GuardedRunHolds(s: State, es: seq<Event>)
    requires HealerSafety.Holds(s) && Possible(s, es) && GuardedRun(s, es)
    ensures HealerSafety.Holds(Exec(s, es))
    decreases es
  {
    if es != [] {
      GuardedStep(s, es[0]);
      GuardedRunHolds(Next(s, es[0]), es[1..]);
    }
  }

  /**
   All runs, growth and any targets included, from any start with a live majority: if the
   scaler acts only between passes and makes the count before machines go, the majority
   holds exactly as long as there is a member.
   */
  lemma GuardedRunsKeepMajority(s: State, es: seq<Event>)
    requires HealerSafety.Start(s) && Possible(s, es) && GuardedRun(s, es)
    ensures Majority(Exec(s, es).c) <==> Exec(s, es).c.members != {}
  {
    GuardedRunHolds(s, es);
    var c := Exec(s, es).c;
    assert c.members == {} ==> c.members * c.insts == {};
  }

  // ----- Growth alone --------------------------------------------------------------------

  /** Two machines, all well. */
  function Pair(): Cluster {
    Lone().(members := {"a", "b"})
  }

  /** The newcomer c has a node and a Master, and is not a member. */
  function HalfJoined(): Cluster {
    Joined().(members := {"a", "b"})
  }

  lemma NewcomerStaysOut(c: Cluster)
    requires c == Pair().(insts := {"a", "b", "c"})
    ensures PassDone(c, {}, HalfJoined())
  {
    assert MemDiff(c.members, c.insts) == {} by { assert c.members - c.insts == {}; }
    assert Tidied(c, {}) == c by {
      assert c.crds * c.insts == c.crds && Keep(c.nodes, c.insts) == c.nodes;
    }
    assert HalfJoined().crds == c.crds + {"c"} && HalfJoined().nodes == c.nodes["c" := true];
    assert "c" in Look(c).Additions() && Rejoined("c", Tidied(c, {}), HalfJoined());
  }

  /**
   No half handover is needed: a newcomer that gets its node and its Master without becoming
   a member leaves two members of three machines, and the next batch takes one of the two.
   */
  lemma GrowthAloneLosesMajority() returns (s: State, es: seq<Event>)
    ensures Init(s) && Possible(s, es) && AsksAtLeastOne(es) && !Majority(Exec(s, es).c) && !Exec(s, es).half
  {
    s := State(Pair(), Idle, Rest, false, false);
    PairIsWell();
    es := PairGrows(s);
    var u := s.(c := Pair().(insts := {"a", "b", "c"}), strayed := true);
    NewcomerStaysOut(u.c);
    var pass := HealerSafety.PassIsRun(u, {}, HalfJoined());
    var v := u.(c := HalfJoined());
    ReachesConcat(s, es, u, pass, v);
    var cut := PairCut(v);
    var w := v.(c := v.c.(insts := {"b", "c"}));
    ReachesConcat(s, es + pass, v, cut, w);
    assert w.c.members * w.c.insts == {"b"} && |w.c.members| == 2;
    es := es + pass + cut;
  }

  lemma PairIsWell()
    ensures var c := Pair();
            && Look(c).Healthy() && c.insts == c.nodes.Keys == {"a", "b"} && Named(c) == {"a", "b"}
            && |c.insts| == 2 && c.insts + {"c"} == {"a", "b", "c"}
  {
    assert Pair().nodes.Keys == {"a", "b"};
  }

  lemma PairGrows(t: State) returns (es: seq<Event>)
    requires t.scaler == Rest && t.c == Pair()
    ensures Reaches(t, es, t.(c := t.c.(insts := {"a", "b", "c"}), strayed := true)) && AsksAtLeastOne(es)
  {
    PairIsWell();
    es := ScaleRun(t, ScaleOut(3, {"c"}));
  }

  lemma PairCut(t: State) returns (es: seq<Event>)
    requires t.scaler == Rest && t.c == HalfJoined()
    ensures Reaches(t, es, t.(c := t.c.(insts := {"b", "c"}))) && AsksAtLeastOne(es)
  {
    Three();
    assert {"a", "b", "c"} - {"a"} == {"b", "c"};
    es := ScaleRun(t, ScaleGroup(2, {"a"}));
  }
}

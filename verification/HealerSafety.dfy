/**
 Repair passes on a fixed set of machines, from any start with a live majority: machines may
 lack nodes, so a pass may reset one and take its member out of etcd.
 */
module HealerSafety {
  import opened Basics
  import opened ControlPlane
  import opened PassRun
  import opened Passes
  import opened ScaleInSafety

  /** No machine comes or goes: the scaler takes no step. */
  ghost predicate Fixed(es: seq<Event>) {
    forall e :: e in es ==> !ByScaler(e)
  }

  predicate Start(s: State) {
    Majority(s.c) && s.heal == Idle
  }

  /** A live member whose machine has a node. */
  predicate Anchor(c: Cluster, m: Id) {
    m in c.insts && m in c.members && m in c.nodes
  }

  // ----- What every step keeps ---------------------------------------------------

  predicate ViewFits(c: Cluster, h: Heal) {
    match h
    case Listing(v) => v.insts == c.insts
    case Repairing(v) => v.insts == c.insts && c.members <= c.insts
    case Working(phase, v, todo) =>
      && v.insts == c.insts
      && (phase.Rebuilding? || todo !! c.insts)
      && (phase.Removing? ==> c.members - c.insts <= todo)
      && (phase.Deleting? ==> c.members <= c.insts)
    case _ => true
  }

  /** What keeps the anchor from being reset: it has been seen with its node. */
  predicate Seen(h: Heal, m: Id) {
    match h
    case SawNodes(_, nodes) => m in nodes
    case Listing(v) => m in v.nodes
    case Repairing(v) => m in v.nodes
    case Working(_, v, _) => m in v.nodes
    case _ => true
  }

  predicate Holds(s: State) {
    (Majority(s.c) || s.c.members == {}) && ViewFits(s.c, s.heal)
  }

  lemma RemovalHolds(s: State, e: Event)
    requires Holds(s) && Enabled(s, e) && e.Call? && s.heal.phase.Removing?
    ensures Holds(Next(s, e))
  {
    if e.reply.Applied() {
      if Majority(s.c) {
        DropStale(s.c, e.d);
      } else {
        assert s.c.members - {e.d} == {};
      }
    }
  }

  lemma RepairHolds(s: State, e: Event)
    requires Holds(s) && Enabled(s, e) && e.Repair?
    ensures Holds(Next(s, e)) && Next(s, e).c.insts == s.c.insts
  {
    var v := s.heal.v;
    RepairStaysInside(v, s.c, e.after);
    assert e.after.members * e.after.insts == e.after.members;
  }

  lemma RepairStaysInside(v: View, c: Cluster, after: Cluster)
    requires Repaired(v, c, after) && v.insts == c.insts && c.members <= c.insts
    ensures after.insts == c.insts && after.members <= after.insts
  {
    if exists i :: i in v.Additions() && Rejoined(i, c, after) {
      var i :| i in v.Additions() && Rejoined(i, c, after);
      forall m | m in after.members
        ensures m in after.insts
      {
        if m != i {
          assert m in after.members - {i};
        }
      }
    }
  }

  lemma ListingHolds(s: State, e: Event)
    requires Holds(s) && Enabled(s, e) && e.ListMembers?
    ensures Holds(Next(s, e))
  {
    if Majority(s.c) {
      GuardAccepts(s.c, View({}, map i | i in s.c.insts :: true, s.c.insts));
    }
  }

  lemma StepHolds(s: State, e: Event)
    requires Holds(s) && Enabled(s, e) && !ByScaler(e)
    ensures Holds(Next(s, e)) && Next(s, e).c.insts == s.c.insts
  {
    if e.Call? && s.heal.phase.Removing? {
      RemovalHolds(s, e);
    } else if e.Repair? {
      RepairHolds(s, e);
    } else if e.ListMembers? {
      ListingHolds(s, e);
    } else if e.Finish? && s.heal.phase.Removing? {
      assert forall m :: m in s.c.members ==> m in s.c.insts || m in s.c.members - s.c.insts;
    }
  }

  lemma StepAnchors(s: State, e: Event, m: Id)
    requires Holds(s) && Enabled(s, e) && !ByScaler(e) && Anchor(s.c, m) && Seen(s.heal, m)
    ensures Anchor(Next(s, e).c, m) && Seen(Next(s, e).heal, m)
  {
    if e.Repair? {
      RepairAnchors(s.heal.v, s.c, e.after, m);
    }
  }

  lemma RepairAnchors(v: View, c: Cluster, after: Cluster, m: Id)
    requires Repaired(v, c, after) && Anchor(c, m) && m in v.nodes
    ensures Anchor(after, m)
  {
    if exists i :: i in v.Additions() && Rejoined(i, c, after) {
      var i :| i in v.Additions() && Rejoined(i, c, after);
      assert m in c.members - {i};
    }
  }

  lemma {:induction false} RunHolds(s: State, es: seq<Event>)
    requires Holds(s) && Possible(s, es) && Fixed(es)
    ensures Holds(Exec(s, es)) && Exec(s, es).c.insts == s.c.insts
    decreases es
  {
    if es != [] {
      StepHolds(s, es[0]);
      RunHolds(Next(s, es[0]), es[1..]);
    }
  }

  lemma {:induction false} RunAnchors(s: State, es: seq<Event>, m: Id)
    requires Holds(s) && Possible(s, es) && Fixed(es) && Anchor(s.c, m) && Seen(s.heal, m)
    ensures Anchor(Exec(s, es).c, m)
    decreases es
  {
    if es != [] {
      StepHolds(s, es[0]);
      StepAnchors(s, es[0], m);
      RunAnchors(Next(s, es[0]), es[1..], m);
    }
  }

  /**
   All runs of repair passes, whatever fails, from any start with a live majority: the
   majority holds as long as there is a member at all.
   */
  lemma PassesKeepMajority(s: State, es: seq<Event>)
    requires Start(s) && Possible(s, es) && Fixed(es)
    ensures Majority(Exec(s, es).c) <==> Exec(s, es).c.members != {}
  {
    RunHolds(s, es);
    var c := Exec(s, es).c;
    assert c.members == {} ==> c.members * c.insts == {};
  }

  // ----- Every finished pass is a run ----------------------------------------------

  lemma PhaseIsFixed(ids: seq<Id>, replies: seq<Reply>)
    requires |replies| <= |ids|
    ensures Fixed(Calls(ids, replies)) && Fixed(Calls(ids, replies) + [Finish])
  {
  }

  /** A whole phase, every call answered. */
  function WholePhase(ids: seq<Id>): seq<Event> {
    PhaseEvents(ids, |ids|, Done, true)
  }

  lemma WholePhaseFixed(ids: seq<Id>)
    ensures Fixed(WholePhase(ids))
  {
    HitBySame(ids, |ids|, Done, true);
    PhaseIsFixed(ids, Replies(|ids|, Done));
  }

  /** Answers by which exactly the chosen ids take effect. */
  function Answers(ids: seq<Id>, made: set<Id>): (r: seq<Reply>)
    ensures |r| == |ids|
  {
    seq(|ids|, k requires 0 <= k < |ids| => if ids[k] in made then Done else Refused)
  }

  lemma AnswersHit(ids: seq<Id>, made: set<Id>)
    requires made <= Elements(ids)
    ensures Hit(ids, Answers(ids, made)) == made
  {
    var r := Answers(ids, made);
    forall x | x in made
      ensures x in Hit(ids, r)
    {
      var k :| 0 <= k < |ids| && ids[k] == x;
      assert r[k].Applied();
    }
  }

  lemma MetaPass(s: State, made: set<Id>) returns (es: seq<Event>)
    requires s.heal == Idle && made <= Look(s.c).MissedCrds()
    ensures Fixed(es)
    ensures Reaches(s, es, s.(c := s.c.(crds := s.c.crds - Look(s.c).OrphanCrds() + made), heal := Listing(Look(s.c))))
  {
    var v := Look(s.c);
    var ids := Enumerate(v.OrphanCrds());
    var more := Enumerate(v.MissedCrds());
    var creates := Answers(more, made);
    var t := s.(heal := Working(Cleaning, v, v.OrphanCrds()));
    ReadRun(s);
    MetaRun(t, ids, |ids|, Done, more, creates);
    HitByAll(ids);
    AnswersHit(more, made);
    WholePhaseFixed(ids);
    PhaseIsFixed(more, creates);
    var looks, fs := [ReadCrds, ReadNodes, ReadInsts], WholePhase(ids) + (Calls(more, creates) + [Finish]);
    ReachesConcat(s, looks, t, fs, s.(c := s.c.(crds := s.c.crds - v.OrphanCrds() + made), heal := Listing(v)));
    es := looks + fs;
  }

  lemma EtcdPass(s: State) returns (es: seq<Event>)
    requires s.heal.Listing? && s.heal.v.crds != {}
    ensures Fixed(es)
    ensures Reaches(s, es, s.(c := s.c.(members := s.c.members - MemDiff(s.c.members, s.heal.v.insts)),
                              heal := AfterPhase(Removing, s.heal.v)))
  {
    var ids := Enumerate(MemDiff(s.c.members, s.heal.v.insts));
    EtcdRun(s, ids, |ids|, Done, true);
    HitByAll(ids);
    WholePhaseFixed(ids);
    es := [ListMembers(true)] + WholePhase(ids);
  }

  lemma NodePass(s: State, after: Cluster) returns (es: seq<Event>)
    requires s.heal.Working? && s.heal.phase.Deleting? && s.heal.todo == s.heal.v.OrphanNodes()
    requires Repaired(s.heal.v, s.c.(nodes := s.c.nodes - s.heal.todo), after)
    ensures Fixed(es) && Reaches(s, es, s.(c := after, heal := Idle))
  {
    var ids := Enumerate(s.heal.todo);
    StoppedPhase(s, ids, |ids|, Done, true);
    HitByAll(ids);
    WholePhaseFixed(ids);
    var mid := s.(c := s.c.(nodes := s.c.nodes - s.heal.todo), heal := Repairing(s.heal.v));
    ReachesStep(s, WholePhase(ids), mid, Repair(after));
    es := WholePhase(ids) + [Repair(after)];
  }

  /** A finished pass, seen as what it does to the cluster, is a run of the machine. */
  lemma PassIsRun(s: State, made: set<Id>, after: Cluster) returns (es: seq<Event>)
    requires s.heal == Idle && s.c.crds != {} && PassDone(s.c, made, after)
    ensures Fixed(es) && Reaches(s, es, s.(c := after))
  {
    var v := Look(s.c);
    es := MetaPass(s, made);
    var t := s.(c := s.c.(crds := s.c.crds - v.OrphanCrds() + made), heal := Listing(v));
    var fs := EtcdPass(t);
    var u := t.(c := t.c.(members := t.c.members - MemDiff(t.c.members, v.insts)), heal := AfterPhase(Removing, v));
    ReachesConcat(s, es, t, fs, u);
    TidiedIs(s.c, made);
    var gs := NodePass(u, after);
    ReachesConcat(s, es + fs, u, gs, s.(c := after));
    es := es + fs + gs;
  }

  lemma TidiedIs(c: Cluster, made: set<Id>)
    ensures Tidied(c, made) ==
            Cluster(c.insts, c.crds - Look(c).OrphanCrds() + made, c.nodes - Look(c).OrphanNodes(),
                    c.members - MemDiff(c.members, c.insts))
  {
    assert c.crds - (c.crds - c.insts) == c.crds * c.insts;
    assert c.nodes - (c.nodes.Keys - c.insts) == Keep(c.nodes, c.insts);
  }

  // ----- Exactly when the majority is safe ------------------------------------------

  /** With no anchor, resets that fail one after the other empty the membership. */
  lemma {:induction false} LoseAll(s: State) returns (es: seq<Event>)
    requires Start(s) && s.c.crds * s.c.insts != {} && forall m :: m in s.c.members ==> !Anchor(s.c, m)
    ensures Fixed(es) && Possible(s, es) && Exec(s, es).c.members == {}
    decreases |s.c.members * s.c.insts|
  {
    var i :| i in s.c.members * s.c.insts;
    assert i in s.c.members && i !in s.c.nodes;
    var after := ResetOnly(s.c, {}, i);
    assert s.c.crds != {};
    es := PassIsRun(s, {}, after);
    var t := s.(c := after);
    AfterReset(s.c, after, i);
    if after.members != {} {
      assert after.members * after.insts == after.members;
      var fs := LoseAll(t);
      ReachesConcat(s, es, t, fs, Exec(t, fs));
      es := es + fs;
    }
  }

  lemma AfterReset(c: Cluster, after: Cluster, i: Id)
    requires Majority(c) && i in c.members * c.insts
    requires after == Tidied(c, {}).(members := Tidied(c, {}).members - {i})
    ensures after.members == c.members * c.insts - {i} && after.insts == c.insts
    ensures after.crds * after.insts == c.crds * c.insts
    ensures forall m :: m in after.nodes ==> m in c.nodes
    ensures |after.members| < |c.members * c.insts|
  {
    GuardAccepts(c, View({}, map j | j in c.insts :: true, c.insts));
    assert c.members - (c.members - c.insts) == c.members * c.insts;
  }

  /**
   With a live Master, no run of repair passes can lose the majority if and only if some
   member's machine is there and has a node.
   */
  lemma MajorityIsSafeIff(s: State)
    requires Start(s) && s.c.crds * s.c.insts != {}
    ensures (forall es :: Possible(s, es) && Fixed(es) ==> Majority(Exec(s, es).c)) <==>
            exists m :: m in s.c.members && Anchor(s.c, m)
  {
    if m :| m in s.c.members && Anchor(s.c, m) {
      forall es | Possible(s, es) && Fixed(es)
        ensures Majority(Exec(s, es).c)
      {
        RunAnchors(s, es, m);
        PassesKeepMajority(s, es);
      }
    } else {
      var es := LoseAll(s);
      PassesKeepMajority(s, es);
      assert Possible(s, es) && Fixed(es) && !Majority(Exec(s, es).c);
    }
  }
}

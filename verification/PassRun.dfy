/** Loops of remote calls, as runs of the ControlPlane machine. */
module PassRun {
  import opened Basics
  import opened ControlPlane

  /** A loop over n ids that stops at the first error: `done` calls succeeded, then came `last`. */
  predicate Stopped(n: nat, done: nat, last: Reply, ok: bool) {
    if ok then done == n && last.Done? else done < n && !last.Done?
  }

  /** The ids on which such a loop took effect. */
  function HitBy(ids: seq<Id>, done: nat, last: Reply): set<Id>
    requires done <= |ids|
  {
    (set x | x in ids[..done]) + if last.Lost? && done < |ids| then {ids[done]} else {}
  }

  lemma HitByStep(ids: seq<Id>, k: nat, reply: Reply)
    requires k < |ids|
    ensures reply.Done? ==> HitBy(ids, k + 1, Done) == HitBy(ids, k, Done) + {ids[k]}
    ensures !reply.Done? ==> HitBy(ids, k, reply) == HitBy(ids, k, Done) + if reply.Applied() then {ids[k]} else {}
  {
    assert ids[..k + 1] == ids[..k] + [ids[k]];
  }

  lemma HitByAll(ids: seq<Id>)
    ensures HitBy(ids, |ids|, Done) == Elements(ids)
  {
    assert ids[..|ids|] == ids;
  }

  /** The replies of such a loop, in order. */
  function Replies(done: nat, last: Reply): seq<Reply> {
    seq(done, _ => Done) + if last.Done? then [] else [last]
  }

  /** The ids whose call took effect, in a loop that made one call per id. */
  function Hit(ids: seq<Id>, replies: seq<Reply>): set<Id>
    requires |replies| <= |ids|
  {
    set k | 0 <= k < |replies| && replies[k].Applied() :: ids[k]
  }

  lemma HitStep(ids: seq<Id>, replies: seq<Reply>, reply: Reply)
    requires |replies| < |ids|
    ensures Hit(ids, replies + [reply]) == Hit(ids, replies) + if reply.Applied() then {ids[|replies|]} else {}
  {
    var more := replies + [reply];
    assert forall k :: 0 <= k < |replies| ==> more[k] == replies[k];
    assert more[|replies|] == reply;
  }

  lemma HitBySame(ids: seq<Id>, done: nat, last: Reply, ok: bool)
    requires Stopped(|ids|, done, last, ok)
    ensures |Replies(done, last)| <= |ids|
    ensures Hit(ids, Replies(done, last)) == HitBy(ids, done, last)
  {
    var replies := Replies(done, last);
    forall x | x in HitBy(ids, done, last)
      ensures x in Hit(ids, replies)
    {
      if x in ids[..done] {
        var k :| 0 <= k < done && ids[k] == x;
        assert replies[k].Applied();
      } else {
        assert replies[done].Applied();
      }
    }
  }

  /** t is where the run es leads from s. */
  predicate Reaches(s: State, es: seq<Event>, t: State) {
    Possible(s, es) && Exec(s, es) == t
  }

  lemma ReachesStep(s: State, es: seq<Event>, t: State, e: Event)
    requires Reaches(s, es, t) && Enabled(t, e)
    ensures Reaches(s, es + [e], Next(t, e))
  {
    ExecAppend(s, es, e);
  }

  lemma {:induction false} ReachesConcat(s: State, es: seq<Event>, t: State, fs: seq<Event>, u: State)
    requires Reaches(s, es, t) && Reaches(t, fs, u)
    ensures Reaches(s, es + fs, u)
    decreases es
  {
    if es == [] {
      assert es + fs == fs;
    } else {
      ReachesConcat(Next(s, es[0]), es[1..], t, fs, u);
      assert (es + fs)[1..] == es[1..] + fs;
    }
  }

  function Calls(ids: seq<Id>, replies: seq<Reply>): (es: seq<Event>)
    requires |replies| <= |ids|
  {
    seq(|replies|, k requires 0 <= k < |replies| => Call(ids[k], replies[k]))
  }

  /** The machine after a loop over `ids` that got the given replies. */
  function AfterCalls(s: State, ids: seq<Id>, replies: seq<Reply>): State
    requires s.heal.Working? && |replies| <= |ids|
  {
    s.(c := Effect(s.c, s.heal.phase, Hit(ids, replies)),
       heal := if !s.heal.phase.Rebuilding? && replies != [] && !replies[|replies| - 1].Done? then Idle
               else Working(s.heal.phase, s.heal.v, Elements(ids[|replies|..])))
  }

  lemma EffectStep(c: Cluster, phase: Phase, ids: set<Id>, more: set<Id>)
    ensures Effect(Effect(c, phase, ids), phase, more) == Effect(c, phase, ids + more)
    ensures Effect(c, phase, {}) == c
  {
    assert c.nodes - ids - more == c.nodes - (ids + more);
    assert c.crds - ids - more == c.crds - (ids + more);
    assert c.members - ids - more == c.members - (ids + more);
    assert c.crds + ids + more == c.crds + (ids + more);
    assert c.nodes - {} == c.nodes;
  }

  /** One more call. */
  lemma CallStep(s: State, ids: seq<Id>, init: seq<Reply>, last: Reply)
    requires s.heal.Working? && Distinct(ids) && |init| < |ids|
    requires s.heal.phase.Rebuilding? || forall k :: 0 <= k < |init| ==> init[k].Done?
    ensures var t, e := AfterCalls(s, ids, init), Call(ids[|init|], last);
            Enabled(t, e) && Next(t, e) == AfterCalls(s, ids, init + [last])
  {
    var n := |init|;
    assert ids[n..] == [ids[n]] + ids[n + 1..];
    assert Elements(ids[n..]) - {ids[n]} == Elements(ids[n + 1..]);
    HitStep(ids, init, last);
    EffectStep(s.c, s.heal.phase, Hit(ids, init), if last.Applied() then {ids[n]} else {});
  }

  lemma {:induction false} PhaseRun(s: State, ids: seq<Id>, replies: seq<Reply>)
    requires s.heal.Working? && s.heal.todo == Elements(ids) && Distinct(ids) && |replies| <= |ids|
    requires s.heal.phase.Rebuilding? || forall k :: 0 <= k < |replies| - 1 ==> replies[k].Done?
    ensures Reaches(s, Calls(ids, replies), AfterCalls(s, ids, replies))
    decreases |replies|
  {
    if replies == [] {
      EffectStep(s.c, s.heal.phase, {}, {});
      assert ids[0..] == ids && Hit(ids, replies) == {};
    } else {
      var n := |replies| - 1;
      var init, last := replies[..n], replies[n];
      assert replies == init + [last];
      PhaseRun(s, ids, init);
      var t := AfterCalls(s, ids, init);
      CallStep(s, ids, init, last);
      ReachesStep(s, Calls(ids, init), t, Call(ids[n], last));
      assert Calls(ids, replies) == Calls(ids, init) + [Call(ids[n], last)];
    }
  }

  /** A finished phase, and the step to the next. */
  lemma PhaseDone(s: State, ids: seq<Id>, replies: seq<Reply>)
    requires s.heal.Working? && s.heal.todo == Elements(ids) && Distinct(ids) && |replies| == |ids|
    requires s.heal.phase.Rebuilding? || forall k :: 0 <= k < |replies| ==> replies[k].Done?
    ensures Reaches(s, Calls(ids, replies) + [Finish],
                    s.(c := Effect(s.c, s.heal.phase, Hit(ids, replies)), heal := AfterPhase(s.heal.phase, s.heal.v)))
  {
    PhaseRun(s, ids, replies);
    assert Elements(ids[|ids|..]) == {};
    ReachesStep(s, Calls(ids, replies), AfterCalls(s, ids, replies), Finish);
  }

  /** Reading the three lists, nothing coming between. */
  lemma ReadRun(s: State)
    requires s.heal == Idle
    ensures Reaches(s, [ReadCrds, ReadNodes, ReadInsts],
                    s.(heal := Working(Cleaning, Look(s.c), Look(s.c).OrphanCrds())))
  {
    assert Reaches(s, [], s);
    ReachesStep(s, [], s, ReadCrds);
    var s1 := Next(s, ReadCrds);
    assert [] + [ReadCrds] == [ReadCrds];
    ReachesStep(s, [ReadCrds], s1, ReadNodes);
    var s2 := Next(s1, ReadNodes);
    assert [ReadCrds] + [ReadNodes] == [ReadCrds, ReadNodes];
    ReachesStep(s, [ReadCrds, ReadNodes], s2, ReadInsts);
    assert [ReadCrds, ReadNodes] + [ReadInsts] == [ReadCrds, ReadNodes, ReadInsts];
  }

  /** A phase whose loop stops at the first error, up to the step that follows it. */
  function PhaseEvents(ids: seq<Id>, done: nat, last: Reply, ok: bool): seq<Event>
    requires Stopped(|ids|, done, last, ok)
  {
    HitBySame(ids, done, last, ok);
    Calls(ids, Replies(done, last)) + if ok then [Finish] else []
  }

  lemma StoppedPhase(s: State, ids: seq<Id>, done: nat, last: Reply, ok: bool)
    requires s.heal.Working? && !s.heal.phase.Rebuilding? && s.heal.todo == Elements(ids) && Distinct(ids)
    requires Stopped(|ids|, done, last, ok)
    ensures Reaches(s, PhaseEvents(ids, done, last, ok),
                    s.(c := Effect(s.c, s.heal.phase, HitBy(ids, done, last)),
                       heal := if ok then AfterPhase(s.heal.phase, s.heal.v) else Idle))
  {
    var replies := Replies(done, last);
    HitBySame(ids, done, last, ok);
    if ok {
      PhaseDone(s, ids, replies);
    } else {
      PhaseRun(s, ids, replies);
      assert Calls(ids, replies) + [] == Calls(ids, replies);
    }
  }

  /** Deleting the orphan nodes, perhaps stopped on the way. */
  lemma DeletePhase(s: State, v: View, ids: seq<Id>, done: nat, last: Reply, ok: bool)
    requires s.heal == AfterPhase(Removing, v) && v.OrphanNodes() == Elements(ids) && Distinct(ids)
    requires Stopped(|ids|, done, last, ok)
    ensures var gone := HitBy(ids, done, last);
            && Reaches(s, PhaseEvents(ids, done, last, ok),
                       s.(c := s.c.(nodes := s.c.nodes - gone), heal := if ok then Repairing(v) else Idle))
            && (ok ==> gone == v.OrphanNodes())
  {
    StoppedPhase(s, ids, done, last, ok);
    HitByAll(ids);
  }

  lemma ListingFails(s: State)
    requires s.heal.Listing?
    ensures Reaches(s, [ListMembers(false)], s.(heal := Idle))
  {
    assert Reaches(s, [], s);
    ReachesStep(s, [], s, ListMembers(false));
    assert [] + [ListMembers(false)] == [ListMembers(false)];
  }

  /** Listing the members, then removing the stale ones. */
  lemma EtcdRun(s: State, ids: seq<Id>, done: nat, last: Reply, ok: bool)
    requires s.heal.Listing? && s.heal.v.crds != {}
    requires Elements(ids) == MemDiff(s.c.members, s.heal.v.insts) && Distinct(ids)
    requires Stopped(|ids|, done, last, ok)
    ensures Reaches(s, [ListMembers(true)] + PhaseEvents(ids, done, last, ok),
                    s.(c := s.c.(members := s.c.members - HitBy(ids, done, last)),
                       heal := if ok then AfterPhase(Removing, s.heal.v) else Idle))
  {
    var mid := s.(heal := Working(Removing, s.heal.v, Elements(ids)));
    assert Reaches(s, [], s);
    ReachesStep(s, [], s, ListMembers(true));
    assert [] + [ListMembers(true)] == [ListMembers(true)];
    StoppedPhase(mid, ids, done, last, ok);
    ReachesConcat(s, [ListMembers(true)], mid, PhaseEvents(ids, done, last, ok), 
                  s.(c := s.c.(members := s.c.members - HitBy(ids, done, last)),
                     heal := if ok then AfterPhase(Removing, s.heal.v) else Idle));
  }

  /** Deleting orphan Masters, then recreating missed ones. */
  lemma MetaRun(s: State, ids: seq<Id>, done: nat, last: Reply, more: seq<Id>, creates: seq<Reply>)
    requires s.heal.Working? && s.heal.phase.Cleaning? && s.heal.todo == Elements(ids) && Distinct(ids)
    requires Stopped(|ids|, done, last, true)
    requires Elements(more) == s.heal.v.MissedCrds() && Distinct(more) && |creates| == |more|
    ensures Reaches(s, PhaseEvents(ids, done, last, true) + (Calls(more, creates) + [Finish]),
                    s.(c := s.c.(crds := s.c.crds - HitBy(ids, done, last) + Hit(more, creates)), heal := Listing(s.heal.v)))
  {
    StoppedPhase(s, ids, done, last, true);
    var mid := s.(c := Effect(s.c, Cleaning, HitBy(ids, done, last)), heal := AfterPhase(Cleaning, s.heal.v));
    PhaseDone(mid, more, creates);
    ReachesConcat(s, PhaseEvents(ids, done, last, true), mid, Calls(more, creates) + [Finish],
                  mid.(c := Effect(mid.c, Rebuilding, Hit(more, creates)), heal := Listing(s.heal.v)));
  }
}

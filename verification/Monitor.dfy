/** The recovery monitor: checks, thresholds and the pause between recoveries (pkg/operator/monit/monitor.go). */
module Monitoring {

  const FIVE_MINUTES: int := 5 * 60

  /** What one check says in one round: not asked, no answer, or an answer. */
  datatype Verdict = Throttled | Inconclusive | Healthy | Failing

  datatype ThreshedCheck = ThreshedCheck(threshold: int, threshed: int) {
    predicate ThreshMeet() {
      threshed > threshold
    }
  }

  /** How many failures in a row end a history of answers (true stands for healthy). */
  function TrailingFailures(h: seq<bool>): nat {
    if h == [] || h[|h| - 1] then 0 else 1 + TrailingFailures(h[..|h| - 1])
  }

  /** The most recent n answers are all failures. */
  predicate LastFailed(h: seq<bool>, n: nat) {
    n <= |h| && forall i :: |h| - n <= i < |h| ==> !h[i]
  }

  lemma {:induction false} TrailingMeans(h: seq<bool>, n: nat)
    ensures TrailingFailures(h) >= n <==> LastFailed(h, n)
    decreases n
  {
    if n > 0 && h != [] {
      var init := h[..|h| - 1];
      TrailingMeans(init, n - 1);
      if LastFailed(h, n) {
        assert !h[|h| - 1];
        assert LastFailed(init, n - 1);
      }
      if !h[|h| - 1] && LastFailed(init, n - 1) {
        forall i | |h| - n <= i < |h|
          ensures !h[i]
        {
          if i < |h| - 1 {
            assert !init[i];
          }
        }
      }
    }
  }

  /** The answers of one round, added to the history. */
  function Recorded(h: seq<bool>, v: Verdict): seq<bool> {
    match v
    case Healthy => h + [true]
    case Failing => h + [false]
    case _ => h
  }

  /** One firing of the recovery actions, with the histories it was based on. */
  datatype Firing = Firing(start: int, end: int, seen: map<string, seq<bool>>)

  /** When the latest recovery ended, or the monitor was created. */
  function LastEnd(created: int, firings: seq<Firing>): int {
    if firings == [] then created else firings[|firings| - 1].end
  }

  /** Each firing came more than five minutes after the one before it ended. */
  predicate Spaced(created: int, firings: seq<Firing>) {
    firings == [] ||
    (var init, last := firings[..|firings| - 1], firings[|firings| - 1];
     Spaced(created, init) && LastEnd(created, init) + FIVE_MINUTES < last.start <= last.end)
  }

  lemma SpacedAppend(created: int, firings: seq<Firing>, f: Firing)
    requires Spaced(created, firings) && LastEnd(created, firings) + FIVE_MINUTES < f.start <= f.end
    ensures Spaced(created, firings + [f]) && LastEnd(created, firings + [f]) == f.end
  {
    assert (firings + [f])[..|firings|] == firings;
  }

  /** Any two recoveries, not just neighbours, are more than five minutes apart. */
  lemma {:induction false} FiringsApart(created: int, firings: seq<Firing>, i: nat, j: nat)
    requires Spaced(created, firings) && i < j < |firings|
    ensures firings[i].end + 300 < firings[j].start
    decreases |firings|
  {
    var init := firings[..|firings| - 1];
    if j < |firings| - 1 {
      FiringsApart(created, init, i, j);
    } else if i < j - 1 {
      FiringsApart(created, init, i, j - 1);
    }
  }

  lemma RecordedCount(h: seq<bool>, v: Verdict)
    ensures TrailingFailures(Recorded(h, v)) ==
            match v case Failing => TrailingFailures(h) + 1 case Healthy => 0 case _ => TrailingFailures(h)
  {
    assert (h + [false])[..|h|] == h;
  }

  /** Each counter is the length of the run of failures that ends its check's history. */
  ghost predicate Exact(checks: map<string, ThreshedCheck>, history: map<string, seq<bool>>) {
    && (forall k :: k in checks <==> k in history)
    && (forall k :: k in checks ==> checks[k].threshed == TrailingFailures(history[k]))
  }

  /** Every check has failed more often in a row, up to now, than its threshold allows. */
  ghost predicate AllFailing(checks: map<string, ThreshedCheck>, history: map<string, seq<bool>>) {
    forall k :: k in checks && k in history ==>
      checks[k].threshold < 0 || LastFailed(history[k], checks[k].threshold + 1)
  }

  lemma MeetMeans(checks: map<string, ThreshedCheck>, history: map<string, seq<bool>>)
    requires Exact(checks, history)
    ensures (forall k :: k in checks ==> checks[k].ThreshMeet()) <==> AllFailing(checks, history)
  {
    forall k | k in checks
      ensures checks[k].ThreshMeet() <==> checks[k].threshold < 0 || LastFailed(history[k], checks[k].threshold + 1)
    {
      if checks[k].threshold >= 0 {
        TrailingMeans(history[k], checks[k].threshold + 1);
      }
    }
  }

  /** One turn of the monitor: clock readings before and after the actions, and the verdicts. */
  datatype Turn = Turn(now: int, done: int, verdicts: map<string, Verdict>)

  /** What a check has answered after these turns, oldest answer first. */
  function Answers(h: seq<bool>, turns: seq<Turn>, k: string): seq<bool>
    requires forall t :: t in turns ==> k in t.verdicts
  {
    if turns == [] then h
    else Recorded(Answers(h, turns[..|turns| - 1], k), turns[|turns| - 1].verdicts[k])
  }

  /** When the latest of the first i turns that fired was done with its actions. */
  function LastDone(start: int, turns: seq<Turn>, fired: seq<bool>, i: nat): int
    requires i <= |fired| <= |turns|
  {
    if i == 0 then start else if fired[i - 1] then turns[i - 1].done else LastDone(start, turns, fired, i - 1)
  }

  lemma {:induction false} LastDoneAppend(start: int, turns: seq<Turn>, fired: seq<bool>, f: bool, i: nat)
    requires i <= |fired| < |turns|
    ensures LastDone(start, turns, fired + [f], i) == LastDone(start, turns, fired, i)
  {
    if i > 0 {
      LastDoneAppend(start, turns, fired, f, i - 1);
    }
  }

  lemma LastDoneNext(start: int, turns: seq<Turn>, fired: seq<bool>, f: bool)
    requires |fired| < |turns|
    ensures LastDone(start, turns, fired + [f], |fired| + 1) ==
            if f then turns[|fired|].done else LastDone(start, turns, fired, |fired|)
  {
    LastDoneAppend(start, turns, fired, f, |fired|);
  }

  /** Each of these checks has answered in every turn. */
  ghost predicate Asked(turns: seq<Turn>, history: map<string, seq<bool>>) {
    forall t, k :: t in turns && k in history ==> k in t.verdicts
  }

  predicate Clocked(turns: seq<Turn>) {
    forall t :: t in turns ==> t.now <= t.done
  }

  lemma TurnFits(turns: seq<Turn>, history: map<string, seq<bool>>, i: nat)
    requires i < |turns| && Clocked(turns) && Asked(turns, history)
    ensures turns[i].now <= turns[i].done && history.Keys <= turns[i].verdicts.Keys
  {
    assert turns[i] in turns;
  }

  /** Before turn i every check's seven latest answers are failures, and the last recovery is long enough ago. */
  ghost predicate Due(start: int, history: map<string, seq<bool>>, turns: seq<Turn>, fired: seq<bool>, i: nat)
    requires i < |turns| && i <= |fired| <= |turns| && Asked(turns, history)
  {
    && LastDone(start, turns, fired, i) + 300 < turns[i].now
    && forall k :: k in history ==> LastFailed(Answers(history[k], turns[..i], k), 7)
  }

  /** The turns that fired are exactly those that were due. */
  ghost predicate FiredWhenDue(start: int, history: map<string, seq<bool>>, turns: seq<Turn>, fired: seq<bool>)
    requires |fired| <= |turns| && Asked(turns, history)
  {
    forall i :: 0 <= i < |fired| ==> (fired[i] <==> Due(start, history, turns, fired, i))
  }

  lemma FiredNext(start: int, history: map<string, seq<bool>>, turns: seq<Turn>, fired: seq<bool>, f: bool)
    requires |fired| < |turns| && Asked(turns, history)
    requires FiredWhenDue(start, history, turns, fired) && (f <==> Due(start, history, turns, fired, |fired|))
    ensures FiredWhenDue(start, history, turns, fired + [f])
  {
    forall i | 0 <= i <= |fired|
      ensures (fired + [f])[i] <==> Due(start, history, turns, fired + [f], i)
    {
      LastDoneAppend(start, turns, fired, f, i);
    }
  }

  /** What has been recorded since `before` are the answers of these turns. */
  ghost predicate Heard(before: map<string, seq<bool>>, history: map<string, seq<bool>>, turns: seq<Turn>) {
    && Asked(turns, before) && before.Keys == history.Keys
    && forall k :: k in history ==> history[k] == Answers(before[k], turns, k)
  }

  lemma HeardNext(before: map<string, seq<bool>>, history: map<string, seq<bool>>, later: map<string, seq<bool>>,
                  turns: seq<Turn>, i: nat)
    requires i < |turns| && Asked(turns, before) && Heard(before, history, turns[..i]) && later.Keys == history.Keys
    requires forall k :: k in later ==> k in turns[i].verdicts && later[k] == Recorded(history[k], turns[i].verdicts[k])
    ensures Heard(before, later, turns[..i + 1])
  {
    assert turns[..i + 1][..i] == turns[..i];
  }

  ghost predicate Six(checks: map<string, ThreshedCheck>) {
    forall k :: k in checks ==> checks[k].threshold == 6
  }

  lemma DueMeans(start: int, before: map<string, seq<bool>>, checks: map<string, ThreshedCheck>,
                 history: map<string, seq<bool>>, turns: seq<Turn>, fired: seq<bool>, i: nat)
    requires i < |turns| && i == |fired| && Asked(turns, before) && Heard(before, history, turns[..i])
    requires Six(checks) && checks.Keys == history.Keys
    ensures Due(start, before, turns, fired, i) <==>
            LastDone(start, turns, fired, i) + FIVE_MINUTES < turns[i].now && AllFailing(checks, history)
  {
  }

  /** The first |fired| turns of a run: which of them fired, when the last was done, and what was heard. */
  ghost predicate Tracked(start: int, before: map<string, seq<bool>>, history: map<string, seq<bool>>, lastRun: int,
                          turns: seq<Turn>, fired: seq<bool>) {
    && |fired| <= |turns| && Asked(turns, before) && FiredWhenDue(start, before, turns, fired)
    && lastRun == LastDone(start, turns, fired, |fired|) && Heard(before, history, turns[..|fired|])
  }

  lemma NoneTracked(before: map<string, seq<bool>>, lastRun: int, turns: seq<Turn>)
    requires Asked(turns, before)
    ensures Tracked(lastRun, before, before, lastRun, turns, [])
  {
    assert turns[..0] == [];
  }

  lemma AllHeard(start: int, before: map<string, seq<bool>>, history: map<string, seq<bool>>, lastRun: int,
                 turns: seq<Turn>, fired: seq<bool>)
    requires Tracked(start, before, history, lastRun, turns, fired) && |fired| == |turns|
    ensures Heard(before, history, turns)
  {
    assert turns[..|turns|] == turns;
  }

  class Monitor {
    var checks: map<string, ThreshedCheck>
    var lastRun: int
    ghost const created: int
    ghost var history: map<string, seq<bool>>
    ghost var firings: seq<Firing>

    constructor (now: int)
      ensures Valid() && checks == map[] && lastRun == now && created == now && firings == []
    {
      checks, lastRun, created := map[], now, now;
      history, firings := map[], [];
    }

    ghost predicate Valid()
      reads this
    {
      Exact(checks, history) && Spaced(created, firings) && lastRun == LastEnd(created, firings)
    }

    /** Registering a name again starts it over. */
    method WithCheck(name: string, threshold: int)
      requires Valid()
      modifies this`checks, this`history
      ensures Valid() && history == old(history)[name := []]
      ensures checks == old(checks)[name := ThreshedCheck(threshold, 0)]
    {
      checks := checks[name := ThreshedCheck(threshold, 0)];
      history := history[name := []];
    }

    method MeetAll() returns (meet: bool)
      ensures meet <==> forall k :: k in checks ==> checks[k].ThreshMeet()
    {
      var todo := checks.Keys;
      while todo != {}
        invariant todo <= checks.Keys
        invariant forall k :: k in checks && k !in todo ==> checks[k].ThreshMeet()
        decreases todo
      {
        var k :| k in todo;
        if !checks[k].ThreshMeet() {
          return false;
        }
        todo := todo - {k};
      }
      return true;
    }

    /** A failure counts up, a good answer starts over, no answer changes nothing. */
    method Ask(k: string, verdict: Verdict)
      requires Exact(checks, history) && k in checks
      modifies this`checks, this`history
      ensures Exact(checks, history) && checks.Keys == old(checks.Keys)
      ensures history == old(history)[k := Recorded(old(history)[k], verdict)]
      ensures forall j :: j in checks ==> checks[j].threshold == old(checks)[j].threshold
    {
      var v := checks[k];
      RecordedCount(history[k], verdict);
      ghost var h := Recorded(history[k], verdict);
      if verdict.Failing? {
        v := v.(threshed := v.threshed + 1);
      } else if verdict.Healthy? {
        v := v.(threshed := 0);
      }
      assert v.threshed == TrailingFailures(h);
      checks := checks[k := v];
      history := history[k := h];
    }

    /** Ask every check once, in any order. */
    method CheckRound(verdicts: map<string, Verdict>)
      requires Valid() && checks.Keys <= verdicts.Keys
      modifies this`checks, this`history
      ensures Valid() && checks.Keys == old(checks.Keys)
      ensures forall k :: k in checks ==>
                checks[k].threshold == old(checks)[k].threshold && history[k] == Recorded(old(history)[k], verdicts[k])
    {
      var todo := checks.Keys;
      while todo != {}
        invariant todo <= checks.Keys == old(checks.Keys) && Exact(checks, history)
        invariant forall k :: k in checks ==> checks[k].threshold == old(checks)[k].threshold
        invariant forall k :: k in checks ==>
                    history[k] == if k in todo then old(history)[k] else Recorded(old(history)[k], verdicts[k])
        decreases todo
      {
        var k :| k in todo;
        todo := todo - {k};
        Ask(k, verdicts[k]);
      }
    }

    /**
     One turn. The actions fire exactly when every check's counter exceeds its threshold
     and more than five minutes have passed since the last firing ended. Then every check is
     asked, and its answer recorded.
     */
    method Check(turn: Turn) returns (fired: bool)
      requires Valid() && turn.now <= turn.done && checks.Keys <= turn.verdicts.Keys
      modifies this
      ensures Valid() && checks.Keys == old(checks.Keys)
      ensures fired <==> old(lastRun) + FIVE_MINUTES < turn.now &&
                         AllFailing(old(checks), old(history))
      ensures firings == old(firings) + if fired then [Firing(turn.now, turn.done, old(history))] else []
      ensures lastRun == if fired then turn.done else old(lastRun)
      ensures forall k :: k in checks ==>
                checks[k].threshold == old(checks)[k].threshold &&
                history[k] == Recorded(old(history)[k], turn.verdicts[k])
    {
      fired := false;
      var meet := MeetAll();
      MeetMeans(checks, history);
      if meet && turn.now > lastRun + FIVE_MINUTES {
        fired := true;
        SpacedAppend(created, firings, Firing(turn.now, turn.done, history));
        lastRun := turn.done;
        firings := firings + [Firing(turn.now, turn.done, history)];
      }
      CheckRound(turn.verdicts);
    }

    /** Each firing so far was backed by seven failures in a row of every check. */
    ghost predicate SevenEach()
      reads this
    {
      forall i, k :: 0 <= i < |firings| && k in firings[i].seen ==> LastFailed(firings[i].seen[k], 7)
    }

    /** A turn with the usual threshold. */
    method CheckSix(turn: Turn) returns (fired: bool)
      requires Valid() && SevenEach() && Six(checks) && turn.now <= turn.done && checks.Keys <= turn.verdicts.Keys
      modifies this
      ensures Valid() && SevenEach() && Six(checks) && checks.Keys == old(checks.Keys) && old(firings) <= firings
      ensures fired <==> old(lastRun) + FIVE_MINUTES < turn.now && AllFailing(old(checks), old(history))
      ensures lastRun == if fired then turn.done else old(lastRun)
      ensures forall k :: k in checks ==> history[k] == Recorded(old(history)[k], turn.verdicts[k])
    {
      fired := Check(turn);
    }

    /** The next turn of such a run. */
    method WatchOne(turns: seq<Turn>, fired: seq<bool>, ghost start: int, ghost before: map<string, seq<bool>>)
      returns (f: bool)
      requires |fired| < |turns| && Valid() && SevenEach() && Six(checks) && Asked(turns, before)
      requires turns[|fired|].now <= turns[|fired|].done && checks.Keys <= turns[|fired|].verdicts.Keys
      requires Tracked(start, before, history, lastRun, turns, fired)
      modifies this
      ensures Valid() && SevenEach() && old(firings) <= firings && checks.Keys == old(checks.Keys) && Six(checks)
      ensures Tracked(start, before, history, lastRun, turns, fired + [f])
    {
      var i := |fired|;
      ghost var seen := history;
      DueMeans(start, before, checks, history, turns, fired, i);
      f := CheckSix(turns[i]);
      HeardNext(before, seen, history, turns, i);
      LastDoneNext(start, turns, fired, f);
      FiredNext(start, before, turns, fired, f);
    }

    /**
     Any run of the monitor with the usual threshold of six: whenever the actions fire,
     the seven latest answers of every check are failures, and the firing starts more
     than five minutes after the one before it ended. And whenever both are so, they fire.
     */
    method Watch(turns: seq<Turn>) returns (fired: seq<bool>)
      requires Valid() && SevenEach() && Six(checks) && Asked(turns, history)
      requires Clocked(turns)
      modifies this
      ensures Valid() && SevenEach() && old(firings) <= firings && checks.Keys == old(checks.Keys)
      ensures |fired| == |turns| && FiredWhenDue(old(lastRun), old(history), turns, fired)
      ensures Heard(old(history), history, turns)
    {
      fired := [];
      ghost var start, before := lastRun, history;
      NoneTracked(history, lastRun, turns);
      for i := 0 to |turns|
        invariant Valid() && SevenEach() && old(firings) <= firings && checks.Keys == old(checks.Keys) && Six(checks)
        invariant |fired| == i && Tracked(start, before, history, lastRun, turns, fired)
      {
        TurnFits(turns, before, i);
        var f := WatchOne(turns, fired, start, before);
        fired := fired + [f];
      }
      AllHeard(start, before, history, lastRun, turns, fired);
    }
  }
}

/**
 Joining an etcd cluster (pkg/actions/etcd/etcd.go). Any number of joiners work on one
 membership at a time. Each lists the members, waits for them, adds itself with retries,
 lists again, and takes itself out if the count grew by more than one.
 */
module EtcdJoin {
  import opened Basics

  type Ip = string

  /** Members by id; the value is the address in the peer URL. */
  type Members = map<nat, Ip>

  datatype Pc =
    | Idle                                // outside `Join`, or between two polls of it
    | Waiting(first: Members, ready: bool)  // has listed, waits for healthy endpoints
    | Trying(first: Members, tries: nat)    // in `JoinMe`, about to look for itself
    | Adding(first: Members, tries: nat)    // did not find itself, about to add
    | Relisting(first: Members)             // `JoinMe` has returned without an error
    | BackingOff(first: Members, seen: Members)
    | Joined

  /**
   `up` are the ids of members that have started and so have a client URL. `limit` is how
   often `JoinMe` may try: twice for each peer, and there is a peer.
   */
  datatype State = State(mems: Members, up: set<nat>, next: nat, pcs: map<Ip, Pc>, limit: nat)

  datatype Event =
    | List(j: Ip, ok: bool)
    | Ready(j: Ip, ok: bool)
    | Check(j: Ip, ok: bool)
    | Add(j: Ip, reply: Reply)
    | Relist(j: Ip, ok: bool)
    | BackOff(j: Ip, reply: Reply)
    | Start(j: Ip)

  predicate Enabled(s: State, e: Event) {
    && e.j in s.pcs
    && match e
       case List(j, _) => s.pcs[j].Idle?
       // the client URLs of all listed members are needed; one that has not started has none
       case Ready(j, ok) => s.pcs[j].Waiting? && (ok ==> s.pcs[j].ready)
       case Check(j, _) => s.pcs[j].Trying?
       case Add(j, _) => s.pcs[j].Adding?
       case Relist(j, _) => s.pcs[j].Relisting?
       case BackOff(j, _) => s.pcs[j].BackingOff?
       case Start(j) => s.pcs[j].Joined?
  }

  /** After a failed attempt: the next one, or the error once all peers were tried twice. */
  function Retry(s: State, first: Members, tries: nat): Pc {
    if tries + 1 < s.limit then Trying(first, tries + 1) else Idle
  }

  /**
   Each peer is tried twice, and the first success ends it. With no peer at all nothing is
   tried, and that counts as success. Call number c is attempt c % 2 at peer c / 2.
   */
  method TryEachPeer(peers: seq<Ip>, attempt: (nat, nat) -> bool) returns (ok: bool, calls: nat)
    ensures ok <==> peers == [] || exists p: nat, i: nat :: p < |peers| && i < 2 && attempt(p, i)
    ensures calls <= 2 * |peers|
    ensures !ok ==> calls == 2 * |peers|
    ensures ok && peers != [] ==> calls > 0 && attempt((calls - 1) / 2, (calls - 1) % 2)
    ensures forall c: nat :: c < calls - 1 ==> !attempt(c / 2, c % 2)
  {
    calls := 0;
    for p := 0 to |peers|
      invariant calls == 2 * p
      invariant forall q: nat, i: nat :: q < p && i < 2 ==> !attempt(q, i)
    {
      for i := 0 to 2
        invariant calls == 2 * p + i
        invariant forall k: nat :: k < i ==> !attempt(p, k)
      {
        calls := calls + 1;
        if attempt(p, i) {
          assert (calls - 1) / 2 == p && (calls - 1) % 2 == i;
          return true, calls;
        }
      }
    }
    return |peers| == 0, calls;
  }

  /** The ids under which an address is listed. */
  function IdsOf(mems: Members, j: Ip): set<nat> {
    set i | i in mems && mems[i] == j
  }

  function Go(s: State, j: Ip, pc: Pc): State {
    s.(pcs := s.pcs[j := pc])
  }

  function Next(s: State, e: Event): State
    requires Enabled(s, e)
  {
    match e
    case List(j, ok) => Go(s, j, if ok then Waiting(s.mems, s.mems.Keys <= s.up) else Idle)
    case Ready(j, ok) => Go(s, j, if ok then Trying(s.pcs[j].first, 0) else Idle)
    case Check(j, ok) =>
      var pc := s.pcs[j];
      if !ok then Go(s, j, Retry(s, pc.first, pc.tries))
      else if j in s.mems.Values then Go(s, j, Relisting(pc.first))
      else Go(s, j, Adding(pc.first, pc.tries))
    case Add(j, reply) =>
      var pc := s.pcs[j];
      Go(if reply.Applied() then s.(mems := s.mems[s.next := j], next := s.next + 1) else s,
         j, if reply.Done? then Relisting(pc.first) else Retry(s, pc.first, pc.tries))
    case Relist(j, ok) =>
      var first := s.pcs[j].first;
      Go(s, j, if !ok then Idle else if |first| + 1 < |s.mems| then BackingOff(first, s.mems) else Joined)
    case BackOff(j, reply) =>
      // removal is by the id seen in the second listing; no such id means nothing to do
      Go(if reply.Applied() then s.(mems := s.mems - IdsOf(s.pcs[j].seen, j)) else s, j, Idle)
    case Start(j) => s.(up := s.up + IdsOf(s.mems, j))
  }

  predicate Possible(s: State, es: seq<Event>)
    decreases es
  {
    es == [] || (Enabled(s, es[0]) && Possible(Next(s, es[0]), es[1..]))
  }

  function Exec(s: State, es: seq<Event>): State
    requires Possible(s, es)
    decreases es
  {
    if es == [] then s else Exec(Next(s, es[0]), es[1..])
  }

  // ----- What every run keeps ---------------------------------------------------

  predicate Init(s: State) {
    && 1 <= s.limit
    && (forall i :: i in s.mems ==> i < s.next)
    && UniqueUrls(s.mems)
    && forall j :: j in s.pcs ==> s.pcs[j] == Idle
  }

  /** No two members with one peer URL. */
  predicate UniqueUrls(mems: Members) {
    forall a, b :: a in mems && b in mems && mems[a] == mems[b] ==> a == b
  }

  predicate PcOk(s: State, j: Ip, pc: Pc) {
    match pc
    case Waiting(first, ready) => ready ==> first.Keys <= s.up
    case Trying(first, tries) => tries < s.limit && first.Keys <= s.up
    case Adding(first, tries) => tries < s.limit && first.Keys <= s.up && j !in s.mems.Values
    case Relisting(first) => j in s.mems.Values && first.Keys <= s.up
    case BackingOff(first, seen) =>
      first.Keys <= s.up && j in s.mems.Values && IdsOf(seen, j) == IdsOf(s.mems, j) && |first| + 1 < |seen|
    case Joined => j in s.mems.Values
    case _ => true
  }

  predicate Inv(s: State) {
    && 1 <= s.limit
    && (forall i :: i in s.mems ==> i < s.next)
    && UniqueUrls(s.mems)
    && forall j :: j in s.pcs ==> PcOk(s, j, s.pcs[j])
  }

  /** A step touches at most its own address. */
  lemma StepFrame(s: State, e: Event, x: Ip)
    requires Inv(s) && Enabled(s, e) && x != e.j
    ensures IdsOf(Next(s, e).mems, x) == IdsOf(s.mems, x)
    ensures x in Next(s, e).mems.Values <==> x in s.mems.Values
    ensures x in s.pcs ==> Next(s, e).pcs[x] == s.pcs[x]
  {
    var t := Next(s, e);
    if e.Add? && e.reply.Applied() {
      assert s.next !in s.mems;
    }
    assert IdsOf(t.mems, x) == IdsOf(s.mems, x);
    InValues(s.mems, x);
    InValues(t.mems, x);
  }

  lemma InValues(mems: Members, x: Ip)
    ensures x in mems.Values <==> IdsOf(mems, x) != {}
  {
    if x in mems.Values {
      var i :| i in mems && mems[i] == x;
      assert i in IdsOf(mems, x);
    }
  }

  lemma OwnStep(s: State, e: Event)
    requires Inv(s) && Enabled(s, e)
    ensures PcOk(Next(s, e), e.j, Next(s, e).pcs[e.j])
    ensures UniqueUrls(Next(s, e).mems)
  {
    if e.Add? && e.reply.Applied() {
      var t := Next(s, e);
      assert t.mems[s.next] == e.j;
      assert forall i :: i in s.mems ==> s.mems[i] in s.mems.Values;
    }
  }

  lemma StepKeeps(s: State, e: Event)
    requires Inv(s) && Enabled(s, e)
    ensures Inv(Next(s, e))
  {
    OwnStep(s, e);
    var t := Next(s, e);
    forall x | x in t.pcs
      ensures PcOk(t, x, t.pcs[x])
    {
      if x != e.j {
        StepFrame(s, e, x);
      }
    }
  }

  /** In every run no two members share a peer URL, however many add replies were lost. */
  lemma {:induction false} RunKeeps(s: State, es: seq<Event>)
    requires Inv(s) && Possible(s, es)
    ensures Inv(Exec(s, es)) && UniqueUrls(Exec(s, es).mems)
    decreases es
  {
    if es != [] {
      StepKeeps(s, es[0]);
      RunKeeps(Next(s, es[0]), es[1..]);
    }
  }

  /**
   In every run from a quiet start, a joiner adds itself only when all members of its first
   listing have started.
   */
  lemma AddsOnlyToStarted(s: State, es: seq<Event>, j: Ip, reply: Reply)
    requires Init(s) && Possible(s, es) && Enabled(Exec(s, es), Add(j, reply))
    ensures Exec(s, es).pcs[j].first.Keys <= Exec(s, es).up
  {
    RunKeeps(s, es);
  }

  /** `Join` returns success only from a second listing that holds at most one member more than the first. */
  lemma SuccessIff(s: State, e: Event, j: Ip)
    requires Enabled(s, e) && j in s.pcs && !s.pcs[j].Joined?
    ensures Next(s, e).pcs[j].Joined? <==> e == Relist(j, true) && |s.mems| <= |s.pcs[j].first| + 1
  {
  }

  /** Member i of address x counts as started only once x itself has started. */
  lemma {:induction false} StartedByItself(s: State, es: seq<Event>, i: nat, x: Ip)
    requires Inv(s) && Possible(s, es) && i < s.next && i !in s.up && (i in s.mems ==> s.mems[i] == x)
    requires Start(x) !in es
    ensures i !in Exec(s, es).up
    decreases es
  {
    if es != [] {
      assert es[0] in es;
      StepKeeps(s, es[0]);
      StartedByItself(Next(s, es[0]), es[1..], i, x);
    }
  }

  /** Whoever is not a joiner, or has finished joining, keeps its membership for good. */
  lemma {:induction false} MembersStay(s: State, es: seq<Event>, x: Ip)
    requires Inv(s) && Possible(s, es)
    requires x !in s.pcs || s.pcs[x].Joined?
    ensures IdsOf(Exec(s, es).mems, x) == IdsOf(s.mems, x)
    ensures x in s.pcs ==> x in Exec(s, es).mems.Values
    decreases es
  {
    if es != [] {
      if es[0].j != x {
        StepFrame(s, es[0], x);
      }
      StepKeeps(s, es[0]);
      MembersStay(Next(s, es[0]), es[1..], x);
    }
  }

  /** A back-off that takes effect removes the joiner itself and leaves every other member as it was. */
  lemma BackOffRemovesOnlySelf(s: State, e: Event)
    requires Inv(s) && Enabled(s, e) && e.BackOff?
    ensures var t := Next(s, e);
            && (e.reply.Applied() ==> e.j !in t.mems.Values && |t.mems| == |s.mems| - 1)
            && (!e.reply.Applied() ==> t.mems == s.mems)
            && forall i :: i in s.mems && s.mems[i] != e.j ==> i in t.mems && t.mems[i] == s.mems[i]
  {
    var own := IdsOf(s.mems, e.j);
    InValues(s.mems, e.j);
    OneId(s.mems, e.j);
    if e.reply.Applied() {
      var t := Next(s, e);
      assert t.mems.Keys == s.mems.Keys - own;
      SplitSize(s.mems.Keys, own);
      assert s.mems.Keys * own == own;
      assert IdsOf(t.mems, e.j) == {};
      InValues(t.mems, e.j);
    }
  }

  lemma OneId(mems: Members, j: Ip)
    requires UniqueUrls(mems) && j in mems.Values
    ensures |IdsOf(mems, j)| == 1
  {
    var i :| i in mems && mems[i] == j;
    assert IdsOf(mems, j) == {i};
  }

  // ----- Conservation and serialisation -------------------------------------------

  /** Members added in a run by j, and by others; members removed. */
  function Mine(es: seq<Event>, j: Ip): nat
    decreases es
  {
    if es == [] then 0
    else (if es[0].Add? && es[0].j == j && es[0].reply.Applied() then 1 else 0) + Mine(es[1..], j)
  }

  function Others(es: seq<Event>, j: Ip): nat
    decreases es
  {
    if es == [] then 0
    else (if es[0].Add? && es[0].j != j && es[0].reply.Applied() then 1 else 0) + Others(es[1..], j)
  }

  function Removed(es: seq<Event>): nat
    decreases es
  {
    if es == [] then 0
    else (if es[0].BackOff? && es[0].reply.Applied() then 1 else 0) + Removed(es[1..])
  }

  lemma StepCount(s: State, e: Event)
    requires Inv(s) && Enabled(s, e)
    ensures var t := Next(s, e);
            && |t.mems| == |s.mems| + (if e.Add? && e.reply.Applied() then 1 else 0)
                                    - (if e.BackOff? && e.reply.Applied() then 1 else 0)
            && (!(e.BackOff? && e.reply.Applied()) ==> Grown(s.mems, t.mems))
  {
    var t := Next(s, e);
    if e.BackOff? {
      BackOffRemovesOnlySelf(s, e);
    } else if e.Add? && e.reply.Applied() {
      assert t.mems.Keys == s.mems.Keys + {s.next};
    }
  }

  /** Every member of a is still there in b. */
  predicate Grown(a: Members, b: Members) {
    forall i :: i in a ==> i in b && b[i] == a[i]
  }

  /** The membership is what it was, plus what was added, minus what was removed. */
  lemma {:induction false} Conservation(s: State, es: seq<Event>, j: Ip)
    requires Inv(s) && Possible(s, es)
    ensures |Exec(s, es).mems| == |s.mems| + Mine(es, j) + Others(es, j) - Removed(es)
    ensures Removed(es) == 0 ==> Grown(s.mems, Exec(s, es).mems)
    decreases es
  {
    if es != [] {
      StepKeeps(s, es[0]);
      StepCount(s, es[0]);
      Conservation(Next(s, es[0]), es[1..], j);
    }
  }

  predicate InCall(pc: Pc) {
    !pc.Idle? && !pc.Joined?
  }

  /** Inside a call the joiner remembers its first listing, and `was` says whether it is a member. */
  predicate Remembers(s: State, j: Ip, first: Members, was: nat) {
    && j in s.pcs
    && (InCall(s.pcs[j]) ==>
          s.pcs[j].first == first && !s.pcs[j].BackingOff? && was == if j in s.mems.Values then 1 else 0)
  }

  lemma OwnCallStep(s: State, e: Event, first: Members, was: nat)
    requires Inv(s) && Enabled(s, e) && Remembers(s, e.j, first, was) && !e.List? && !e.Relist?
    ensures Remembers(Next(s, e), e.j, first, was + if e.Add? && e.reply.Applied() then 1 else 0)
  {
    if e.Add? && e.reply.Applied() {
      assert Next(s, e).mems[s.next] == e.j;
    }
  }

  /**
   One call of `Join`, from its first listing on: while it lasts, the joiner remembers
   that listing, and has added itself once if it is a member, else not at all.
   */
  lemma {:induction false} OneCall(s: State, es: seq<Event>, j: Ip, first: Members, was: nat)
    requires Inv(s) && Possible(s, es) && Remembers(s, j, first, was)
    requires forall e :: e in es ==> !(e.List? && e.j == j) && !(e.Relist? && e.j == j)
    ensures Remembers(Exec(s, es), j, first, was + Mine(es, j))
    decreases es
  {
    if es != [] {
      var e := es[0];
      var t := Next(s, e);
      assert e in es;
      StepKeeps(s, e);
      if e.j != j {
        StepFrame(s, e, j);
        OneCall(t, es[1..], j, first, was);
      } else {
        OwnCallStep(s, e, first, was);
        OneCall(t, es[1..], j, first, was + if e.Add? && e.reply.Applied() then 1 else 0);
      }
    }
  }

  /** A successful `Join` call of j: first listing, anything in between, second listing accepted. */
  predicate JoinSucceeds(s: State, mid: seq<Event>, j: Ip) {
    && j in s.pcs && s.pcs[j].Waiting? && s.pcs[j].first == s.mems
    && Possible(s, mid)
    && (forall e :: e in mid ==> !(e.List? && e.j == j) && !(e.Relist? && e.j == j))
    && var t := Exec(s, mid);
       Enabled(t, Relist(j, true)) && Next(t, Relist(j, true)).pcs[j].Joined?
  }

  /**
   Serialised joins. If j was not in its first listing and `Join` succeeds, then between
   the two listings j was added once, and others were added at most as often as someone
   was removed. The second listing is the first plus j exactly when nobody of the first is
   gone from it, so in particular when nobody was removed.
   */
  lemma SerialisedJoin(s: State, mid: seq<Event>, j: Ip)
    requires Inv(s) && JoinSucceeds(s, mid, j) && j !in s.mems.Values
    ensures var t := Exec(s, mid);
            && Mine(mid, j) == 1
            && Others(mid, j) <= Removed(mid)
            && (Removed(mid) == 0 ==>
                  && Others(mid, j) == 0
                  && exists i: nat :: i !in s.mems && t.mems == s.mems[i := j])
            && ((exists i: nat :: i !in s.mems && t.mems == s.mems[i := j]) <==> Grown(s.mems, t.mems))
  {
    var t := Exec(s, mid);
    SecondListing(s, mid, j);
    Conservation(s, mid, j);
    if Grown(s.mems, t.mems) {
      SubsetSize(s.mems.Keys, t.mems.Keys);
      var i :| i in t.mems && t.mems[i] == j;
      assert i !in s.mems;
      GrewByOne(s.mems, t.mems, i);
    }
  }

  /** What the second listing finds. */
  lemma SecondListing(s: State, mid: seq<Event>, j: Ip)
    requires Inv(s) && JoinSucceeds(s, mid, j) && j !in s.mems.Values
    ensures Mine(mid, j) == 1 && j in Exec(s, mid).mems.Values && |Exec(s, mid).mems| <= |s.mems| + 1
  {
    OneCall(s, mid, j, s.mems, 0);
    RunKeeps(s, mid);
  }

  lemma GrewByOne(a: Members, b: Members, i: nat)
    requires Grown(a, b) && |b| == |a| + 1 && i in b && i !in a
    ensures b == a[i := b[i]]
  {
    assert a.Keys + {i} <= b.Keys;
    SubsetSize(a.Keys + {i}, b.Keys);
  }

  /** The exact way to lose a member: its own back-off, taking effect. */
  lemma LostOnlyByOwnBackOff(s: State, e: Event, x: Ip)
    requires Inv(s) && Enabled(s, e) && x in s.mems.Values
    ensures x !in Next(s, e).mems.Values <==> e.BackOff? && e.j == x && e.reply.Applied()
  {
    if e.j != x {
      StepFrame(s, e, x);
    } else if e.BackOff? {
      BackOffRemovesOnlySelf(s, e);
    } else {
      StepCount(s, e);
      var i :| i in s.mems && s.mems[i] == x;
      assert Next(s, e).mems[i] == x;
    }
  }

  /**
   All runs from a quiet start: addresses stay unique, and initial members that are not
   joiners themselves are never removed.
   */
  lemma JoinRunsAreSafe(s: State, es: seq<Event>)
    requires Init(s) && Possible(s, es)
    ensures UniqueUrls(Exec(s, es).mems)
    ensures forall i :: i in s.mems && s.mems[i] !in s.pcs ==> i in Exec(s, es).mems && Exec(s, es).mems[i] == s.mems[i]
  {
    RunKeeps(s, es);
    forall i | i in s.mems && s.mems[i] !in s.pcs
      ensures i in Exec(s, es).mems && Exec(s, es).mems[i] == s.mems[i]
    {
      MembersStay(s, es, s.mems[i]);
      assert i in IdsOf(s.mems, s.mems[i]);
      assert i in IdsOf(Exec(s, es).mems, s.mems[i]);
    }
  }

  // ----- Runs that show the limits --------------------------------------------------

  predicate Reaches(s: State, es: seq<Event>, t: State) {
    Possible(s, es) && Exec(s, es) == t
  }

  lemma {:induction false} ReachesConcat(s: State, es: seq<Event>, t: State, fs: seq<Event>, u: State)
    requires Reaches(s, es, t) && Reaches(t, fs, u)
    ensures Reaches(s, es + fs, u)
    decreases es
  {
    if es == [] {
      assert es + fs == fs;
    } else {
      ReachesConcat(Next(s, es[0]), es[1..], t, fs, u);
      assert (es + fs)[1..] == es[1..] + fs;
    }
  }

  lemma ReachesOne(s: State, e: Event)
    requires Enabled(s, e)
    ensures Reaches(s, [e], Next(s, e))
  {
    assert [e][1..] == [];
  }

  /** From the first listing to the added member, without a fault. */
  function AddItself(k: Ip): seq<Event> {
    [Ready(k, true)] + ([Check(k, true)] + [Add(k, Done)])
  }

  lemma AddItselfRun(s: State, k: Ip)
    requires k in s.pcs && s.pcs[k].Waiting? && s.pcs[k].ready && k !in s.mems.Values
    ensures Reaches(s, AddItself(k),
                    s.(mems := s.mems[s.next := k], next := s.next + 1, pcs := s.pcs[k := Relisting(s.pcs[k].first)]))
  {
    var first := s.pcs[k].first;
    var s1, s2 := Go(s, k, Trying(first, 0)), Go(s, k, Adding(first, 0));
    var s3 := s.(mems := s.mems[s.next := k], next := s.next + 1, pcs := s.pcs[k := Relisting(first)]);
    ReachesOne(s, Ready(k, true));
    ReachesOne(s1, Check(k, true));
    ReachesOne(s2, Add(k, Done));
    assert Next(s1, Check(k, true)) == s2 by { assert s1.pcs[k := Adding(first, 0)] == s2.pcs; }
    assert Next(s2, Add(k, Done)) == s3 by { assert s2.pcs[k := Relisting(first)] == s3.pcs; }
    ReachesConcat(s1, [Check(k, true)], s2, [Add(k, Done)], s3);
    ReachesConcat(s, [Ready(k, true)], s1, [Check(k, true)] + [Add(k, Done)], s3);
  }

  lemma AddedOne(mems: Members, next: nat, k: Ip)
    requires next !in mems
    ensures |mems[next := k]| == |mems| + 1
    ensures forall x :: x in mems[next := k].Values <==> x in mems.Values || x == k
  {
    var more := mems[next := k];
    assert more.Keys == mems.Keys + {next};
    assert more[next] == k;
    forall x | x in mems.Values
      ensures x in more.Values
    {
      var i :| i in mems && mems[i] == x;
      assert more[i] == x;
    }
  }

  /**
   Removals matter: while some l that has long been running is about to back off, k can join
   completely between the two listings of j, and both succeed. BackOffArises leads there.
   */
  lemma RemovalLetsAnotherIn(s: State, j: Ip, k: Ip, l: Ip) returns (mid: seq<Event>)
    requires Inv(s) && j != k && k != l && j != l && Crossing(s, l, j, k)
    ensures JoinSucceeds(s, mid, j)
    ensures k in Exec(s, mid).pcs && Exec(s, mid).pcs[k].Joined? && k in Exec(s, mid).mems.Values
  {
    var first := s.mems;
    var s1 := s.(mems := s.mems[s.next := k], next := s.next + 1, pcs := s.pcs[k := Relisting(first)]);
    AddItselfRun(s, k);
    AddedOne(s.mems, s.next, k);
    RunKeeps(s, AddItself(k));
    var s2, s3 := KJoinsLLeaves(s1, j, k, l, first);
    AddItselfRun(s3, j);
    AddedOne(s3.mems, s3.next, j);
    var s4 := s3.(mems := s3.mems[s3.next := j], next := s3.next + 1, pcs := s3.pcs[j := Relisting(first)]);
    var gap := [Relist(k, true)] + [BackOff(l, Done)];
    ReachesConcat(s1, gap, s3, AddItself(j), s4);
    mid := AddItself(k) + (gap + AddItself(j));
    ReachesConcat(s, AddItself(k), s1, gap + AddItself(j), s4);
    NoListing(j, k, l);
    Accepted(s4, j, first);
  }

  lemma NoListing(j: Ip, k: Ip, l: Ip)
    requires j != k && j != l
    ensures var mid := AddItself(k) + ([Relist(k, true)] + [BackOff(l, Done)] + AddItself(j));
            forall e :: e in mid ==> !(e.List? && e.j == j) && !(e.Relist? && e.j == j)
  {
  }

  lemma Accepted(s: State, j: Ip, first: Members)
    requires j in s.pcs && s.pcs[j] == Relisting(first) && |s.mems| == |first| + 1
    ensures Enabled(s, Relist(j, true)) && Next(s, Relist(j, true)).pcs[j].Joined?
  {
  }

  lemma KJoinsLLeaves(s: State, j: Ip, k: Ip, l: Ip, first: Members) returns (t: State, u: State)
    requires Inv(s) && j in s.pcs && k in s.pcs && l in s.pcs && j != k && k != l && j != l
    requires s.pcs[k] == Relisting(first) && s.pcs[l].BackingOff? && |s.mems| == |first| + 1 && j !in s.mems.Values
    ensures Reaches(s, [Relist(k, true)] + [BackOff(l, Done)], u) && Inv(u)
    ensures j in u.pcs && u.pcs[j] == s.pcs[j] && k in u.pcs && u.pcs[k].Joined?
    ensures k in u.mems.Values && j !in u.mems.Values && |u.mems| == |first|
  {
    t := Next(s, Relist(k, true));
    u := Next(t, BackOff(l, Done));
    ReachesOne(s, Relist(k, true));
    ReachesOne(t, BackOff(l, Done));
    ReachesConcat(s, [Relist(k, true)], t, [BackOff(l, Done)], u);
    StepKeeps(s, Relist(k, true));
    StepKeeps(t, BackOff(l, Done));
    BackOffRemovesOnlySelf(t, BackOff(l, Done));
    StepFrame(t, BackOff(l, Done), j);
    StepFrame(t, BackOff(l, Done), k);
  }

  /** A whole undisturbed join, up to the started member. */
  lemma FullJoin(s: State, p: Ip) returns (es: seq<Event>, t: State)
    requires Inv(s) && p in s.pcs && s.pcs[p].Idle? && p !in s.mems.Values && s.mems.Keys <= s.up
    ensures Reaches(s, es, t) && Inv(t) && t.mems == s.mems[s.next := p] && t.mems.Keys <= t.up
    ensures t.pcs == s.pcs[p := Joined] && |t.mems| == |s.mems| + 1
    ensures forall x :: x in t.mems.Values <==> x in s.mems.Values || x == p
  {
    var s1 := Go(s, p, Waiting(s.mems, true));
    ReachesOne(s, List(p, true));
    AddItselfRun(s1, p);
    AddedOne(s.mems, s.next, p);
    var s2 := s1.(mems := s.mems[s.next := p], next := s.next + 1, pcs := s1.pcs[p := Relisting(s.mems)]);
    Accepted(s2, p, s.mems);
    var s3 := Next(s2, Relist(p, true));
    ReachesOne(s2, Relist(p, true));
    t := Next(s3, Start(p));
    ReachesOne(s3, Start(p));
    es := [List(p, true)] + (AddItself(p) + ([Relist(p, true)] + [Start(p)]));
    ReachesConcat(s2, [Relist(p, true)], s3, [Start(p)], t);
    ReachesConcat(s1, AddItself(p), s2, [Relist(p, true)] + [Start(p)], t);
    ReachesConcat(s, [List(p, true)], s1, AddItself(p) + ([Relist(p, true)] + [Start(p)]), t);
    RunKeeps(s, es);
    assert s3.mems[s.next] == p && s.next in IdsOf(s3.mems, p);
    assert t.pcs == s.pcs[p := Joined];
  }

  // ----- Failed attempts --------------------------------------------------------------

  /** A failed attempt: the members could not be listed, or the add was refused. */
  function FailedTry(j: Ip, listed: bool): seq<Event> {
    if listed then [Check(j, true)] + [Add(j, Refused)] else [Check(j, false)]
  }

  function FailedTries(j: Ip, kinds: seq<bool>): seq<Event> {
    if kinds == [] then [] else FailedTry(j, kinds[0]) + FailedTries(j, kinds[1..])
  }

  lemma FailedTryRun(s: State, j: Ip, first: Members, n: nat, listed: bool)
    requires j in s.pcs && s.pcs[j] == Trying(first, n) && j !in s.mems.Values && n < s.limit
    ensures Reaches(s, FailedTry(j, listed), Go(s, j, if n + 1 < s.limit then Trying(first, n + 1) else Idle))
  {
    if listed {
      var t := Go(s, j, Adding(first, n));
      ReachesOne(s, Check(j, true));
      ReachesOne(t, Add(j, Refused));
      ReachesConcat(s, [Check(j, true)], t, [Add(j, Refused)], Next(t, Add(j, Refused)));
    } else {
      ReachesOne(s, Check(j, false));
    }
  }

  /** Failed attempts change nothing but their count, and at the limit the call is over. */
  lemma {:induction false} FailedTriesRun(s: State, j: Ip, first: Members, n: nat, kinds: seq<bool>)
    requires j in s.pcs && s.pcs[j] == Trying(first, n) && j !in s.mems.Values && n < s.limit
    requires n + |kinds| <= s.limit
    ensures Reaches(s, FailedTries(j, kinds),
                    Go(s, j, if n + |kinds| < s.limit then Trying(first, n + |kinds|) else Idle))
    decreases |kinds|
  {
    if kinds == [] {
      assert s.pcs[j := s.pcs[j]] == s.pcs;
    } else {
      FailedTryRun(s, j, first, n, kinds[0]);
      var t := Go(s, j, if n + 1 < s.limit then Trying(first, n + 1) else Idle);
      var u := Go(s, j, if n + |kinds| < s.limit then Trying(first, n + |kinds|) else Idle);
      if n + 1 < s.limit {
        FailedTriesRun(t, j, first, n + 1, kinds[1..]);
        assert t.pcs[j := u.pcs[j]] == u.pcs;
        ReachesConcat(s, FailedTry(j, kinds[0]), t, FailedTries(j, kinds[1..]), u);
      } else {
        assert FailedTry(j, kinds[0]) + [] == FailedTry(j, kinds[0]);
      }
    }
  }

  /** The first listing, the wait, and then these failed attempts. */
  function Begun(j: Ip, kinds: seq<bool>): seq<Event> {
    [List(j, true)] + ([Ready(j, true)] + FailedTries(j, kinds))
  }

  lemma BegunRun(s: State, j: Ip, kinds: seq<bool>)
    requires 1 <= s.limit && j in s.pcs && s.pcs[j].Idle? && j !in s.mems.Values && s.mems.Keys <= s.up
    requires |kinds| <= s.limit
    ensures Reaches(s, Begun(j, kinds), Go(s, j, if |kinds| < s.limit then Trying(s.mems, |kinds|) else Idle))
  {
    var s1, s2 := Go(s, j, Waiting(s.mems, true)), Go(s, j, Trying(s.mems, 0));
    var t := Go(s, j, if |kinds| < s.limit then Trying(s.mems, |kinds|) else Idle);
    ReachesOne(s, List(j, true));
    ReachesOne(s1, Ready(j, true));
    assert Next(s1, Ready(j, true)) == s2 by { assert s1.pcs[j := s2.pcs[j]] == s2.pcs; }
    FailedTriesRun(s2, j, s.mems, 0, kinds);
    assert s2.pcs[j := t.pcs[j]] == t.pcs;
    ReachesConcat(s1, [Ready(j, true)], s2, FailedTries(j, kinds), t);
    ReachesConcat(s, [List(j, true)], s1, [Ready(j, true)] + FailedTries(j, kinds), t);
  }

  /**
   Two attempts at each peer: after any failed attempts short of that, a joiner that meets no
   further fault still joins, and is listed once. With none left, `Join` ends as if it had
   not been called.
   */
  lemma JoinsAfterFailures(s: State, j: Ip, kinds: seq<bool>) returns (es: seq<Event>)
    requires Inv(s) && j in s.pcs && s.pcs[j].Idle? && j !in s.mems.Values && s.mems.Keys <= s.up
    requires |kinds| <= s.limit
    ensures Begun(j, kinds) <= es
    ensures |kinds| < s.limit ==>
              Reaches(s, es, s.(mems := s.mems[s.next := j], next := s.next + 1, pcs := s.pcs[j := Joined]))
    ensures |kinds| == s.limit ==> es == Begun(j, kinds) && Reaches(s, es, s)
  {
    BegunRun(s, j, kinds);
    es := Begun(j, kinds);
    if |kinds| == s.limit {
      assert s.pcs[j := Idle] == s.pcs;
    } else {
      var t := Go(s, j, Trying(s.mems, |kinds|));
      var u := s.(mems := s.mems[s.next := j], next := s.next + 1, pcs := s.pcs[j := Joined]);
      LastTryRun(t, j, s.mems, |kinds|);
      assert t.pcs[j := Joined] == u.pcs;
      es := es + LastTry(j);
      ReachesConcat(s, Begun(j, kinds), t, LastTry(j), u);
    }
  }

  /** An attempt that succeeds, and the second listing. */
  function LastTry(j: Ip): seq<Event> {
    [Check(j, true)] + ([Add(j, Done)] + [Relist(j, true)])
  }

  lemma LastTryRun(s: State, j: Ip, first: Members, n: nat)
    requires Inv(s) && j in s.pcs && s.pcs[j] == Trying(first, n) && j !in s.mems.Values && |s.mems| <= |first|
    ensures Reaches(s, LastTry(j), s.(mems := s.mems[s.next := j], next := s.next + 1, pcs := s.pcs[j := Joined]))
  {
    var s1 := Next(s, Check(j, true));
    var s2 := Next(s1, Add(j, Done));
    AddedOne(s.mems, s.next, j);
    var s3 := Next(s2, Relist(j, true));
    ReachesOne(s, Check(j, true));
    ReachesOne(s1, Add(j, Done));
    ReachesOne(s2, Relist(j, true));
    ReachesConcat(s1, [Add(j, Done)], s2, [Relist(j, true)], s3);
    ReachesConcat(s, [Check(j, true)], s1, [Add(j, Done)] + [Relist(j, true)], s3);
    assert s3.pcs == s.pcs[j := Joined];
  }

  /** An add whose reply is lost is not repeated: the next attempt finds the member. */
  lemma LostAddIsFound(s: State, j: Ip, first: Members, n: nat) returns (es: seq<Event>)
    requires Inv(s) && j in s.pcs && s.pcs[j] == Trying(first, n) && j !in s.mems.Values && n + 1 < s.limit
    ensures es == [Check(j, true)] + ([Add(j, Lost)] + [Check(j, true)])
    ensures Reaches(s, es, s.(mems := s.mems[s.next := j], next := s.next + 1, pcs := s.pcs[j := Relisting(first)]))
  {
    var s1 := Next(s, Check(j, true));
    var s2 := Next(s1, Add(j, Lost));
    AddedOne(s.mems, s.next, j);
    var s3 := Next(s2, Check(j, true));
    ReachesOne(s, Check(j, true));
    ReachesOne(s1, Add(j, Lost));
    ReachesOne(s2, Check(j, true));
    ReachesConcat(s1, [Add(j, Lost)], s2, [Check(j, true)], s3);
    es := [Check(j, true)] + ([Add(j, Lost)] + [Check(j, true)]);
    ReachesConcat(s, [Check(j, true)], s1, [Add(j, Lost)] + [Check(j, true)], s3);
    assert s3.pcs == s.pcs[j := Relisting(first)];
  }

  lemma TwoJoin(s: State, p: Ip, q: Ip) returns (es: seq<Event>, t: State)
    requires Inv(s) && p in s.pcs && q in s.pcs && p != q && s.pcs[p].Idle? && s.pcs[q].Idle? && s.mems.Keys <= s.up
    requires p !in s.mems.Values && q !in s.mems.Values
    ensures Reaches(s, es, t) && Inv(t) && t.mems.Keys <= t.up && |t.mems| == |s.mems| + 2
    ensures t.pcs == s.pcs[p := Joined][q := Joined]
    ensures forall x :: x in t.mems.Values <==> x in s.mems.Values || x == p || x == q
  {
    var ps, u := FullJoin(s, p);
    var qs;
    qs, t := FullJoin(u, q);
    ReachesConcat(s, ps, u, qs, t);
    es := ps + qs;
  }

  /** Someone is about to back off, and two newcomers have listed the members. */
  predicate Crossing(t: State, l: Ip, j: Ip, k: Ip) {
    && {l, j, k} <= t.pcs.Keys && t.pcs[l].BackingOff? && t.mems.Keys <= t.up
    && t.pcs[j] == Waiting(t.mems, true) && t.pcs[k] == Waiting(t.mems, true)
    && l in t.mems.Values && j !in t.mems.Values && k !in t.mems.Values
  }

  /**
   How a running member comes to back off: it calls `Join` again, and while it waits two
   others join one after the other and start. Then j and k list the members.
   */
  lemma BackOffArises(s: State, l: Ip, p: Ip, q: Ip, j: Ip, k: Ip) returns (es: seq<Event>, t: State)
    requires Init(s) && s.mems.Keys <= s.up && l in s.mems.Values
    requires l in s.pcs && p in s.pcs && q in s.pcs && j in s.pcs && k in s.pcs
    requires l != p && l != q && l != j && l != k && p != q && p != j && p != k && q != j && q != k && j != k
    requires p !in s.mems.Values && q !in s.mems.Values && j !in s.mems.Values && k !in s.mems.Values
    ensures Reaches(s, es, t) && Inv(t) && Crossing(t, l, j, k)
  {
    var s1 := Go(s, l, Waiting(s.mems, true));
    ReachesOne(s, List(l, true));
    RunKeeps(s, [List(l, true)]);
    var ps, s2 := TwoJoin(s1, p, q);
    ReachesConcat(s, [List(l, true)], s1, ps, s2);
    var fs;
    fs, t := BackOffMeets(s2, l, j, k, s.mems);
    es := [List(l, true)] + ps + fs;
    ReachesConcat(s, [List(l, true)] + ps, s2, fs, t);
  }

  lemma BackOffMeets(s: State, l: Ip, j: Ip, k: Ip, first: Members) returns (es: seq<Event>, t: State)
    requires Inv(s) && s.mems.Keys <= s.up && l in s.pcs && j in s.pcs && k in s.pcs && l != j && l != k && j != k
    requires s.pcs[l] == Waiting(first, true) && l in s.mems.Values && |s.mems| == |first| + 2
    requires s.pcs[j].Idle? && s.pcs[k].Idle? && j !in s.mems.Values && k !in s.mems.Values
    ensures Reaches(s, es, t) && Inv(t) && Crossing(t, l, j, k)
  {
    var fs, u := AboutToBackOff(s, l, first);
    var gs;
    gs, t := BothList(u, j, k);
    ReachesConcat(s, fs, u, gs, t);
    RunKeeps(u, gs);
    es := fs + gs;
  }

  lemma AboutToBackOff(s: State, l: Ip, first: Members) returns (es: seq<Event>, t: State)
    requires Inv(s) && l in s.pcs && s.pcs[l] == Waiting(first, true) && l in s.mems.Values && |s.mems| == |first| + 2
    ensures Reaches(s, es, t) && Inv(t) && t == Go(s, l, BackingOff(first, s.mems))
  {
    var s1 := Next(s, Ready(l, true));
    var s2 := Next(s1, Check(l, true));
    t := Next(s2, Relist(l, true));
    ReachesOne(s, Ready(l, true));
    ReachesOne(s1, Check(l, true));
    ReachesOne(s2, Relist(l, true));
    ReachesConcat(s1, [Check(l, true)], s2, [Relist(l, true)], t);
    es := [Ready(l, true)] + ([Check(l, true)] + [Relist(l, true)]);
    ReachesConcat(s, [Ready(l, true)], s1, [Check(l, true)] + [Relist(l, true)], t);
    RunKeeps(s, es);
    assert t.pcs == s.pcs[l := BackingOff(first, s.mems)];
  }

  lemma BothList(s: State, j: Ip, k: Ip) returns (es: seq<Event>, t: State)
    requires j in s.pcs && k in s.pcs && j != k && s.pcs[j].Idle? && s.pcs[k].Idle? && s.mems.Keys <= s.up
    ensures Reaches(s, es, t) && t == s.(pcs := s.pcs[j := Waiting(s.mems, true)][k := Waiting(s.mems, true)])
  {
    var s1 := Next(s, List(j, true));
    t := Next(s1, List(k, true));
    ReachesOne(s, List(j, true));
    ReachesOne(s1, List(k, true));
    es := [List(j, true)] + [List(k, true)];
    ReachesConcat(s, [List(j, true)], s1, [List(k, true)], t);
  }

  /**
   A member that calls `Join` again can lose its membership: all members are running, two
   others list the members with it, both add themselves while it waits, and it backs off.
   */
  lemma MemberBacksOff(s: State, j: Ip, k: Ip, l: Ip) returns (es: seq<Event>)
    requires Init(s) && s.mems.Keys <= s.up && j in s.mems.Values && k !in s.mems.Values && l !in s.mems.Values
    requires j in s.pcs && k in s.pcs && l in s.pcs && j != k && k != l && j != l
    ensures Possible(s, es) && j !in Exec(s, es).mems.Values
  {
    var s1 := Go(s, j, Waiting(s.mems, true));
    ReachesOne(s, List(j, true));
    RunKeeps(s, [List(j, true)]);
    var ls, s2 := BothList(s1, k, l);
    RunKeeps(s1, ls);
    ReachesConcat(s, [List(j, true)], s1, ls, s2);
    var fs := TwoJoinOneLeaves(s2, j, k, l);
    ReachesConcat(s, [List(j, true)] + ls, s2, fs, Exec(s2, fs));
    es := [List(j, true)] + ls + fs;
  }

  lemma TwoJoinOneLeaves(s: State, j: Ip, k: Ip, l: Ip) returns (es: seq<Event>)
    requires Inv(s) && j in s.pcs && k in s.pcs && l in s.pcs && j != k && k != l && j != l
    requires s.pcs[j] == Waiting(s.mems, true) && s.pcs[k] == Waiting(s.mems, true) && s.pcs[l] == Waiting(s.mems, true)
    requires j in s.mems.Values && k !in s.mems.Values && l !in s.mems.Values
    ensures Possible(s, es) && j !in Exec(s, es).mems.Values
  {
    AddItselfRun(s, k);
    AddedOne(s.mems, s.next, k);
    RunKeeps(s, AddItself(k));
    var s1 := Exec(s, AddItself(k));
    AddItselfRun(s1, l);
    AddedOne(s1.mems, s1.next, l);
    RunKeeps(s1, AddItself(l));
    var s2 := Exec(s1, AddItself(l));
    ReachesConcat(s, AddItself(k), s1, AddItself(l), s2);
    var fs, s3 := GivesUp(s2, j, s.mems);
    es := AddItself(k) + AddItself(l) + fs;
    ReachesConcat(s, AddItself(k) + AddItself(l), s2, fs, s3);
  }

  lemma GivesUp(s: State, j: Ip, first: Members) returns (es: seq<Event>, t: State)
    requires Inv(s) && j in s.pcs && s.pcs[j] == Waiting(first, true) && j in s.mems.Values && |s.mems| == |first| + 2
    ensures Reaches(s, es, t) && j !in t.mems.Values
  {
    var fs, u := AboutToBackOff(s, j, first);
    t := Next(u, BackOff(j, Done));
    BackOffRemovesOnlySelf(u, BackOff(j, Done));
    ReachesOne(u, BackOff(j, Done));
    ReachesConcat(s, fs, u, [BackOff(j, Done)], t);
    es := fs + [BackOff(j, Done)];
  }

  // ----- Who can lose its membership -------------------------------------------------

  /** The joiners that are not members at the start. */
  function Outsiders(s: State): set<Ip> {
    s.pcs.Keys - s.mems.Values
  }

  /** No listing of a call under way is smaller than the initial membership, and nobody backs off. */
  predicate Steady(pc: Pc, size: nat) {
    && !pc.BackingOff?
    && (InCall(pc) ==> |pc.first| >= size)
  }

  /** What runs with at most one outsider keep. */
  predicate Undisturbed(start: State, t: State) {
    && t.pcs.Keys == start.pcs.Keys && Grown(start.mems, t.mems)
    && (forall i :: i in t.mems && i !in start.mems ==> t.mems[i] in Outsiders(start))
    && (forall j :: j in t.pcs ==> Steady(t.pcs[j], |start.mems|))
  }

  lemma AtMostOneMore(old_: Members, mems: Members, outside: set<Ip>)
    requires Grown(old_, mems) && UniqueUrls(mems) && |outside| <= 1
    requires forall i :: i in mems && i !in old_ ==> mems[i] in outside
    ensures |old_| <= |mems| <= |old_| + 1
  {
    var more := mems.Keys - old_.Keys;
    assert mems.Keys == old_.Keys + more;
    assert |more| <= 1 by {
      if |more| > 1 {
        var a, b := TwoElements(more);
        SameElement(outside, mems[a], mems[b]);
        assert false;
      }
    }
  }

  lemma SameElement(s: set<Ip>, x: Ip, y: Ip)
    requires x in s && y in s && |s| <= 1
    ensures x == y
  {
    SubsetSize({x, y}, s);
  }

  /** What a step leaves of the membership. */
  lemma OutsiderMembers(start: State, t: State, e: Event)
    requires Undisturbed(start, t) && Inv(t) && Enabled(t, e)
    ensures Grown(start.mems, Next(t, e).mems)
    ensures forall i :: i in Next(t, e).mems && i !in start.mems ==> Next(t, e).mems[i] in Outsiders(start)
  {
    StepCount(t, e);
    assert Steady(t.pcs[e.j], |start.mems|);
    if e.Add? && e.reply.Applied() {
      NotInitial(start.mems, t.mems, e.j);
    }
  }

  lemma NotInitial(old_: Members, mems: Members, j: Ip)
    requires Grown(old_, mems) && j !in mems.Values
    ensures j !in old_.Values
  {
  }

  /** A step touches the place of nobody but its own joiner. */
  lemma PcsFrame(t: State, e: Event)
    requires Enabled(t, e)
    ensures Next(t, e).pcs.Keys == t.pcs.Keys
    ensures forall j :: j in t.pcs && j != e.j ==> Next(t, e).pcs[j] == t.pcs[j]
  {
  }

  lemma AllSteady(pcs: map<Ip, Pc>, after: map<Ip, Pc>, j: Ip, size: nat)
    requires pcs.Keys == after.Keys && j in after && Steady(after[j], size)
    requires forall k :: k in pcs ==> Steady(pcs[k], size)
    requires forall k :: k in pcs && k != j ==> after[k] == pcs[k]
    ensures forall k :: k in after ==> Steady(after[k], size)
  {
  }

  lemma OutsiderOwn(start: State, t: State, e: Event)
    requires Undisturbed(start, t) && Inv(t) && Enabled(t, e)
    requires |start.mems| <= |t.mems| <= |start.mems| + 1
    ensures Steady(Next(t, e).pcs[e.j], |start.mems|)
  {
    assert Steady(t.pcs[e.j], |start.mems|);
  }

  lemma OneOutsiderStep(start: State, t: State, e: Event)
    requires Undisturbed(start, t) && Inv(t) && |Outsiders(start)| <= 1 && Enabled(t, e)
    ensures Undisturbed(start, Next(t, e))
  {
    AtMostOneMore(start.mems, t.mems, Outsiders(start));
    OutsiderMembers(start, t, e);
    OutsiderOwn(start, t, e);
    PcsFrame(t, e);
    AllSteady(t.pcs, Next(t, e).pcs, e.j, |start.mems|);
  }

  lemma {:induction false} OneOutsiderRun(start: State, t: State, es: seq<Event>)
    requires Undisturbed(start, t) && Inv(t) && |Outsiders(start)| <= 1 && Possible(t, es)
    ensures Undisturbed(start, Exec(t, es))
    decreases es
  {
    if es != [] {
      StepKeeps(t, es[0]);
      OneOutsiderStep(start, t, es[0]);
      OneOutsiderRun(start, Next(t, es[0]), es[1..]);
    }
  }

  lemma Unlosable(s: State, es: seq<Event>, x: Ip)
    requires Init(s) && Possible(s, es) && x in s.mems.Values && (x !in s.pcs || |Outsiders(s)| <= 1)
    ensures x in Exec(s, es).mems.Values
  {
    var i :| i in s.mems && s.mems[i] == x;
    if x !in s.pcs {
      JoinRunsAreSafe(s, es);
    } else {
      OneOutsiderRun(s, s, es);
    }
    assert Exec(s, es).mems[i] == x;
  }

  /**
   All members running, some run can cost member x its membership if and only if x is itself
   among those that call `Join` and at least two others are that are not members yet.
   */
  lemma LosableIff(s: State, x: Ip)
    requires Init(s) && s.mems.Keys <= s.up && x in s.mems.Values
    ensures (exists es :: Possible(s, es) && x !in Exec(s, es).mems.Values) <==> x in s.pcs && |Outsiders(s)| >= 2
  {
    if x in s.pcs && |Outsiders(s)| >= 2 {
      var k, l := TwoElements(Outsiders(s));
      var es := MemberBacksOff(s, x, k, l);
      assert Possible(s, es) && x !in Exec(s, es).mems.Values;
    } else {
      forall es | Possible(s, es)
        ensures x in Exec(s, es).mems.Values
      {
        Unlosable(s, es, x);
      }
    }
  }
}

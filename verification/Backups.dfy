/**
 The backup index over an object store (pkg/index/snapshot.go). Store calls may fail, or
 take effect and still report an error; a crash is a call after which nothing happens any
 more, followed by a new process with an empty memory. The store keeps a ghost history of
 its contents, so that what holds after every single operation can be stated.
 */
module Backups {
  import opened Basics
  import opened TimeFormat
  import opened BackupOrder

  /** What is stored: the index, or one snapshot file. */
  datatype Object = Index(copies: seq<Backup>, spec: Option<string>) | File(content: string)

  type Objects = map<string, Object>

  /** The index as a process holds it. */
  datatype Memory = Memory(copies: seq<Backup>, spec: Option<string>)

  /** The inputs of one `Backup` call, and the minute it was made in. */
  datatype Call = Call(spec: string, content: string, at: Minute)

  function Base(name: string): string {
    "wdrip/backup" + "/" + name
  }

  function IndexLocation(name: string): string {
    Base(name) + "/index.json"
  }

  function Path(name: string, b: Backup): string {
    Base(name) + "/" + b.identity + "/snapshot.db"
  }

  lemma PathInjective(name: string, a: Backup, b: Backup)
    requires Path(name, a) == Path(name, b)
    ensures a == b
  {
    var n := |Base(name)| + 1;
    assert |a.identity| == |b.identity|;
    assert Path(name, a)[n..n + |a.identity|] == a.identity;
    assert Path(name, b)[n..n + |b.identity|] == b.identity;
  }

  /** Clusters do not share: of identities of one length, paths tell name and identity apart, and index locations the name. */
  lemma ClustersApart(m: string, n: string, a: Backup, b: Backup)
    requires |a.identity| == |b.identity|
    ensures Path(m, a) == Path(n, b) <==> m == n && a == b
    ensures IndexLocation(m) == IndexLocation(n) <==> m == n
  {
    var k := |"wdrip/backup/"|;
    if Path(m, a) == Path(n, b) {
      assert |m| == |n|;
      assert Path(m, a)[k..k + |m|] == m && Path(n, b)[k..k + |n|] == n;
      PathInjective(m, a, b);
    }
    if IndexLocation(m) == IndexLocation(n) {
      assert |m| == |n|;
      assert IndexLocation(m)[k..k + |m|] == m && IndexLocation(n)[k..k + |n|] == n;
    }
  }

  lemma PathNotIndex(name: string, b: Backup)
    ensures Path(name, b) != IndexLocation(name)
  {
    var p, q := Path(name, b), IndexLocation(name);
    assert p[|p| - 1] == 'b' && q[|q| - 1] == 'n';
  }

  /** The newest copies can all be fetched. */
  predicate Good(name: string, objs: Objects, copies: seq<Backup>) {
    forall b :: b in Newest(copies) ==> Path(name, b) in objs && objs[Path(name, b)].File?
  }

  /** The newest min(4, n) copies of the stored index have their snapshot in the store. */
  predicate Safe(name: string, objs: Objects) {
    IndexLocation(name) in objs ==>
      && objs[IndexLocation(name)].Index?
      && Good(name, objs, objs[IndexLocation(name)].copies)
  }

  /** What the next operation will work on: the stored index, or the memory while there is none. */
  function Current(name: string, objs: Objects, mem: Memory): Memory {
    var loc := IndexLocation(name);
    if loc in objs && objs[loc].Index? then Memory(objs[loc].copies, objs[loc].spec) else mem
  }

  /** The identity of a copy is the minute of its call. */
  predicate Dated(b: Backup, call: Call) {
    call.at.Valid() && b.identity == Format(call.at)
  }

  /** File and spec of the newest copy stem from one `Backup` call, and so does every file. */
  predicate Paired(name: string, objs: Objects, cur: Memory, calls: map<string, Call>) {
    && (forall b :: b in cur.copies ==> b.identity in calls && Dated(b, calls[b.identity]))
    && (forall b :: b in cur.copies && Path(name, b) in objs ==>
          objs[Path(name, b)] == File(calls[b.identity].content))
    && (cur.copies != [] ==>
          var newest := SortDesc(cur.copies)[0];
          newest.identity in calls && cur.spec == Some(calls[newest.identity].spec))
  }

  // ----- Single store operations -----------------------------------------------------

  lemma PutFileKeeps(name: string, objs: Objects, copies: seq<Backup>, b: Backup, content: string)
    requires Safe(name, objs) && Good(name, objs, copies)
    ensures var after := objs[Path(name, b) := File(content)];
            Safe(name, after) && Good(name, after, copies)
  {
    PathNotIndex(name, b);
  }

  lemma PutIndexKeeps(name: string, objs: Objects, copies: seq<Backup>, spec: Option<string>)
    requires Good(name, objs, copies)
    ensures Safe(name, objs[IndexLocation(name) := Index(copies, spec)])
    ensures Good(name, objs[IndexLocation(name) := Index(copies, spec)], copies)
  {
    forall b | b in Newest(copies)
      ensures Path(name, b) != IndexLocation(name)
    {
      PathNotIndex(name, b);
    }
  }

  lemma AppendKeeps(name: string, objs: Objects, copies: seq<Backup>, b: Backup)
    requires Good(name, objs, copies) && Path(name, b) in objs && objs[Path(name, b)].File?
    ensures Good(name, objs, copies + [b])
  {
    forall x | x in Newest(copies + [b])
      ensures Path(name, x) in objs && objs[Path(name, x)].File?
    {
      NewestAfterAppend(copies, b, x);
    }
  }

  /** The copies that are kept share no identity with those that go. */
  predicate Separate(copies: seq<Backup>) {
    |copies| <= KEEP_COPIES_CNT || SortDesc(copies)[3].identity != SortDesc(copies)[4].identity
  }

  lemma DistinctSeparate(copies: seq<Backup>)
    requires DistinctCopies(copies)
    ensures Separate(copies)
  {
    SortDistinct(copies);
    if |copies| > KEEP_COPIES_CNT {
      assert SortDesc(copies)[3] != SortDesc(copies)[4];
    }
  }

  lemma DeleteKeeps(name: string, objs: Objects, copies: seq<Backup>, k: nat)
    requires Good(name, objs, copies) && Separate(copies)
    requires KEEP_COPIES_CNT <= k < |SortDesc(copies)|
    ensures Good(name, objs - {Path(name, SortDesc(copies)[k])}, copies)
  {
    var s := SortDesc(copies);
    SortDescends(copies);
    assert s[k] in s[KEEP_COPIES_CNT..];
    forall b | b in Newest(copies)
      ensures Path(name, b) != Path(name, s[k])
    {
      KeptIsNotDeleted(name, s, b);
    }
  }

  // ----- Without distinct identities ---------------------------------------------------

  /** The store once every copy beyond the fourth has been deleted. */
  function Collected(name: string, objs: Objects, copies: seq<Backup>): Objects
    requires |copies| > KEEP_COPIES_CNT
  {
    objs - set b | b in SortDesc(copies)[KEEP_COPIES_CNT..] :: Path(name, b)
  }

  /**
   Identities have minute resolution. If two copies share one, collection can delete the
   file of a copy it keeps: that happens exactly when the fourth and the fifth newest
   have the same identity.
   */
  lemma CollectionIsSafeIff(name: string, objs: Objects, copies: seq<Backup>)
    requires |copies| > KEEP_COPIES_CNT && Good(name, objs, copies)
    ensures Good(name, Collected(name, objs, copies), Newest(copies)) <==>
            Separate(copies)
  {
    var s := SortDesc(copies);
    var after := Collected(name, objs, copies);
    SortDescends(copies);
    NewestOfSorted(copies);
    if s[3].identity == s[4].identity {
      assert s[4] in s[KEEP_COPIES_CNT..];
      assert s[3] == s[4] && s[3] in Newest(copies);
      assert Path(name, s[3]) !in after;
    } else {
      forall b | b in Newest(copies)
        ensures Path(name, b) in after
      {
        KeptIsNotDeleted(name, s, b);
      }
    }
  }

  /** A copy made in minute m of some hour. */
  function At(m: nat): Backup {
    Backup(Format(Minute(2024, 1, 1, 0, m)))
  }

  /** Five copies, of which the fourth and the fifth newest were made in one minute. */
  function Five(): seq<Backup> {
    [At(3), At(2), At(1), At(0), At(0)]
  }

  /** Collecting them loses the file of one that is kept. */
  lemma SharedMinute() returns (objs: Objects)
    ensures Good("c", objs, Five()) && !Separate(Five())
    ensures !Good("c", Collected("c", objs, Five()), Newest(Five()))
  {
    objs := AllFiles("c", Five());
    FiveSorted();
    CollectionIsSafeIff("c", objs, Five());
  }

  lemma FiveSorted()
    ensures SortDesc(Five()) == Five()
  {
    var ms := [3, 2, 1, 0, 0];
    forall i, j | 0 <= i < j < |Five()|
      ensures !Less(Five()[i].identity, Five()[j].identity)
    {
      FormatOrder(Minute(2024, 1, 1, 0, ms[i]), Minute(2024, 1, 1, 0, ms[j]));
    }
    SortSorted(Five());
  }

  lemma {:induction false} AllFiles(name: string, copies: seq<Backup>) returns (objs: Objects)
    ensures Good(name, objs, copies)
  {
    objs := map b | b in copies :: Path(name, b) := File("");
    SameElements(SortDesc(copies), copies);
    forall b | b in Newest(copies)
      ensures Path(name, b) in objs && objs[Path(name, b)].File?
    {
      assert b in SortDesc(copies) && b in copies;
    }
  }

  lemma KeptIsNotDeleted(name: string, s: seq<Backup>, b: Backup)
    requires Descending(s) && |s| > KEEP_COPIES_CNT && s[3].identity != s[4].identity && b in s[..KEEP_COPIES_CNT]
    ensures forall x :: x in s[KEEP_COPIES_CNT..] ==> Path(name, x) != Path(name, b)
  {
    forall x | x in s[KEEP_COPIES_CNT..]
      ensures Path(name, x) != Path(name, b)
    {
      if Path(name, x) == Path(name, b) {
        PathInjective(name, x, b);
        var i :| 0 <= i < KEEP_COPIES_CNT && s[i] == b;
        var j :| KEEP_COPIES_CNT <= j < |s| && s[j] == b;
        Sandwich(s, i, j);
      }
    }
  }

  lemma Sandwich(s: seq<Backup>, i: nat, j: nat)
    requires Descending(s) && i <= 3 && 4 <= j < |s| && s[i] == s[j]
    ensures s[3].identity == s[4].identity
  {
    var x := s[i].identity;
    assert !Less(x, s[3].identity) && !Less(s[3].identity, x) by {
      LessIrreflexive(x);
    }
    assert !Less(x, s[4].identity) && !Less(s[4].identity, x) by {
      LessIrreflexive(x);
    }
    LessTotal(x, s[3].identity);
    LessTotal(x, s[4].identity);
  }

  // ----- Pairing ----------------------------------------------------------------------

  lemma AppendPairs(name: string, objs: Objects, cur: Memory, calls: map<string, Call>, b: Backup, call: Call)
    requires Paired(name, objs, cur, calls) && b !in cur.copies && Dated(b, call)
    requires Path(name, b) in objs && objs[Path(name, b)] == File(call.content)
    requires forall x :: x in cur.copies ==> Less(x.identity, b.identity)
    ensures Paired(name, objs, Memory(cur.copies + [b], Some(call.spec)), calls[b.identity := call])
  {
    LatestFirst(cur.copies, b);
    var more := calls[b.identity := call];
    forall x | x in cur.copies + [b]
      ensures x.identity in more && Dated(x, more[x.identity])
      ensures Path(name, x) in objs ==> objs[Path(name, x)] == File(more[x.identity].content)
    {
      assert x in cur.copies ==> x.identity != b.identity;
    }
  }

  /** A file put under a new identity, and a call noted for it, disturb no listed copy. */
  lemma NewFilePairs(name: string, objs: Objects, cur: Memory, calls: map<string, Call>, b: Backup, call: Call)
    requires Paired(name, objs, cur, calls) && b !in cur.copies
    ensures Paired(name, objs, cur, calls[b.identity := call])
    ensures Paired(name, objs[Path(name, b) := File(call.content)], cur, calls[b.identity := call])
  {
    SameElements(SortDesc(cur.copies), cur.copies);
    forall x | x in cur.copies
      ensures x.identity != b.identity && Path(name, x) != Path(name, b)
    {
      if Path(name, x) == Path(name, b) {
        PathInjective(name, x, b);
      }
    }
  }

  /** Deleting objects and dropping all but the newest copies keep the pairing. */
  lemma FewerPair(name: string, objs: Objects, cur: Memory, calls: map<string, Call>, gone: set<string>)
    requires Paired(name, objs, cur, calls)
    ensures Paired(name, objs - gone, cur, calls)
    ensures Paired(name, objs, Memory(SortDesc(cur.copies), cur.spec), calls)
    ensures Paired(name, objs, Memory(Newest(cur.copies), cur.spec), calls)
  {
    SameElements(SortDesc(cur.copies), cur.copies);
    SortDescends(cur.copies);
    SortSorted(SortDesc(cur.copies));
    SortSorted(Newest(cur.copies));
  }

  lemma IndexPutPairs(name: string, objs: Objects, cur: Memory, calls: map<string, Call>)
    requires Paired(name, objs, cur, calls)
    ensures Paired(name, objs[IndexLocation(name) := Index(cur.copies, cur.spec)], cur, calls)
  {
    forall b | b in cur.copies
      ensures Path(name, b) != IndexLocation(name)
    {
      PathNotIndex(name, b);
    }
  }

  // ----- Operations on store and memory -------------------------------------------------

  /** The stored index is safe, and so is what the next operation works on. */
  predicate Sound(name: string, objs: Objects, mem: Memory) {
    Safe(name, objs) && Good(name, objs, Current(name, objs, mem).copies)
  }

  predicate Matched(name: string, objs: Objects, mem: Memory, calls: map<string, Call>) {
    Paired(name, objs, Current(name, objs, mem), calls)
  }

  /** Uploading the snapshot file; pairing needs an identity that is not listed yet. */
  lemma UploadOk(name: string, objs: Objects, mem: Memory, b: Backup, call: Call, calls: map<string, Call>)
    ensures var after := objs[Path(name, b) := File(call.content)];
            && Current(name, after, mem) == Current(name, objs, mem)
            && (Sound(name, objs, mem) ==> Sound(name, after, mem))
            && (Matched(name, objs, mem, calls) && b !in Current(name, objs, mem).copies ==>
                  && Matched(name, objs, mem, calls[b.identity := call])
                  && Matched(name, after, mem, calls[b.identity := call]))
  {
    var cur := Current(name, objs, mem);
    PathNotIndex(name, b);
    if Sound(name, objs, mem) {
      PutFileKeeps(name, objs, cur.copies, b, call.content);
    }
    if Matched(name, objs, mem, calls) && b !in cur.copies {
      NewFilePairs(name, objs, cur, calls, b, call);
    }
  }

  /** The index in memory, once the new copy has been appended to what was current. */
  lemma AppendOk(name: string, objs: Objects, cur: Memory, b: Backup, spec: string)
    requires Sound(name, objs, cur) && Current(name, objs, cur) == cur
    requires Path(name, b) in objs && objs[Path(name, b)].File?
    ensures var more := Memory(cur.copies + [b], Some(spec));
            Good(name, objs, more.copies) && Sound(name, objs, more)
  {
    AppendKeeps(name, objs, cur.copies, b);
  }

  lemma AppendMatches(name: string, objs: Objects, cur: Memory, b: Backup, call: Call, calls: map<string, Call>)
    requires Current(name, objs, cur) == cur && b !in cur.copies && Dated(b, call)
    requires Path(name, b) in objs && objs[Path(name, b)] == File(call.content)
    requires Paired(name, objs, cur, calls) && calls == calls[b.identity := call]
    requires forall x :: x in cur.copies ==> Less(x.identity, b.identity)
    ensures var more := Memory(cur.copies + [b], Some(call.spec));
            && Matched(name, objs, more, calls)
            && Matched(name, objs[IndexLocation(name) := Index(more.copies, more.spec)], more, calls)
  {
    var more := Memory(cur.copies + [b], Some(call.spec));
    AppendPairs(name, objs, cur, calls, b, call);
    IndexPutPairs(name, objs, more, calls);
  }

  /** Later than every copy that is listed. */
  predicate LaterThanAll(b: Backup, copies: seq<Backup>) {
    forall x :: x in copies ==> Less(x.identity, b.identity)
  }

  lemma LaterIsNew(b: Backup, copies: seq<Backup>)
    requires LaterThanAll(b, copies)
    ensures b !in copies
  {
    LessIrreflexive(b.identity);
  }

  /** Appending the copy and writing the index, whether or not the write takes effect. */
  lemma SaveOk(name: string, objs: Objects, cur: Memory, b: Backup, call: Call, calls: map<string, Call>)
    requires Current(name, objs, cur) == cur && Dated(b, call)
    requires Path(name, b) in objs && objs[Path(name, b)] == File(call.content)
    requires calls == calls[b.identity := call]
    ensures var more := Memory(cur.copies + [b], Some(call.spec));
            var after := objs[IndexLocation(name) := Index(more.copies, more.spec)];
            && Current(name, after, more) == more
            && (Current(name, objs, more) == cur || Current(name, objs, more) == more)
            && (Sound(name, objs, cur) ==> Sound(name, objs, more) && Sound(name, after, more))
            && (Matched(name, objs, cur, calls) && LaterThanAll(b, cur.copies) ==>
                  Matched(name, objs, more, calls) && Matched(name, after, more, calls))
  {
    if Sound(name, objs, cur) {
      AppendOk(name, objs, cur, b, call.spec);
      PutIndexKeeps(name, objs, cur.copies + [b], Some(call.spec));
    }
    if Matched(name, objs, cur, calls) && LaterThanAll(b, cur.copies) {
      LaterIsNew(b, cur.copies);
      AppendMatches(name, objs, cur, b, call, calls);
    }
  }

  /** Sorting the copies in memory. */
  lemma SortOk(name: string, objs: Objects, cur: Memory, calls: map<string, Call>)
    requires Current(name, objs, cur) == cur
    ensures var mem := Memory(SortDesc(cur.copies), cur.spec);
            && (Current(name, objs, mem) == cur || Current(name, objs, mem) == mem)
            && SortDesc(Current(name, objs, mem).copies) == mem.copies && Current(name, objs, mem).spec == mem.spec
            && (Sound(name, objs, cur) ==> Sound(name, objs, mem))
            && (Matched(name, objs, cur, calls) ==> Matched(name, objs, mem, calls))
  {
    NewestOfSorted(cur.copies);
    SortDescends(cur.copies);
    SortSorted(SortDesc(cur.copies));
    if Matched(name, objs, cur, calls) {
      FewerPair(name, objs, cur, calls, {});
    }
  }

  /** Whatever is not the index can go without changing what is current. */
  lemma CurrentWithout(name: string, objs: Objects, mem: Memory, key: string)
    requires key != IndexLocation(name)
    ensures Current(name, objs - {key}, mem) == Current(name, objs, mem)
    ensures IndexLocation(name) in objs ==>
              IndexLocation(name) in objs - {key} && (objs - {key})[IndexLocation(name)] == objs[IndexLocation(name)]
  {
  }

  /** Deleting the file of one copy beyond the fourth. */
  lemma DropOk(name: string, objs: Objects, mem: Memory, k: nat, calls: map<string, Call>)
    requires SortDesc(Current(name, objs, mem).copies) == mem.copies && KEEP_COPIES_CNT <= k < |mem.copies|
    ensures var after := objs - {Path(name, mem.copies[k])};
            && Current(name, after, mem) == Current(name, objs, mem)
            && (Sound(name, objs, mem) && Separate(Current(name, objs, mem).copies) ==> Sound(name, after, mem))
            && (Matched(name, objs, mem, calls) ==> Matched(name, after, mem, calls))
  {
    var cur, key := Current(name, objs, mem), Path(name, mem.copies[k]);
    PathNotIndex(name, mem.copies[k]);
    CurrentWithout(name, objs, mem, key);
    if Sound(name, objs, mem) && Separate(cur.copies) {
      DeleteKeeps(name, objs, cur.copies, k);
    }
    if Matched(name, objs, mem, calls) {
      FewerPair(name, objs, cur, calls, {key});
    }
  }

  lemma TrimSound(name: string, objs: Objects, mem: Memory)
    requires Sound(name, objs, mem) && SortDesc(Current(name, objs, mem).copies) == mem.copies
    ensures var kept := Memory(Top(mem.copies), mem.spec);
            var after := objs[IndexLocation(name) := Index(kept.copies, kept.spec)];
            Sound(name, objs, kept) && Sound(name, after, kept)
  {
    var cur := Current(name, objs, mem);
    var kept := Memory(Newest(cur.copies), mem.spec);
    NewestOfSorted(cur.copies);
    assert Good(name, objs, kept.copies);
    PutIndexKeeps(name, objs, kept.copies, kept.spec);
  }

  /** Keeping the newest copies and writing the index, whether or not the write takes effect. */
  lemma TrimOk(name: string, objs: Objects, mem: Memory, calls: map<string, Call>)
    requires SortDesc(Current(name, objs, mem).copies) == mem.copies && Current(name, objs, mem).spec == mem.spec
    ensures var kept := Memory(Top(mem.copies), mem.spec);
            var after := objs[IndexLocation(name) := Index(kept.copies, kept.spec)];
            && Current(name, after, kept) == kept
            && (Current(name, objs, kept) == Current(name, objs, mem) || Current(name, objs, kept) == kept)
            && Newest(kept.copies) == kept.copies
            && (Sound(name, objs, mem) ==> Sound(name, objs, kept) && Sound(name, after, kept))
            && (Matched(name, objs, mem, calls) ==> Matched(name, objs, kept, calls) && Matched(name, after, kept, calls))
  {
    var cur := Current(name, objs, mem);
    var kept := Memory(Top(mem.copies), mem.spec);
    NewestOfSorted(cur.copies);
    if Sound(name, objs, mem) {
      TrimSound(name, objs, mem);
    }
    if Matched(name, objs, mem, calls) {
      FewerPair(name, objs, cur, calls, {});
      IndexPutPairs(name, objs, kept, calls);
    }
  }

  /** If the copies that stay share an identity with one that went, a file is missing. */
  lemma SharedIsUnsound(name: string, objs: Objects, copies: seq<Backup>, mem: Memory)
    requires !Separate(copies) && Current(name, objs, mem).copies == Newest(copies)
    requires Path(name, SortDesc(copies)[4]) !in objs
    ensures !Sound(name, objs, mem)
  {
    NewestOfSorted(copies);
    var s := SortDesc(copies);
    assert s[3] == s[4] && Newest(copies)[3] == s[3];
    assert s[3] in Newest(Newest(copies));
  }
}

/** The index as the code runs it: `Backup`, `BackupGC` and `LatestBackup` (pkg/index/snapshot.go). */
module SnapshotIndexes {
  import opened Basics
  import opened TimeFormat
  import opened BackupOrder
  import opened Backups

  datatype StoreCall = PutCall(key: string) | DeleteCall(key: string)

  /** One delete call for each of these copies, in order. */
  function DeleteCalls(name: string, copies: seq<Backup>): seq<StoreCall> {
    seq(|copies|, i requires 0 <= i < |copies| => DeleteCall(Path(name, copies[i])))
  }

  /** The copies beyond the fourth. */
  function Beyond(copies: seq<Backup>): seq<Backup> {
    if |copies| <= KEEP_COPIES_CNT then [] else copies[KEEP_COPIES_CNT..]
  }

  /** Since `before`, the calls for the first k of the sorted copies were made. */
  ghost predicate Logged(before: seq<StoreCall>, name: string, copies: seq<Backup>, k: nat, log: seq<StoreCall>)
    requires k <= |copies|
  {
    log == before + DeletesUpTo(name, copies, k)
  }

  lemma FewDeletes(before: seq<StoreCall>, name: string, copies: seq<Backup>, k: nat)
    requires k < |copies| && k < KEEP_COPIES_CNT
    ensures Logged(before, name, copies, k, before) && Logged(before, name, copies, k + 1, before)
  {
  }

  lemma DeleteLogged(before: seq<StoreCall>, name: string, copies: seq<Backup>, k: nat, log: seq<StoreCall>)
    requires KEEP_COPIES_CNT <= k < |copies| && Logged(before, name, copies, k, log)
    ensures Logged(before, name, copies, k + 1, log + [DeleteCall(Path(name, copies[k]))])
  {
    DeletesNext(name, copies, k);
  }

  lemma ThenIndex(before: seq<StoreCall>, name: string, copies: seq<Backup>, log: seq<StoreCall>, after: seq<StoreCall>)
    requires |copies| > KEEP_COPIES_CNT && |SortDesc(copies)| == |copies|
    requires Logged(before, name, SortDesc(copies), |copies|, log) && after == log + [PutCall(IndexLocation(name))]
    ensures after == before + CollectionCalls(name, copies)
  {
    DeletesNext(name, SortDesc(copies), 0);
  }

  /** The calls made for the first k of the sorted copies. */
  function DeletesUpTo(name: string, copies: seq<Backup>, k: nat): seq<StoreCall>
    requires k <= |copies|
  {
    DeleteCalls(name, Beyond(copies[..k]))
  }

  lemma DeletesNext(name: string, copies: seq<Backup>, k: nat)
    requires k < |copies|
    ensures DeletesUpTo(name, copies, 0) == [] && DeletesUpTo(name, copies, |copies|) == DeleteCalls(name, Beyond(copies))
    ensures DeletesUpTo(name, copies, k + 1) ==
            DeletesUpTo(name, copies, k) + if k < KEEP_COPIES_CNT then [] else [DeleteCall(Path(name, copies[k]))]
  {
    assert copies[..|copies|] == copies;
    assert copies[..k + 1] == copies[..k] + [copies[k]];
  }

  /** The calls of a whole collection: newest first, delete all beyond the fourth, then write the index. */
  function CollectionCalls(name: string, copies: seq<Backup>): seq<StoreCall> {
    if |copies| <= KEEP_COPIES_CNT then []
    else DeleteCalls(name, Beyond(SortDesc(copies))) + [PutCall(IndexLocation(name))]
  }

  /** An object store whose calls may fail. */
  class ObjectStore {
    var objs: Objects
    ghost var history: seq<Objects>  // the contents after each call that may write
    ghost var faults: nat            // how many calls have reported an error
    ghost var log: seq<StoreCall>    // the calls that may write, whatever became of them

    constructor ()
      ensures objs == map[] && history == [] && faults == 0 && log == []
    {
      objs, history, faults, log := map[], [], 0, [];
    }

    method Put(key: string, obj: Object) returns (reply: Reply)
      modifies this
      ensures objs == if reply.Applied() then old(objs)[key := obj] else old(objs)
      ensures history == old(history) + [objs] && log == old(log) + [PutCall(key)]
      ensures faults == old(faults) + if reply.Done? then 0 else 1
    {
      reply := *;
      if reply.Applied() {
        objs := objs[key := obj];
      }
      history, log := history + [objs], log + [PutCall(key)];
      faults := faults + if reply.Done? then 0 else 1;
    }

    method Delete(key: string) returns (reply: Reply)
      modifies this
      ensures objs == if reply.Applied() then old(objs) - {key} else old(objs)
      ensures history == old(history) + [objs] && log == old(log) + [DeleteCall(key)]
      ensures faults == old(faults) + if reply.Done? then 0 else 1
    {
      reply := *;
      if reply.Applied() {
        objs := objs - {key};
      }
      history, log := history + [objs], log + [DeleteCall(key)];
      faults := faults + if reply.Done? then 0 else 1;
    }

    /** A missing key is an answer of its own, told apart from other errors by its text. */
    method Get(key: string) returns (r: Result<Option<Object>>)
      modifies this`faults
      ensures r.Ok? ==> r.value == if key in objs then Some(objs[key]) else None
      ensures faults == old(faults) + if r.Ok? then 0 else 1
    {
      var fails: bool := *;
      if fails {
        faults := faults + 1;
        return Err("get object");
      }
      return Ok(if key in objs then Some(objs[key]) else None);
    }
  }

  class SnapshotIndex {
    const name: string
    const store: ObjectStore
    var load: bool
    var mem: Memory
    ghost var calls: map<string, Call>  // the inputs of the `Backup` calls so far

    constructor (name: string, store: ObjectStore)
      ensures this.name == name && this.store == store && mem == Memory([], None) && Valid() && calls == map[]
    {
      this.name, this.store := name, store;
      load, mem := false, Memory([], None);
      calls := map[];
    }

    ghost function Cur(): Memory
      reads this`mem, store`objs
    {
      Current(name, store.objs, mem)
    }

    /** The flag that would skip reloading is never set. */
    ghost predicate Valid()
      reads this`load
    {
      !load
    }

    /** The newest copies can be fetched, and could after every store call so far. */
    ghost predicate Secure()
      reads this`mem, store`objs, store`history
    {
      Sound(name, store.objs, mem) && forall h :: h in store.history ==> Safe(name, h)
    }

    ghost predicate IsMatched()
      reads this`mem, this`calls, store`objs
    {
      Matched(name, store.objs, mem, calls)
    }

    /** Every operation reads the stored index. */
    method LazyLoad() returns (ok: bool)
      requires Valid()
      modifies this`mem, store`faults
      ensures Cur() == old(Cur()) && (ok ==> mem == Cur())
      ensures store.faults == old(store.faults) + if ok then 0 else 1
      ensures (old(Secure()) ==> Secure()) && (old(IsMatched()) ==> IsMatched())
    {
      if load {
        return true;
      }
      var r := store.Get(IndexLocation(name));
      if r.Err? {
        return false;
      }
      if r.value.None? {
        return true;
      }
      if r.value.value.Index? {
        mem := Memory(r.value.value.copies, r.value.value.spec);
      }
      return true;
    }

    /** Safety is kept whatever the identity; pairing if it is later than all that are listed. */
    method Backup(now: Minute, spec: string, content: string) returns (ok: bool)
      requires Valid() && now.Valid()
      modifies this`mem, this`calls, store
      ensures ok ==> Cur() == Memory(old(Cur()).copies + [BackupOrder.Backup(Format(now))], Some(spec)) && Stored()
      ensures !ok ==> Cur() == old(Cur()) || Cur().copies == old(Cur()).copies + [BackupOrder.Backup(Format(now))]
      ensures store.faults == old(store.faults) + if ok then 0 else 1
      ensures old(store.history) <= store.history
      ensures calls == old(calls) || calls == old(calls)[Format(now) := Call(spec, content, now)]
      ensures ok ==> Format(now) in calls && calls[Format(now)] == Call(spec, content, now)
      ensures old(Secure()) ==> Secure()
      ensures old(IsMatched()) && LaterThanAll(BackupOrder.Backup(Format(now)), old(Cur()).copies) ==> IsMatched()
      ensures ok ==> store.log == old(store.log) + [PutCall(Path(name, BackupOrder.Backup(Format(now))))] +
                                  [PutCall(IndexLocation(name))]
    {
      ok := LazyLoad();
      if !ok {
        return false;
      }
      var backup, call := BackupOrder.Backup(Format(now)), Call(spec, content, now);
      ok := Upload(backup, call);
      if ok {
        ok := SaveIndex(backup, call);
      }
    }

    /** Put the snapshot file into the store. */
    method Upload(backup: Backup, call: Call) returns (ok: bool)
      requires Valid()
      modifies this`calls, store
      ensures Cur() == old(Cur()) && calls == old(calls)[backup.identity := call]
      ensures ok ==> Path(name, backup) in store.objs && store.objs[Path(name, backup)] == File(call.content)
      ensures store.faults == old(store.faults) + if ok then 0 else 1
      ensures old(store.history) <= store.history
      ensures old(Secure()) ==> Secure()
      ensures old(IsMatched()) && LaterThanAll(backup, old(Cur()).copies) ==> IsMatched()
      ensures store.log == old(store.log) + [PutCall(Path(name, backup))]
    {
      UploadOk(name, store.objs, mem, backup, call, calls);
      if LaterThanAll(backup, Cur().copies) {
        LaterIsNew(backup, Cur().copies);
      }
      calls := calls[backup.identity := call];
      var reply := store.Put(Path(name, backup), File(call.content));
      return reply.Done?;
    }

    /** Append the copy and write the index. */
    method SaveIndex(backup: Backup, call: Call) returns (ok: bool)
      requires Valid() && mem == Cur() && Dated(backup, call)
      requires Path(name, backup) in store.objs && store.objs[Path(name, backup)] == File(call.content)
      requires calls == calls[backup.identity := call]
      modifies this`mem, store
      ensures ok ==> Cur() == Memory(old(mem).copies + [backup], Some(call.spec)) && Stored()
      ensures !ok ==> Cur() == old(mem) || Cur() == Memory(old(mem).copies + [backup], Some(call.spec))
      ensures store.faults == old(store.faults) + if ok then 0 else 1
      ensures old(store.history) <= store.history
      ensures old(Secure()) ==> Secure()
      ensures old(IsMatched()) && LaterThanAll(backup, old(mem).copies) ==> IsMatched()
      ensures store.log == old(store.log) + [PutCall(IndexLocation(name))]
    {
      SaveOk(name, store.objs, mem, backup, call, calls);
      mem := Memory(mem.copies + [backup], Some(call.spec));
      var reply := store.Put(IndexLocation(name), Index(mem.copies, mem.spec));
      return reply.Done?;
    }

    /** The index is in the store, so a restart does not lose it. */
    ghost predicate Stored()
      reads store`objs
    {
      IndexLocation(name) in store.objs && store.objs[IndexLocation(name)].Index?
    }

    /**
     Keep the newest four copies; errors while deleting or writing are only logged, so once the
     index is read every other copy is deleted and the index written, whatever the replies. Safety is
     kept exactly if the fourth and the fifth newest identities differ: always then, and
     never otherwise once all calls succeed.
     */
    method BackupGC() returns (ok: bool)
      requires Valid()
      modifies this`mem, store
      ensures Newest(Cur().copies) == Newest(old(Cur()).copies)
      ensures Shrunk(old(Cur()).copies, Cur().copies)
      ensures old(Stored()) ==> Stored()
      ensures store.faults == old(store.faults) ==>
                ok && Cur() == old(Cur()).(copies := Trimmed(old(Cur()).copies)) &&
                forall b :: b in old(Cur()).copies && b !in Cur().copies ==> Path(name, b) !in store.objs
      ensures old(store.history) <= store.history && old(store.faults) <= store.faults
      ensures old(Secure()) && Separate(old(Cur()).copies) ==> Secure()
      ensures old(Secure()) && store.faults == old(store.faults) ==> (Secure() <==> Separate(old(Cur()).copies))
      ensures old(IsMatched()) ==> IsMatched()
      ensures store.log == old(store.log) + if ok then CollectionCalls(name, old(Cur()).copies) else []
    {
      ok := LazyLoad();
      if !ok {
        return false;
      }
      if |mem.copies| <= KEEP_COPIES_CNT {
        return true;
      }
      Collect();
      return true;
    }

    /** In-place sort of the copies in memory, newest first. */
    method SortBackups()
      requires Valid() && mem == Cur()
      modifies this`mem
      ensures mem == Memory(SortDesc(old(mem).copies), old(mem).spec)
      ensures Cur() == old(mem) || Cur() == mem
      ensures SortDesc(Cur().copies) == mem.copies && Cur().spec == mem.spec
      ensures (old(Secure()) ==> Secure()) && (old(IsMatched()) ==> IsMatched())
    {
      SortOk(name, store.objs, mem, calls);
      mem := Memory(SortDesc(mem.copies), mem.spec);
    }

    /** Sort, delete the old files, drop the old copies, write the index. */
    method Collect()
      requires Valid() && mem == Cur() && |mem.copies| > KEEP_COPIES_CNT
      modifies this`mem, store
      ensures Newest(Cur().copies) == Newest(old(mem).copies)
      ensures Shrunk(old(mem).copies, Cur().copies)
      ensures old(Stored()) ==> Stored()
      ensures store.faults == old(store.faults) ==>
                Cur() == old(mem).(copies := Newest(old(mem).copies)) &&
                forall b :: b in old(mem).copies && b !in Newest(old(mem).copies) ==> Path(name, b) !in store.objs
      ensures store.faults == old(store.faults) && !Separate(old(mem).copies) ==> !Secure()
      ensures old(store.history) <= store.history && old(store.faults) <= store.faults
      ensures old(Secure()) && Separate(old(mem).copies) ==> Secure()
      ensures old(IsMatched()) ==> IsMatched()
      ensures store.log == old(store.log) + CollectionCalls(name, old(mem).copies)
    {
      ghost var copies, separate, before := mem.copies, Separate(mem.copies), store.log;
      SortBackups();
      SortedSeparate(copies);
      DeleteOld();
      OldGone(name, store.objs, copies, Index(Top(mem.copies), mem.spec));
      TopShrinks(copies);
      SortIdempotent(copies);
      ghost var log := store.log;
      WriteKept();
      ThenIndex(before, name, copies, log, store.log);
      Unsound(name, store.objs, copies, mem);
    }

    /** Copies are sorted; drop those beyond the fourth and write the index. */
    method WriteKept()
      requires Valid() && SortDesc(Cur().copies) == mem.copies && Cur().spec == mem.spec
      modifies this`mem, store
      ensures Cur() == old(Cur()) || Cur() == Memory(Top(old(mem).copies), old(mem).spec)
      ensures old(Stored()) ==> Stored()
      ensures old(store.history) <= store.history && old(store.faults) <= store.faults
      ensures store.faults == old(store.faults) ==>
                && Cur() == Memory(Top(old(mem).copies), old(mem).spec)
                && store.objs == old(store.objs)[IndexLocation(name) := Index(Top(old(mem).copies), old(mem).spec)]
      ensures Newest(Cur().copies) == Top(old(mem).copies)
      ensures (old(Secure()) ==> Secure()) && (old(IsMatched()) ==> IsMatched())
      ensures store.log == old(store.log) + [PutCall(IndexLocation(name))]
    {
      TrimOk(name, store.objs, mem, calls);
      mem := Memory(Top(mem.copies), mem.spec);
      var reply := store.Put(IndexLocation(name), Index(mem.copies, mem.spec));
    }

    /** Copies are sorted; delete the files of all beyond the fourth. */
    method DeleteOld()
      requires Valid() && SortDesc(Cur().copies) == mem.copies
      modifies store
      ensures Cur() == old(Cur()) && (old(Stored()) ==> Stored())
      ensures old(store.history) <= store.history && old(store.faults) <= store.faults
      ensures store.faults == old(store.faults) ==> Gone(name, mem.copies, |mem.copies|, store.objs)
      ensures old(Secure()) && Separate(Cur().copies) ==> Secure()
      ensures old(IsMatched()) ==> IsMatched()
      ensures Logged(old(store.log), name, mem.copies, |mem.copies|, store.log)
    {
      ghost var cur, stored, separate := Cur(), Stored(), Separate(Cur().copies);
      ghost var secure, matched, before := Secure(), IsMatched(), store.log;
      for k := 0 to |mem.copies|
        invariant Cur() == cur && (stored ==> Stored())
        invariant old(store.history) <= store.history && old(store.faults) <= store.faults
        invariant store.faults == old(store.faults) ==> Gone(name, mem.copies, k, store.objs)
        invariant secure && separate ==> Secure()
        invariant matched ==> IsMatched()
        invariant Logged(before, name, mem.copies, k, store.log)
      {
        if k < KEEP_COPIES_CNT {
          FewDeletes(before, name, mem.copies, k);
          continue;
        }
        DeleteOne(k, cur, stored, separate, before);
      }
    }

    method DeleteOne(k: nat, ghost cur: Memory, ghost stored: bool, ghost separate: bool, ghost before: seq<StoreCall>)
      requires Valid() && Cur() == cur && SortDesc(cur.copies) == mem.copies && KEEP_COPIES_CNT <= k < |mem.copies|
      requires separate ==> Separate(cur.copies)
      requires stored ==> Stored()
      requires Logged(before, name, mem.copies, k, store.log)
      modifies store
      ensures Cur() == cur && (stored ==> Stored())
      ensures old(store.history) <= store.history && old(store.faults) <= store.faults
      ensures store.faults == old(store.faults) && Gone(name, mem.copies, k, old(store.objs)) ==>
                Gone(name, mem.copies, k + 1, store.objs)
      ensures old(Secure()) && separate ==> Secure()
      ensures old(IsMatched()) ==> IsMatched()
      ensures Logged(before, name, mem.copies, k + 1, store.log)
    {
      DeleteLogged(before, name, mem.copies, k, store.log);
      DropOk(name, store.objs, mem, k, calls);
      PathNotIndex(name, mem.copies[k]);
      GoneStep(name, mem.copies, k, store.objs);
      var reply := store.Delete(Path(name, mem.copies[k]));
    }

    /** Which call a copy stems from; the newest copy is the latest of them. */
    ghost predicate IsLatest(newest: Backup, copies: seq<Backup>)
      reads this`calls
    {
      && newest.identity in calls
      && forall b :: b in copies ==> b.identity in calls && calls[b.identity].at.Stamp() <= calls[newest.identity].at.Stamp()
    }

    /** The current spec and the file of this copy, where there is one, are the inputs of one call. */
    ghost predicate FromCall(newest: Backup)
      reads this`mem, this`calls, store`objs
    {
      && newest.identity in calls && Cur().spec == Some(calls[newest.identity].spec)
      && (Path(name, newest) in store.objs ==>
            store.objs[Path(name, newest)] == File(calls[newest.identity].content))
    }

    /**
     The newest listed copy. If the index is safe, only a failing call or an empty list can
     keep it back. File and spec are the inputs of one `Backup` call, and no listed copy was
     made in a later minute.
     */
    method LatestBackup() returns (r: Result<(Option<string>, string)>)
      requires Valid()
      modifies this`mem, store`faults
      ensures store.objs == old(store.objs) && (old(Secure()) ==> Secure()) && (old(IsMatched()) ==> IsMatched())
      ensures Cur().copies == old(Cur()).copies || Cur().copies == SortDesc(old(Cur()).copies)
      ensures old(store.faults) <= store.faults
      ensures r.Ok? ==> store.faults == old(store.faults) && old(Cur()).copies != []
      ensures old(Secure()) && store.faults == old(store.faults) && old(Cur()).copies != [] ==> r.Ok?
      ensures r.Ok? && old(IsMatched()) ==>
                var newest := SortDesc(old(Cur()).copies)[0];
                && newest in old(Cur()).copies && IsLatest(newest, old(Cur()).copies)
                && r.value == (Some(calls[newest.identity].spec), calls[newest.identity].content)
    {
      LatestFacts();
      var ok := LoadSorted();
      if !ok {
        return Err("load latest backup");
      }
      if |mem.copies| <= 0 {
        return Err("BackupNotFound");
      }
      var got := Download(Path(name, mem.copies[0]));
      return if got.Ok? then Ok((mem.spec, got.value)) else Err("download latest backup");
    }

    /** Read the stored index, newest copy first. */
    method LoadSorted() returns (ok: bool)
      requires Valid()
      modifies this`mem, store`faults
      ensures (old(Secure()) ==> Secure()) && (old(IsMatched()) ==> IsMatched())
      ensures Cur().copies == old(Cur()).copies || Cur().copies == SortDesc(old(Cur()).copies)
      ensures store.faults == old(store.faults) + if ok then 0 else 1
      ensures ok ==> mem == Memory(SortDesc(old(Cur()).copies), old(Cur()).spec)
    {
      ok := LazyLoad();
      if ok {
        SortBackups();
      }
    }

    /** The content of a snapshot file. */
    method Download(path: string) returns (r: Result<string>)
      modifies store`faults
      ensures old(store.faults) <= store.faults && (r.Ok? ==> store.faults == old(store.faults))
      ensures r.Ok? ==> path in store.objs && store.objs[path] == File(r.value)
      ensures path in store.objs && store.objs[path].File? && store.faults == old(store.faults) ==> r.Ok?
    {
      var got := store.Get(path);
      if got.Err? || got.value.None? || !got.value.value.File? {
        return Err("download");
      }
      return Ok(got.value.value.content);
    }

    /** What is known of the newest copy. */
    lemma LatestFacts()
      ensures Cur().copies != [] ==>
                var newest := SortDesc(Cur().copies)[0];
                && newest in Cur().copies
                && (Secure() ==> Path(name, newest) in store.objs && store.objs[Path(name, newest)].File?)
                && (IsMatched() ==> IsLatest(newest, Cur().copies) && FromCall(newest))
    {
      var copies := Cur().copies;
      if copies != [] {
        var newest := SortDesc(copies)[0];
        SameElements(SortDesc(copies), copies);
        assert newest in SortDesc(copies);
        assert newest == Newest(copies)[0] && newest in Newest(copies);
        if IsMatched() {
          LatestOfDated(copies, calls);
        }
      }
    }

    /** A crash or a restart: the memory is gone, the store stays. */
    method Restart()
      requires Valid()
      modifies this`mem
      ensures (old(Secure()) ==> Secure()) && (old(IsMatched()) ==> IsMatched())
      ensures Cur() == if Stored() then old(Cur()) else Memory([], None)
    {
      mem := Memory([], None);
    }

    /** The newest copy listed in the store is the one this call made. */
    ghost predicate NewestIs(call: Call)
      reads this`mem, this`calls, store`objs
    {
      Stored() && HeadIs(Cur().copies, Format(call.at)) && Format(call.at) in calls && calls[Format(call.at)] == call
    }

    method RunBackup(call: Call)
      requires Valid() && call.at.Valid()
      modifies this`mem, this`calls, store
      ensures old(store.history) <= store.history && old(store.faults) <= store.faults
      ensures Cur().copies == old(Cur()).copies || Cur().copies == old(Cur()).copies + [BackupOrder.Backup(Format(call.at))]
      ensures old(Secure()) ==> Secure()
      ensures LaterThanAll(BackupOrder.Backup(Format(call.at)), old(Cur()).copies) ==>
                (old(IsMatched()) ==> IsMatched()) && (store.faults == old(store.faults) ==> NewestIs(call))
    {
      ghost var copies, b := Cur().copies, BackupOrder.Backup(Format(call.at));
      var ok := Backup(call.at, call.spec, call.content);
      LaterIsHead(copies, b);
    }

    method RunGC(ghost last: Option<Call>)
      requires Valid()
      modifies this`mem, store
      ensures old(store.history) <= store.history && old(store.faults) <= store.faults
      ensures Shrunk(old(Cur()).copies, Cur().copies)
      ensures old(Secure()) && Separate(old(Cur()).copies) ==> Secure()
      ensures old(IsMatched()) ==> IsMatched()
      ensures last.Some? && old(NewestIs(last.value)) ==> NewestIs(last.value)
    {
      ghost var copies := Cur().copies;
      var ok := BackupGC();
      if last.Some? && HeadIs(copies, Format(last.value.at)) {
        HeadKept(copies, Cur().copies, Format(last.value.at));
      }
    }

    method RunLatest(ghost last: Option<Call>)
      requires Valid()
      modifies this`mem, store`faults
      ensures old(store.faults) <= store.faults && Shrunk(old(Cur()).copies, Cur().copies)
      ensures (old(Secure()) ==> Secure()) && (old(IsMatched()) ==> IsMatched())
      ensures last.Some? && old(NewestIs(last.value)) ==> NewestIs(last.value)
    {
      ghost var copies := Cur().copies;
      SortIdempotent(copies);
      var r := LatestBackup();
      assert last.Some? && HeadIs(copies, Format(last.value.at)) ==> HeadIs(Cur().copies, Format(last.value.at));
    }

    method RunOp(op: Op, ghost last: Option<Call>)
      requires Valid() && (op.DoBackup? ==> op.call.at.Valid())
      modifies this`mem, this`calls, store
      ensures old(store.history) <= store.history && old(store.faults) <= store.faults
      ensures Evolved(old(Cur()).copies, Cur().copies, op)
      ensures old(Secure()) && Separate(old(Cur()).copies) ==> Secure()
      ensures old(IsMatched()) && Later(op, old(Cur()).copies) ==> IsMatched()
      ensures store.faults == old(store.faults) && op.DoBackup? && Later(op, old(Cur()).copies) ==> NewestIs(op.call)
      ensures !op.DoBackup? && last.Some? && old(NewestIs(last.value)) ==> NewestIs(last.value)
    {
      match op
      case DoBackup(call) =>
        RunBackup(call);
      case DoGC =>
        RunGC(last);
      case DoLatest =>
        RunLatest(last);
      case DoRestart =>
        Restart();
    }

    /**
     Any sequence of operations, calls failing or not, processes restarting or not. With
     minutes that differ the store is safe after every single store call; with minutes that
     increase the newest copy stays paired with its spec; and if moreover no call fails, the
     newest copy is that of the last backup.
     */
    method Operate(ops: seq<Op>)
      requires Valid() && ValidMinutes(ops)
      modifies this`mem, this`calls, store
      ensures old(store.history) <= store.history && old(store.faults) <= store.faults
      ensures old(Secure()) && DistinctCopies(old(Cur()).copies) && NewMinutes(ops, old(Cur()).copies) ==> Secure()
      ensures old(IsMatched()) && IncreasingMinutes(ops, old(Cur()).copies) ==> IsMatched()
      ensures store.faults == old(store.faults) && IncreasingMinutes(ops, old(Cur()).copies) && LastCall(ops).Some? ==>
                NewestIs(LastCall(ops).value)
    {
      ghost var fine := Secure() && DistinctCopies(Cur().copies) && NewMinutes(ops, Cur().copies);
      ghost var rising := IncreasingMinutes(ops, Cur().copies);
      for k := 0 to |ops|
        invariant old(store.history) <= store.history && old(store.faults) <= store.faults
        invariant fine ==> Secure() && DistinctCopies(Cur().copies) && NewMinutes(ops[k..], Cur().copies)
        invariant rising ==> IncreasingMinutes(ops[k..], Cur().copies)
        invariant rising && old(IsMatched()) ==> IsMatched()
        invariant store.faults == old(store.faults) && rising && LastCall(ops[..k]).Some? ==>
                    NewestIs(LastCall(ops[..k]).value)
      {
        ghost var before := Cur().copies;
        if fine {
          DistinctSeparate(before);
        }
        if rising {
          RisingHead(ops[k..], before);
        }
        RunOp(ops[k], LastCall(ops[..k]));
        MinutesAfter(ops, k, before, Cur().copies);
        LastCallStep(ops, k);
      }
      assert ops[..|ops|] == ops;
    }

    /**
     Recovery. If no store call fails and the minutes increase, then after any operations
     with a backup among them, restarts included, what is recovered are the inputs of the
     last backup.
     */
    method OperateAndRecover(ops: seq<Op>) returns (r: Result<(Option<string>, string)>)
      requires Valid() && ValidMinutes(ops)
      modifies this`mem, this`calls, store
      ensures old(store.faults) <= store.faults
      ensures old(Secure()) && old(IsMatched()) && DistinctCopies(old(Cur()).copies) &&
              IncreasingMinutes(ops, old(Cur()).copies) && store.faults == old(store.faults) ==>
                LastCall(ops).Some? ==> r == Ok((Some(LastCall(ops).value.spec), LastCall(ops).value.content))
    {
      if IncreasingMinutes(ops, Cur().copies) {
        IncreasingAreNew(ops, Cur().copies);
      }
      Operate(ops);
      r := LatestBackup();
    }
  }

  // ----- Runs of operations -----------------------------------------------------------

  datatype Op = DoBackup(call: Call) | DoGC | DoLatest | DoRestart

  ghost predicate ValidMinutes(ops: seq<Op>) {
    forall i :: 0 <= i < |ops| && ops[i].DoBackup? ==> ops[i].call.at.Valid()
  }

  /** A backup later than every listed copy, or no backup at all. */
  ghost predicate Later(op: Op, copies: seq<Backup>) {
    op.DoBackup? ==> LaterThanAll(Backup(Format(op.call.at)), copies)
  }

  /** The backups are made in minutes that differ from each other and from those listed. */
  ghost predicate NewMinutes(ops: seq<Op>, copies: seq<Backup>) {
    && (forall j :: 0 <= j < |ops| && ops[j].DoBackup? ==> Backup(Format(ops[j].call.at)) !in copies)
    && (forall i, j :: 0 <= i < j < |ops| && ops[i].DoBackup? && ops[j].DoBackup? ==> ops[i].call.at != ops[j].call.at)
  }

  /** The backups are later than those listed, and made in increasing minutes. */
  ghost predicate IncreasingMinutes(ops: seq<Op>, copies: seq<Backup>) {
    && (forall j :: 0 <= j < |ops| ==> Later(ops[j], copies))
    && (forall i, j :: 0 <= i < j < |ops| && ops[i].DoBackup? && ops[j].DoBackup? ==>
          ops[i].call.at.Stamp() < ops[j].call.at.Stamp())
  }

  /** The last backup of a run. */
  function LastCall(ops: seq<Op>): Option<Call> {
    if ops == [] then None
    else if ops[|ops| - 1].DoBackup? then Some(ops[|ops| - 1].call)
    else LastCall(ops[..|ops| - 1])
  }

  lemma LastCallStep(ops: seq<Op>, k: nat)
    requires k < |ops|
    ensures LastCall(ops[..k + 1]) == if ops[k].DoBackup? then Some(ops[k].call) else LastCall(ops[..k])
  {
    assert ops[..k + 1][..k] == ops[..k];
  }

  /** What collection leaves of the copies when no call fails. */
  function Trimmed(copies: seq<Backup>): seq<Backup> {
    if |copies| <= KEEP_COPIES_CNT then copies else Newest(copies)
  }

  /** Nothing is invented, and what was free of repetition stays so. */
  ghost predicate Shrunk(before: seq<Backup>, after: seq<Backup>) {
    && (forall b :: b in after ==> b in before)
    && (DistinctCopies(before) ==> DistinctCopies(after))
  }

  /** How one operation changes the listed copies. */
  ghost predicate Evolved(before: seq<Backup>, after: seq<Backup>, op: Op) {
    || Shrunk(before, after)
    || (op.DoBackup? && after == before + [Backup(Format(op.call.at))])
  }

  lemma SortIdempotent(copies: seq<Backup>)
    ensures SortDesc(SortDesc(copies)) == SortDesc(copies) && Shrunk(copies, SortDesc(copies))
  {
    SortDescends(copies);
    SortSorted(SortDesc(copies));
    SameElements(SortDesc(copies), copies);
    if DistinctCopies(copies) {
      SortDistinct(copies);
    }
  }

  /** The newest of the copies has this identity. */
  predicate HeadIs(copies: seq<Backup>, id: string) {
    copies != [] && SortDesc(copies)[0].identity == id
  }

  lemma HeadKept(before: seq<Backup>, after: seq<Backup>, id: string)
    requires Newest(before) == Newest(after) && HeadIs(before, id)
    ensures HeadIs(after, id)
  {
    assert Newest(before)[0] == SortDesc(before)[0];
    assert Newest(after)[0] == SortDesc(after)[0];
  }

  lemma LaterIsHead(copies: seq<Backup>, b: Backup)
    ensures LaterThanAll(b, copies) ==> HeadIs(copies + [b], b.identity)
  {
    if LaterThanAll(b, copies) {
      LatestFirst(copies, b);
    }
  }

  lemma TopShrinks(copies: seq<Backup>)
    ensures Shrunk(copies, Newest(copies))
  {
    SortIdempotent(copies);
  }

  /** Of the first k copies, those beyond the fourth have lost their files. */
  ghost predicate Gone(name: string, copies: seq<Backup>, k: nat, objs: Objects)
    requires k <= |copies|
  {
    forall j :: KEEP_COPIES_CNT <= j < k ==> Path(name, copies[j]) !in objs
  }

  lemma GoneStep(name: string, copies: seq<Backup>, k: nat, objs: Objects)
    requires k < |copies|
    ensures Gone(name, copies, k, objs) ==> Gone(name, copies, k + 1, objs - {Path(name, copies[k])})
  {
  }

  /** Once the files beyond the fourth are deleted, so are those of all copies not kept. */
  lemma {:induction false} OldGone(name: string, objs: Objects, copies: seq<Backup>, index: Object)
    requires |copies| > KEEP_COPIES_CNT
    ensures Gone(name, SortDesc(copies), |copies|, objs) ==>
              && Path(name, SortDesc(copies)[4]) !in objs[IndexLocation(name) := index]
              && forall b :: b in copies && b !in Newest(copies) ==> Path(name, b) !in objs[IndexLocation(name) := index]
  {
    var s := SortDesc(copies);
    if Gone(name, s, |copies|, objs) {
      PathNotIndex(name, s[4]);
      SameElements(s, copies);
      forall b | b in copies
        ensures b in Newest(copies) || Path(name, b) !in objs[IndexLocation(name) := index]
      {
        PathNotIndex(name, b);
        KeptOrGone(name, objs, s, b);
      }
    }
  }

  lemma {:induction false} KeptOrGone(name: string, objs: Objects, s: seq<Backup>, b: Backup)
    requires Gone(name, s, |s|, objs) && b in s
    ensures b in Top(s) || Path(name, b) !in objs
  {
    var j :| 0 <= j < |s| && s[j] == b;
    if j < KEEP_COPIES_CNT {
      assert b == Top(s)[j];
    }
  }

  lemma SortedSeparate(copies: seq<Backup>)
    ensures Separate(SortDesc(copies)) <==> Separate(copies)
  {
    SortIdempotent(copies);
  }

  lemma Unsound(name: string, objs: Objects, copies: seq<Backup>, mem: Memory)
    ensures (|copies| > KEEP_COPIES_CNT && !Separate(copies) && Current(name, objs, mem).copies == Newest(copies) &&
             Path(name, SortDesc(copies)[4]) !in objs) ==> !Sound(name, objs, mem)
  {
    if |copies| > KEEP_COPIES_CNT && !Separate(copies) && Current(name, objs, mem).copies == Newest(copies) {
      if Path(name, SortDesc(copies)[4]) !in objs {
        SharedIsUnsound(name, objs, copies, mem);
      }
    }
  }

  /** Identities taken at increasing minutes increase. */
  lemma MinutesIncrease(a: Minute, b: Minute)
    requires a.Valid() && b.Valid() && a.Stamp() < b.Stamp()
    ensures Less(Format(a), Format(b))
  {
    FormatOrder(a, b);
  }

  lemma RisingHead(ops: seq<Op>, copies: seq<Backup>)
    requires ops != [] && IncreasingMinutes(ops, copies)
    ensures Later(ops[0], copies)
  {
  }

  /** After one operation, what holds of those to come. */
  lemma MinutesAfter(ops: seq<Op>, k: nat, before: seq<Backup>, after: seq<Backup>)
    requires k < |ops| && ValidMinutes(ops) && Evolved(before, after, ops[k])
    ensures DistinctCopies(before) && NewMinutes(ops[k..], before) ==>
              DistinctCopies(after) && NewMinutes(ops[k + 1..], after)
    ensures IncreasingMinutes(ops[k..], before) ==> IncreasingMinutes(ops[k + 1..], after)
  {
    var now, rest := ops[k..], ops[k + 1..];
    assert now[0] == ops[k] && forall j :: 0 <= j < |rest| ==> rest[j] == now[j + 1];
    if NewMinutes(now, before) {
      forall j | 0 <= j < |rest| && rest[j].DoBackup?
        ensures Backup(Format(rest[j].call.at)) !in after
      {
        NotTwice(ops, k, j, before, after);
      }
      assert ops[k].DoBackup? ==> Backup(Format(ops[k].call.at)) !in before;
    }
    if IncreasingMinutes(now, before) {
      forall j | 0 <= j < |rest|
        ensures Later(rest[j], after)
      {
        StillLater(ops, k, j, before, after);
      }
    }
  }

  lemma NotTwice(ops: seq<Op>, k: nat, j: nat, before: seq<Backup>, after: seq<Backup>)
    requires k < |ops| && ValidMinutes(ops) && Evolved(before, after, ops[k]) && NewMinutes(ops[k..], before)
    requires j < |ops| - k - 1 && ops[k + 1 + j].DoBackup?
    ensures Backup(Format(ops[k + 1 + j].call.at)) !in after
  {
    var a := ops[k + 1 + j].call.at;
    assert ops[k..][j + 1] == ops[k + 1 + j] && ops[k..][0] == ops[k];
    if ops[k].DoBackup? && Format(a) == Format(ops[k].call.at) {
      FormatInjective(a, ops[k].call.at);
    }
  }

  lemma StillLater(ops: seq<Op>, k: nat, j: nat, before: seq<Backup>, after: seq<Backup>)
    requires k < |ops| && ValidMinutes(ops) && Evolved(before, after, ops[k]) && IncreasingMinutes(ops[k..], before)
    requires j < |ops| - k - 1
    ensures Later(ops[k + 1 + j], after)
  {
    var op := ops[k + 1 + j];
    assert ops[k..][j + 1] == op && ops[k..][0] == ops[k];
    assert Later(op, before);
    if op.DoBackup? && ops[k].DoBackup? {
      MinutesIncrease(ops[k].call.at, op.call.at);
    }
  }

  lemma IncreasingAreNew(ops: seq<Op>, copies: seq<Backup>)
    requires IncreasingMinutes(ops, copies)
    ensures NewMinutes(ops, copies)
  {
    forall j | 0 <= j < |ops| && ops[j].DoBackup?
      ensures Backup(Format(ops[j].call.at)) !in copies
    {
      assert Later(ops[j], copies);
      LaterIsNew(Backup(Format(ops[j].call.at)), copies);
    }
  }

  /** The first of the sorted copies was taken at the latest of the minutes. */
  lemma {:induction false} NewestIsLatestMinute(copies: seq<Backup>, minutes: seq<Minute>)
    requires |copies| == |minutes| && copies != []
    requires forall i :: 0 <= i < |minutes| ==> minutes[i].Valid() && copies[i] == Backup(Format(minutes[i]))
    ensures exists k :: 0 <= k < |minutes| && SortDesc(copies)[0] == copies[k] &&
                        forall i :: 0 <= i < |minutes| ==> minutes[i].Stamp() <= minutes[k].Stamp()
  {
    SameElements(SortDesc(copies), copies);
    var newest := SortDesc(copies)[0];
    assert newest in SortDesc(copies);
    var k :| 0 <= k < |copies| && copies[k] == newest;
    forall i | 0 <= i < |minutes|
      ensures minutes[i].Stamp() <= minutes[k].Stamp()
    {
      NewestIsGreatest(copies, copies[i]);
      FormatOrder(minutes[k], minutes[i]);
    }
  }

  /** The same with the minutes found in the calls. */
  lemma LatestOfDated(copies: seq<Backup>, calls: map<string, Call>)
    requires copies != [] && forall b :: b in copies ==> b.identity in calls && Dated(b, calls[b.identity])
    ensures var newest := SortDesc(copies)[0];
            && newest.identity in calls
            && forall b :: b in copies ==> calls[b.identity].at.Stamp() <= calls[newest.identity].at.Stamp()
  {
    var minutes := seq(|copies|, i requires 0 <= i < |copies| => Minutes(copies[i], calls));
    NewestIsLatestMinute(copies, minutes);
    var k :| 0 <= k < |minutes| && SortDesc(copies)[0] == copies[k] &&
             forall i :: 0 <= i < |minutes| ==> minutes[i].Stamp() <= minutes[k].Stamp();
    forall b | b in copies
      ensures calls[b.identity].at.Stamp() <= calls[copies[k].identity].at.Stamp()
    {
      var i :| 0 <= i < |copies| && copies[i] == b;
      assert minutes[i].Stamp() <= minutes[k].Stamp();
    }
  }

  function Minutes(b: Backup, calls: map<string, Call>): Minute {
    if b.identity in calls then calls[b.identity].at else Minute(0, 1, 1, 0, 0)
  }
}

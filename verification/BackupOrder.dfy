/** The order of backup copies, and which of them are the newest (pkg/index/snapshot.go). */
module BackupOrder {
  import opened TimeFormat

  datatype Backup = Backup(identity: string)

  const KEEP_COPIES_CNT: nat := 4

  // ----- Sorting, newest first ----------------------------------------------------

  predicate Descending(s: seq<Backup>) {
    forall i, j :: 0 <= i < j < |s| ==> !Less(s[i].identity, s[j].identity)
  }

  function Insert(b: Backup, s: seq<Backup>): (r: seq<Backup>)
    ensures multiset(r) == multiset(s) + multiset{b}
    ensures |r| == |s| + 1
  {
    if s == [] then [b]
    else if Less(s[0].identity, b.identity) then [b] + s
    else
      assert s == [s[0]] + s[1..];
      [s[0]] + Insert(b, s[1..])
  }

  function SortDesc(s: seq<Backup>): (r: seq<Backup>)
    ensures multiset(r) == multiset(s)
    ensures |r| == |s|
  {
    if s == [] then []
    else
      var init, last := s[..|s| - 1], s[|s| - 1];
      assert s == init + [last];
      var r := Insert(last, SortDesc(init));
      assert |multiset(r)| == |multiset(s)|;
      r
  }

  lemma SameElements(a: seq<Backup>, b: seq<Backup>)
    requires multiset(a) == multiset(b)
    ensures forall x :: x in a <==> x in b
  {
    forall x
      ensures x in a <==> x in b
    {
      assert x in a <==> x in multiset(a);
      assert x in b <==> x in multiset(b);
    }
  }

  lemma PrependDescends(b: Backup, s: seq<Backup>)
    requires Descending(s) && forall x :: x in s ==> !Less(b.identity, x.identity)
    ensures Descending([b] + s)
  {
    forall i, j | 0 <= i < j < |s| + 1
      ensures !Less(([b] + s)[i].identity, ([b] + s)[j].identity)
    {
      assert ([b] + s)[j] == s[j - 1] && s[j - 1] in s;
      assert i == 0 || ([b] + s)[i] == s[i - 1];
    }
  }

  lemma HeadIsGreatest(s: seq<Backup>, x: Backup)
    requires Descending(s) && x in s
    ensures !Less(s[0].identity, x.identity)
  {
    var j :| 0 <= j < |s| && s[j] == x;
    if j == 0 {
      LessIrreflexive(x.identity);
    }
  }

  lemma {:induction false} InsertDescends(b: Backup, s: seq<Backup>)
    requires Descending(s)
    ensures Descending(Insert(b, s))
  {
    if s != [] {
      var head, tail := s[0], s[1..];
      if Less(head.identity, b.identity) {
        forall x | x in s
          ensures !Less(b.identity, x.identity)
        {
          HeadIsGreatest(s, x);
          if Less(b.identity, x.identity) {
            LessTransitive(head.identity, b.identity, x.identity);
          }
        }
        PrependDescends(b, s);
      } else {
        var rest := Insert(b, tail);
        InsertDescends(b, tail);
        SameElements(rest, tail + [b]);
        forall x | x in rest
          ensures !Less(head.identity, x.identity)
        {
          assert x in tail + [b];
          if x in tail {
            HeadIsGreatest(s, x);
          }
        }
        PrependDescends(head, rest);
      }
    }
  }

  lemma {:induction false} SortDescends(s: seq<Backup>)
    ensures Descending(SortDesc(s))
  {
    if s != [] {
      var init := s[..|s| - 1];
      SortDescends(init);
      InsertDescends(s[|s| - 1], SortDesc(init));
    }
  }

  lemma SameHead(a: seq<Backup>, b: seq<Backup>)
    requires Descending(a) && Descending(b) && a != [] && b != [] && forall x :: x in a <==> x in b
    ensures a[0] == b[0]
  {
    assert a[0] in b && b[0] in a;
    HeadIsGreatest(a, b[0]);
    HeadIsGreatest(b, a[0]);
    LessTotal(a[0].identity, b[0].identity);
  }

  /** Copies are told apart by identity alone, so every sorting routine gives this result. */
  lemma {:induction false} SortUnique(a: seq<Backup>, b: seq<Backup>)
    requires Descending(a) && Descending(b) && multiset(a) == multiset(b)
    ensures a == b
  {
    SameElements(a, b);
    assert |multiset(a)| == |a| && |multiset(b)| == |b|;
    if a != [] {
      SameHead(a, b);
      TailElements(a);
      TailElements(b);
      SortUnique(a[1..], b[1..]);
      assert a == [a[0]] + a[1..] && b == [b[0]] + b[1..];
    }
  }

  lemma TailElements(s: seq<Backup>)
    requires s != []
    ensures multiset(s[1..]) == multiset(s) - multiset{s[0]}
  {
    assert s == [s[0]] + s[1..];
  }

  lemma SortSorted(s: seq<Backup>)
    requires Descending(s)
    ensures SortDesc(s) == s
  {
    SortDescends(s);
    SortUnique(SortDesc(s), s);
  }

  /** The first of the sorted copies is the greatest. */
  lemma NewestIsGreatest(s: seq<Backup>, b: Backup)
    requires b in s
    ensures s != [] && !Less(SortDesc(s)[0].identity, b.identity)
  {
    SortDescends(s);
    SameElements(SortDesc(s), s);
    var r := SortDesc(s);
    var i :| 0 <= i < |r| && r[i] == b;
    if i == 0 {
      LessIrreflexive(b.identity);
    }
  }

  // ----- The newest copies ----------------------------------------------------------

  function Top(s: seq<Backup>): seq<Backup> {
    if |s| <= KEEP_COPIES_CNT then s else s[..KEEP_COPIES_CNT]
  }

  /** The newest min(4, n) copies, newest first. */
  function Newest(copies: seq<Backup>): seq<Backup> {
    Top(SortDesc(copies))
  }

  /** Inserting shifts each element by at most one place. */
  lemma {:induction false} InsertAt(b: Backup, s: seq<Backup>, i: nat)
    requires i <= |s|
    ensures var r := Insert(b, s);
            r[i] == b || (i < |s| && r[i] == s[i]) || (0 < i && r[i] == s[i - 1])
  {
    if s != [] && !Less(s[0].identity, b.identity) && i > 0 {
      var rest := s[1..];
      InsertAt(b, rest, i - 1);
      assert Insert(b, s)[i] == Insert(b, rest)[i - 1];
      assert i < |s| ==> rest[i - 1] == s[i];
      assert 1 < i ==> rest[i - 2] == s[i - 1];
    }
  }

  lemma SortAppend(copies: seq<Backup>, b: Backup)
    ensures SortDesc(copies + [b]) == Insert(b, SortDesc(copies))
  {
    assert (copies + [b])[..|copies|] == copies;
  }

  lemma TopOfInsert(b: Backup, s: seq<Backup>, x: Backup)
    requires x in Top(Insert(b, s))
    ensures x == b || x in Top(s)
  {
    var r := Top(Insert(b, s));
    var i :| 0 <= i < |r| && r[i] == x;
    assert Insert(b, s)[i] == x;
    InsertAt(b, s, i);
    if i < |s| && x == s[i] {
      assert Top(s)[i] == x;
    } else if 0 < i && x == s[i - 1] {
      assert Top(s)[i - 1] == x;
    }
  }

  /** One more copy: whoever is among the newest is that copy or was among the newest. */
  lemma NewestAfterAppend(copies: seq<Backup>, b: Backup, x: Backup)
    requires x in Newest(copies + [b])
    ensures x == b || x in Newest(copies)
  {
    SortAppend(copies, b);
    TopOfInsert(b, SortDesc(copies), x);
  }

  lemma NewestOfSorted(copies: seq<Backup>)
    ensures Newest(SortDesc(copies)) == Newest(copies)
    ensures Newest(Newest(copies)) == Newest(copies)
  {
    SortDescends(copies);
    SortSorted(SortDesc(copies));
    SortSorted(Newest(copies));
  }

  /** An appended copy that is later than all others comes first. */
  lemma LatestFirst(copies: seq<Backup>, b: Backup)
    requires forall x :: x in copies ==> Less(x.identity, b.identity)
    ensures SortDesc(copies + [b])[0] == b
  {
    var all := copies + [b];
    NewestIsGreatest(all, b);
    SameElements(SortDesc(all), all);
    var r := SortDesc(all)[0];
    assert r in SortDesc(all);
    assert r in copies ==> Less(r.identity, b.identity);
  }

  predicate DistinctCopies(copies: seq<Backup>) {
    forall i, j :: 0 <= i < j < |copies| ==> copies[i] != copies[j]
  }

  /** Sorting keeps copies distinct. */
  lemma SortDistinct(copies: seq<Backup>)
    requires DistinctCopies(copies)
    ensures DistinctCopies(SortDesc(copies))
  {
    var r := SortDesc(copies);
    forall i, j | 0 <= i < j < |r|
      ensures r[i] != r[j]
    {
      if r[i] == r[j] {
        TwiceInSeq(r, i, j);
        OnceInSeq(copies, r[i]);
      }
    }
  }

  lemma TwiceInSeq(s: seq<Backup>, i: nat, j: nat)
    requires i < j < |s| && s[i] == s[j]
    ensures multiset(s)[s[i]] >= 2
  {
    assert s == s[..j] + s[j..];
    assert s[i] in s[..j] && s[j] in s[j..];
    assert multiset(s) == multiset(s[..j]) + multiset(s[j..]);
    assert multiset(s[..j])[s[i]] >= 1 && multiset(s[j..])[s[i]] >= 1;
  }

  lemma {:induction false} OnceInSeq(s: seq<Backup>, x: Backup)
    requires DistinctCopies(s)
    ensures multiset(s)[x] <= 1
  {
    if s != [] {
      assert s == [s[0]] + s[1..];
      OnceInSeq(s[1..], x);
      if x == s[0] {
        assert x !in s[1..];
      }
    }
  }
}

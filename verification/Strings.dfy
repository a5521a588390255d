/** The parts of Go's `strings` package that the modelled code relies on. */
module Strings {

  predicate OccursAt(s: string, sub: string, i: int) {
    0 <= i <= |s| - |sub| && s[i..i + |sub|] == sub
  }

  predicate Contains(s: string, sub: string) {
    exists i :: 0 <= i <= |s| && OccursAt(s, sub, i)
  }

  /** Index of the first occurrence, or -1. */
  function IndexOf(s: string, sub: string): (i: int)
    ensures -1 <= i <= |s| - |sub| || i == -1
    ensures i < 0 ==> !Contains(s, sub)
    ensures 0 <= i ==> OccursAt(s, sub, i) && forall j :: 0 <= j < i ==> !OccursAt(s, sub, j)
  {
    IndexFrom(s, sub, 0)
  }

  function IndexFrom(s: string, sub: string, from: nat): (i: int)
    requires from <= |s|
    ensures i == -1 || from <= i <= |s| - |sub|
    ensures i < 0 ==> forall j :: from <= j <= |s| ==> !OccursAt(s, sub, j)
    ensures 0 <= i ==> OccursAt(s, sub, i) && forall j :: from <= j < i ==> !OccursAt(s, sub, j)
    decreases |s| - from
  {
    if OccursAt(s, sub, from) then from
    else if from == |s| then -1
    else IndexFrom(s, sub, from + 1)
  }

  /** `strings.Split` for a non-empty separator: cut at every leftmost occurrence. */
  function Split(s: string, sep: string): (parts: seq<string>)
    requires sep != ""
    ensures parts != []
    decreases |s|
  {
    var i := IndexOf(s, sep);
    if i < 0 then [s] else [s[..i]] + Split(s[i + |sep|..], sep)
  }

  /** A separator that starts right behind `a`, and nowhere earlier, ends the first piece. */
  lemma SplitAt(a: string, sep: string, b: string)
    requires sep != ""
    requires forall j :: 0 <= j < |a| ==> !OccursAt(a + sep + b, sep, j)
    ensures Split(a + sep + b, sep) == [a] + Split(b, sep)
  {
    var s := a + sep + b;
    assert OccursAt(s, sep, |a|) by { assert s[|a|..|a| + |sep|] == sep; }
    var i := IndexOf(s, sep);
    assert i == |a| by { assert OccursAt(s, sep, i); }
    assert s[..i] == a && s[i + |sep|..] == b;
  }

  lemma NoCharOccurrence(s: string, c: char)
    requires c !in s
    ensures !Contains(s, [c])
  {
    forall i | 0 <= i <= |s|
      ensures !OccursAt(s, [c], i)
    {
      assert i < |s| ==> s[i..i + 1] == [s[i]];
    }
  }

  lemma SplitAtChar(a: string, c: char, b: string)
    requires c !in a
    ensures Split(a + [c] + b, [c]) == [a] + Split(b, [c])
  {
    forall j | 0 <= j < |a|
      ensures !OccursAt(a + [c] + b, [c], j)
    {
      assert (a + [c] + b)[j..j + 1][0] == a[j];
    }
    SplitAt(a, [c], b);
  }

  lemma SplitWithoutChar(s: string, c: char)
    requires c !in s
    ensures Split(s, [c]) == [s]
  {
    NoCharOccurrence(s, c);
  }

  /** No piece keeps the separator, and no piece holds a character the whole string lacks. */
  lemma {:induction false} SplitPieces(s: string, c: char)
    ensures forall p :: p in Split(s, [c]) ==> c !in p && forall d :: d in p ==> d in s
    decreases |s|
  {
    var i := IndexOf(s, [c]);
    if i < 0 {
      if c in s {
        var k :| 0 <= k < |s| && s[k] == c;
        assert OccursAt(s, [c], k);
        assert false;
      }
    } else {
      SplitPieces(s[i + 1..], c);
      if c in s[..i] {
        var k :| 0 <= k < i && s[k] == c;
        assert OccursAt(s, [c], k);
        assert false;
      }
    }
  }
}

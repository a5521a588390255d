/** Small datatypes shared by the models. */
module Basics {

  datatype Option<+T> = None | Some(value: T)

  datatype Result<+T> = Ok(value: T) | Err(error: string)

  /** A remote call: done and confirmed, done but the answer was an error, or not done. */
  datatype Reply = Done | Lost | Refused {
    predicate Applied() {
      Done? || Lost?
    }
  }

  function Max(x: int, y: int): int {
    if x < y then y else x
  }

  /** The elements of a sequence, as a set. */
  function Elements<T>(s: seq<T>): set<T> {
    set x | x in s
  }

  predicate Distinct<T(==)>(s: seq<T>) {
    forall i, j :: 0 <= i < j < |s| ==> s[i] != s[j]
  }

  /** The elements worth keeping, in order. */
  function Filter<T(!new)>(s: seq<T>, keep: T -> bool): (r: seq<T>)
    ensures forall x :: x in r <==> x in s && keep(x)
    ensures |r| <= |s|
  {
    if s == [] then []
    else if keep(s[0]) then [s[0]] + Filter(s[1..], keep)
    else Filter(s[1..], keep)
  }

  predicate Pairwise<T>(s: seq<T>, rel: (T, T) -> bool) {
    forall i, j :: 0 <= i < j < |s| ==> rel(s[i], s[j])
  }

  lemma {:induction false} FilterPairwise<T(!new)>(s: seq<T>, keep: T -> bool, rel: (T, T) -> bool)
    requires Pairwise(s, rel)
    ensures Pairwise(Filter(s, keep), rel)
  {
    if s != [] {
      var rest := Filter(s[1..], keep);
      FilterPairwise(s[1..], keep, rel);
      forall j | 0 <= j < |rest|
        ensures rel(s[0], rest[j])
      {
        assert rest[j] in s[1..];
      }
    }
  }

  lemma {:induction false} FilterAll<T(!new)>(s: seq<T>, keep: T -> bool)
    requires forall x :: x in s ==> keep(x)
    ensures Filter(s, keep) == s
  {
    if s != [] {
      assert s[0] in s;
      FilterAll(s[1..], keep);
    }
  }

  lemma SubsetSize<T>(a: set<T>, b: set<T>)
    requires a <= b
    ensures |a| <= |b|
    ensures |a| == |b| ==> a == b
  {
    assert |b| == |a| + |b - a| by { assert b == a + (b - a); }
    if |a| == |b| {
      assert b - a == {};
      assert a == b;
    }
  }

  lemma SplitSize<T>(a: set<T>, b: set<T>)
    ensures |a| == |a * b| + |a - b|
  {
    assert a == (a * b) + (a - b);
  }

  /** Some order of the elements of a set. */
  lemma {:induction false} Enumerate<T>(s: set<T>) returns (r: seq<T>)
    ensures Distinct(r) && Elements(r) == s
    decreases s
  {
    r := [];
    if s != {} {
      var x :| x in s;
      var rest := Enumerate(s - {x});
      forall i | 0 <= i < |rest|
        ensures rest[i] != x
      {
        assert rest[i] in Elements(rest);
      }
      r := rest + [x];
      assert Elements(r) == Elements(rest) + {x};
    }
  }

  lemma {:induction false} SubsetOfSize<T>(s: set<T>, k: nat) returns (sub: set<T>)
    requires k <= |s|
    ensures sub <= s && |sub| == k
    decreases k
  {
    sub := {};
    if k > 0 {
      var rest := SubsetOfSize(s, k - 1);
      SplitSize(s, rest);
      assert s * rest == rest;
      var x :| x in s - rest;
      sub := rest + {x};
    }
  }

  /** A set with two elements or more has two that differ. */
  lemma TwoElements<T>(s: set<T>) returns (x: T, y: T)
    requires |s| >= 2
    ensures x in s && y in s && x != y
  {
    x :| x in s;
    assert |s - {x}| >= 1;
    y :| y in s - {x};
  }
}

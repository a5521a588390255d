/** Pruning empty values before hashing (pkg/utils/hash/hash.go). */
module Pruning {
  import opened Basics
  import opened JsonTree

  predicate IsZero(v: Json) {
    match v
    case Null => true
    case Bool(b) => !b
    case Num(n) => n == 0.0
    case Str(s) => s == ""
    case Arr(a) => a == []
    case Obj(m) => m == map[]
  }

  /** Maps are pruned from the inside out; slices are left as they are. */
  function Prune(v: Json): Json {
    if v.Obj? then Obj(map k | k in v.m && !IsZero(Prune(v.m[k])) :: Prune(v.m[k])) else v
  }

  /** The loop visits the keys in any order and deletes in place. */
  method RemoveEmptyValues(m: map<string, Json>) returns (r: map<string, Json>)
    ensures Obj(r) == Prune(Obj(m))
    decreases Obj(m)
  {
    r := m;
    var todo := m.Keys;
    while todo != {}
      invariant todo <= m.Keys
      invariant forall k :: k in r <==> k in m && (k in todo || !IsZero(Prune(m[k])))
      invariant forall k :: k in r ==> r[k] == if k in todo then m[k] else Prune(m[k])
      decreases todo
    {
      var k :| k in todo;
      var v := m[k];
      if v.Obj? {
        var sub := RemoveEmptyValues(v.m);
        v := Obj(sub);
        r := r[k := v];
      }
      if IsZero(v) {
        r := r - {k};
      }
      todo := todo - {k};
    }
    assert r == Prune(Obj(m)).m;
  }

  /** No empty value in any map that is reached through maps. */
  predicate Tidy(v: Json) {
    v.Obj? ==> forall k :: k in v.m ==> !IsZero(v.m[k]) && Tidy(v.m[k])
  }

  lemma {:induction false} PruneTidies(v: Json)
    ensures Tidy(Prune(v))
  {
    if v.Obj? {
      forall k | k in v.m
        ensures Tidy(Prune(v.m[k]))
      {
        PruneTidies(v.m[k]);
      }
    }
  }

  lemma {:induction false} TidyIsFixed(v: Json)
    requires Tidy(v)
    ensures Prune(v) == v
  {
    if v.Obj? {
      forall k | k in v.m
        ensures Prune(v.m[k]) == v.m[k]
      {
        TidyIsFixed(v.m[k]);
      }
      assert Prune(v).m == v.m;
    }
  }

  lemma PruneIdempotent(v: Json)
    ensures Prune(Prune(v)) == Prune(v)
  {
    PruneTidies(v);
    TidyIsFixed(Prune(v));
  }

  /** Empty, or a map of nothing but such values. */
  predicate Hollow(v: Json) {
    if v.Obj? then forall k :: k in v.m ==> Hollow(v.m[k]) else IsZero(v)
  }

  lemma {:induction false} HollowVanishes(v: Json)
    ensures IsZero(Prune(v)) <==> Hollow(v)
  {
    if v.Obj? {
      forall k | k in v.m
        ensures IsZero(Prune(v.m[k])) <==> Hollow(v.m[k])
      {
        HollowVanishes(v.m[k]);
      }
      if !Hollow(v) {
        var k :| k in v.m && !Hollow(v.m[k]);
        assert k in Prune(v).m;
      } else {
        assert Prune(v).m == map[];
      }
    }
  }

  /** The same object but for keys with hollow values, at any depth of maps. */
  predicate SameButHollow(a: Json, b: Json) {
    if a.Obj? && b.Obj? then
      && (forall k :: k in a.m && !Hollow(a.m[k]) ==> k in b.m && !Hollow(b.m[k]) && SameButHollow(a.m[k], b.m[k]))
      && (forall k :: k in b.m && !Hollow(b.m[k]) ==> k in a.m && !Hollow(a.m[k]))
    else a == b
  }

  /** Pruning is canonical: two objects get one result exactly when they differ only by hollow values. */
  lemma {:induction false} PruneCanonical(a: Json, b: Json)
    ensures Prune(a) == Prune(b) <==> SameButHollow(a, b)
  {
    if a.Obj? && b.Obj? {
      forall k | k in a.m
        ensures IsZero(Prune(a.m[k])) <==> Hollow(a.m[k])
      {
        HollowVanishes(a.m[k]);
      }
      forall k | k in b.m
        ensures IsZero(Prune(b.m[k])) <==> Hollow(b.m[k])
      {
        HollowVanishes(b.m[k]);
      }
      forall k | k in a.m && k in b.m
        ensures Prune(a.m[k]) == Prune(b.m[k]) <==> SameButHollow(a.m[k], b.m[k])
      {
        PruneCanonical(a.m[k], b.m[k]);
      }
      var p, q := Prune(a).m, Prune(b).m;
      if p == q {
        forall k | k in a.m && !Hollow(a.m[k])
          ensures k in b.m && !Hollow(b.m[k]) && SameButHollow(a.m[k], b.m[k])
        {
          assert k in p && k in q;
        }
        forall k | k in b.m && !Hollow(b.m[k])
          ensures k in a.m && !Hollow(a.m[k])
        {
          assert k in q && k in p;
        }
      }
      if SameButHollow(a, b) {
        assert forall k :: k in p <==> k in q;
        assert p == q;
      }
    }
  }

  // ----- Leaf by leaf -----------------------------------------------------------------

  /** What is found under these keys, going through maps. */
  function At(v: Json, ks: seq<string>): Option<Json>
    decreases |ks|
  {
    if ks == [] then Some(v)
    else if v.Obj? && ks[0] in v.m then At(v.m[ks[0]], ks[1..])
    else None
  }

  /** A value other than a map that says something: true, a number but zero, a text or a slice but the empty one. */
  predicate Substantial(v: Json) {
    match v
    case Null => false
    case Bool(b) => b
    case Num(n) => n < 0.0 || 0.0 < n
    case Str(s) => |s| > 0
    case Arr(a) => |a| > 0
    case Obj(_) => false
  }

  /** Exactly the substantial leaves survive, each in its place and as it was. */
  lemma {:induction false} LeafKept(v: Json, ks: seq<string>, x: Json)
    requires ks != [] && !x.Obj?
    ensures At(Prune(v), ks) == Some(x) <==> At(v, ks) == Some(x) && Substantial(x)
    decreases |ks|
  {
    if v.Obj? && ks[0] in v.m {
      var c := v.m[ks[0]];
      if |ks| == 1 {
        assert ks[1..] == [];
      } else {
        LeafKept(c, ks[1..], x);
      }
    }
  }

  lemma {:induction false} AtConcat(v: Json, ks: seq<string>, more: seq<string>)
    requires At(v, ks).Some?
    ensures At(v, ks + more) == At(At(v, ks).value, more)
    decreases |ks|
  {
    if ks == [] {
      assert ks + more == more;
    } else {
      assert (ks + more)[0] == ks[0] && (ks + more)[1..] == ks[1..] + more;
      AtConcat(v.m[ks[0]], ks[1..], more);
    }
  }

  lemma {:induction false} AtPrefix(v: Json, ks: seq<string>, more: seq<string>)
    requires At(v, ks + more).Some?
    ensures At(v, ks).Some?
    decreases |ks|
  {
    if ks != [] {
      assert (ks + more)[0] == ks[0] && (ks + more)[1..] == ks[1..] + more;
      AtPrefix(v.m[ks[0]], ks[1..], more);
    }
  }

  /** Below these keys there is a substantial leaf. */
  ghost predicate HasLeaf(v: Json, ks: seq<string>) {
    exists more, x :: At(v, ks + more) == Some(x) && Substantial(x)
  }

  lemma {:induction false} TidyHasLeaf(v: Json) returns (more: seq<string>, x: Json)
    requires Tidy(v) && !IsZero(v)
    ensures At(v, more) == Some(x) && Substantial(x)
  {
    more, x := [], v;
    if v.Obj? {
      var k :| k in v.m;
      more, x := TidyHasLeaf(v.m[k]);
      assert ([k] + more)[1..] == more;
      more := [k] + more;
    }
  }

  lemma {:induction false} TidyBelow(v: Json, ks: seq<string>)
    requires Tidy(v) && ks != [] && At(v, ks).Some?
    ensures Tidy(At(v, ks).value) && !IsZero(At(v, ks).value)
    decreases |ks|
  {
    if |ks| == 1 {
      assert ks[1..] == [];
    } else {
      TidyBelow(v.m[ks[0]], ks[1..]);
    }
  }

  /** A key survives if and only if a substantial leaf lies under it. */
  lemma KeyKept(v: Json, ks: seq<string>)
    requires ks != []
    ensures At(Prune(v), ks).Some? <==> HasLeaf(v, ks)
  {
    if At(Prune(v), ks).Some? {
      PruneTidies(v);
      TidyBelow(Prune(v), ks);
      var more, x := TidyHasLeaf(At(Prune(v), ks).value);
      AtConcat(Prune(v), ks, more);
      LeafKept(v, ks + more, x);
    }
    if HasLeaf(v, ks) {
      var more, x :| At(v, ks + more) == Some(x) && Substantial(x);
      LeafKept(v, ks + more, x);
      AtPrefix(Prune(v), ks, more);
    }
  }
}

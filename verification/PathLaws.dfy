/** What reading and writing along paths promise each other. */
module PathLaws {
  import opened Basics
  import opened JsonTree
  import opened PathWalk

  predicate MapOnly(path: seq<Field>) {
    forall f :: f in path ==> ValueType(f).MapField?
  }

  /** Somewhere on the way sits a value that is not a map. */
  predicate Blocked(v: Json, path: seq<Field>)
    requires path != []
    decreases |path|
  {
    !v.Obj? || (|path| > 1 && path[0].name in v.m && Blocked(v.m[path[0].name], path[1..]))
  }

  /** On a path of maps a write fails exactly when it is blocked, and then changes nothing. */
  lemma {:induction false} WriteFails(v: Json, path: seq<Field>, x: Json)
    requires path != [] && MapOnly(path)
    ensures var (r, t) := Walk(v, path, x, true);
            && (r.Err? <==> Blocked(v, path))
            && (r.Err? ==> t == v)
            && (r.Ok? ==> r == Ok(x) && t.Obj?)
    decreases |path|
  {
    var f, rest := path[0], path[1..];
    assert f in path;
    if v.Obj? && rest != [] {
      var m := if f.name in v.m then v.m else v.m[f.name := Obj(map[])];
      WriteFails(m[f.name], rest, x);
      if f.name !in v.m {
        NotBlocked(rest);
      } else {
        assert v.m[f.name := v.m[f.name]] == v.m;
      }
    }
  }

  lemma NotBlocked(path: seq<Field>)
    requires path != []
    ensures !Blocked(Obj(map[]), path)
  {
  }

  /** Set, then get: the value comes back and the tree stays. */
  lemma {:induction false} SetThenGet(v: Json, path: seq<Field>, x: Json, y: Json)
    requires path != [] && MapOnly(path)
    ensures var (r, t) := Walk(v, path, x, true);
            r.Ok? ==> Walk(t, path, y, false) == (Ok(x), t)
    decreases |path|
  {
    var f, rest := path[0], path[1..];
    assert f in path;
    if v.Obj? && rest != [] {
      var m := if f.name in v.m then v.m else v.m[f.name := Obj(map[])];
      SetThenGet(m[f.name], rest, x, y);
      var (r, child) := Walk(m[f.name], rest, x, true);
      var t := m[f.name := child];
      assert Walk(v, path, x, true) == (r, Obj(t));
      assert t[f.name := child] == t;
    }
  }

  /** Of two writes the later one wins. */
  lemma {:induction false} SetThenSet(v: Json, path: seq<Field>, x: Json, y: Json)
    requires path != [] && MapOnly(path)
    ensures var (r, t) := Walk(v, path, x, true);
            r.Ok? ==> Walk(t, path, y, true) == Walk(v, path, y, true)
    decreases |path|
  {
    var f, rest := path[0], path[1..];
    assert f in path;
    if v.Obj? {
      if rest == [] {
        assert v.m[f.name := x][f.name := y] == v.m[f.name := y];
      } else {
        var m := if f.name in v.m then v.m else v.m[f.name := Obj(map[])];
        SetThenSet(m[f.name], rest, x, y);
        var (_, c1) := Walk(m[f.name], rest, x, true);
        var (_, c2) := Walk(m[f.name], rest, y, true);
        assert m[f.name := c1][f.name := c2] == m[f.name := c2];
      }
    }
  }

  /** Every field of the path is there. */
  predicate Present(v: Json, path: seq<Field>)
    decreases |path|
  {
    path == [] || (v.Obj? && path[0].name in v.m && Present(v.m[path[0].name], path[1..]))
  }

  /** The value at the end of a path that is there. */
  function ValueAt(v: Json, path: seq<Field>): Json
    requires Present(v, path)
    decreases |path|
  {
    if path == [] then v else ValueAt(v.m[path[0].name], path[1..])
  }

  /** Reading along maps fails exactly when it is blocked, and yields what is there, or the empty map it makes. */
  lemma {:induction false} ReadYields(v: Json, path: seq<Field>, y: Json)
    requires path != [] && MapOnly(path)
    ensures var r := Walk(v, path, y, false).0;
            if Blocked(v, path) then r.Err?
            else r == Ok(if Present(v, path) then ValueAt(v, path) else Obj(map[]))
    decreases |path|
  {
    var f, rest := path[0], path[1..];
    assert f in path;
    if v.Obj? && rest != [] {
      var m := if f.name in v.m then v.m else v.m[f.name := Obj(map[])];
      ReadYields(m[f.name], rest, y);
      if f.name !in v.m {
        NotBlocked(rest);
        assert !Present(Obj(map[]), rest);
      }
    }
  }

  /** Reading along maps leaves the tree alone exactly when the path is there or is blocked. */
  lemma {:induction false} ReadIsPure(v: Json, path: seq<Field>, y: Json)
    requires path != [] && MapOnly(path)
    ensures Walk(v, path, y, false).1 == v <==> Present(v, path) || Blocked(v, path)
    decreases |path|
  {
    var f, rest := path[0], path[1..];
    assert f in path;
    if v.Obj? && rest != [] {
      if f.name in v.m {
        ReadIsPure(v.m[f.name], rest, y);
        var (r, child) := Walk(v.m[f.name], rest, y, false);
        assert Walk(v, path, y, false) == (r, Obj(v.m[f.name := child]));
        if child == v.m[f.name] {
          assert v.m[f.name := child] == v.m;
        } else {
          assert v.m[f.name := child][f.name] != v.m[f.name];
        }
      } else {
        var m := v.m[f.name := Obj(map[])];
        var (r, child) := Walk(m[f.name], rest, y, false);
        assert Walk(v, path, y, false) == (r, Obj(m[f.name := child]));
        assert f.name in m[f.name := child];
      }
    }
  }

  /** Reading a missing field creates it. */
  lemma ReadCreates() returns (v: Json, f: Field)
    ensures MapOnly([f]) && Walk(v, [f], Null, false).1 != v
  {
    v, f := Obj(map[]), Field("a", "", "");
    assert !Present(v, [f]) && !Blocked(v, [f]);
    ReadIsPure(v, [f], Null);
  }

  /** Get, then set: writing back what was read changes nothing. */
  lemma {:induction false} GetThenSet(v: Json, path: seq<Field>, y: Json)
    requires path != [] && MapOnly(path) && Present(v, path)
    ensures var (r, t) := Walk(v, path, y, false);
            r.Ok? && t == v && Walk(v, path, r.value, true) == (r, v)
    decreases |path|
  {
    var f, rest := path[0], path[1..];
    assert f in path;
    assert v.m[f.name := v.m[f.name]] == v.m;
    if rest != [] {
      GetThenSet(v.m[f.name], rest, y);
    }
  }

  /** The two paths part before either ends. */
  predicate Diverge(p: seq<Field>, q: seq<Field>) {
    p != [] && q != [] && (p[0].name != q[0].name || Diverge(p[1..], q[1..]))
  }

  /** A write changes one field of the map it starts from. */
  lemma WriteTouchesOne(v: Json, p: seq<Field>, x: Json)
    requires v.Obj? && p != [] && MapOnly(p)
    ensures var t := Walk(v, p, x, true).1;
            t.Obj? && forall k :: k != p[0].name ==> (k in t.m <==> k in v.m) && (k in v.m ==> t.m[k] == v.m[k])
  {
    assert p[0] in p;
  }

  /** A read depends on one field of the map it starts from. */
  lemma ReadSeesOne(v: Json, w: Json, q: seq<Field>, y: Json)
    requires v.Obj? && w.Obj? && q != [] && MapOnly(q)
    requires (q[0].name in v.m <==> q[0].name in w.m) && (q[0].name in v.m ==> v.m[q[0].name] == w.m[q[0].name])
    ensures Walk(v, q, y, false).0 == Walk(w, q, y, false).0
  {
    assert q[0] in q;
  }

  /** A write does not show on a path that parts from its own. */
  lemma {:induction false} OtherPathsKept(v: Json, p: seq<Field>, q: seq<Field>, x: Json, y: Json)
    requires p != [] && q != [] && MapOnly(p) && MapOnly(q) && Diverge(p, q)
    ensures Walk(Walk(v, p, x, true).1, q, y, false).0 == Walk(v, q, y, false).0
    decreases |p|
  {
    var f, g := p[0], q[0];
    assert f in p && g in q;
    if v.Obj? {
      if f.name != g.name {
        WriteTouchesOne(v, p, x);
        ReadSeesOne(Walk(v, p, x, true).1, v, q, y);
      } else {
        var m := if f.name in v.m then v.m else v.m[f.name := Obj(map[])];
        OtherPathsKept(m[f.name], p[1..], q[1..], x, y);
        var (_, child) := Walk(m[f.name], p[1..], x, true);
        assert Walk(v, p, x, true).1 == Obj(m[f.name := child]);
      }
    }
  }

  // ----- name[key] --------------------------------------------------------------------

  lemma {:induction false} ReplacedGet(s: seq<Json>, key: string, x: Json)
    requires AllStrings(s) && exists v :: v in s && Matches(v, key)
    ensures SimpleGet(ReplaceAll(s, key, x), key) == Ok(x) <==> Matches(x, key)
    decreases |s|
  {
    if Matches(s[0], key) {
      assert ReplaceAll(s, key, x)[0] == x;
      if x.Str? && !Matches(x, key) {
        NothingLeft(s, key, x);
      }
    } else {
      assert s[0] in s;
      assert forall v :: v in s ==> v == s[0] || v in s[1..];
      assert ReplaceAll(s, key, x)[1..] == ReplaceAll(s[1..], key, x);
      ReplacedGet(s[1..], key, x);
    }
  }

  lemma {:induction false} NothingLeft(s: seq<Json>, key: string, x: Json)
    requires AllStrings(s) && x.Str? && !Matches(x, key)
    ensures SimpleGet(ReplaceAll(s, key, x), key).Err?
    decreases |s|
  {
    if s != [] {
      assert s[0] in s;
      assert ReplaceAll(s, key, x)[1..] == ReplaceAll(s[1..], key, x);
      NothingLeft(s[1..], key, x);
    }
  }

  lemma {:induction false} AppendedGet(s: seq<Json>, key: string, x: Json)
    requires AllStrings(s) && forall v :: v in s ==> !Matches(v, key)
    ensures SimpleGet(s + [x], key) == Ok(x) <==> Matches(x, key)
    decreases |s|
  {
    if s != [] {
      assert s[0] in s;
      assert (s + [x])[1..] == s[1..] + [x];
      AppendedGet(s[1..], key, x);
    } else {
      assert s + [x] == [x] && [x][1..] == [];
    }
  }

  /** After `name[key] = x`, reading `name[key]` yields x exactly when x starts with the key. */
  lemma SimpleSetThenGet(s: seq<Json>, key: string, x: Json)
    requires SimpleSet(s, key, x).Ok?
    ensures SimpleGet(SimpleSet(s, key, x).value, key) == Ok(x) <==> Matches(x, key)
  {
    if exists v :: v in s && Matches(v, key) {
      ReplacedGet(s, key, x);
    } else {
      AppendedGet(s, key, x);
    }
  }

  /** The elements that do not match, in order. */
  function Rest(s: seq<Json>, key: string): seq<Json> {
    if s == [] then [] else (if Matches(s[0], key) then [] else [s[0]]) + Rest(s[1..], key)
  }

  lemma {:induction false} ReplacedRest(s: seq<Json>, key: string, x: Json)
    requires Matches(x, key)
    ensures Rest(ReplaceAll(s, key, x), key) == Rest(s, key)
    decreases |s|
  {
    if s != [] {
      assert ReplaceAll(s, key, x)[1..] == ReplaceAll(s[1..], key, x);
      ReplacedRest(s[1..], key, x);
    }
  }

  lemma {:induction false} AppendedRest(s: seq<Json>, key: string, x: Json)
    requires Matches(x, key)
    ensures Rest(s + [x], key) == Rest(s, key)
    decreases |s|
  {
    if s != [] {
      assert (s + [x])[1..] == s[1..] + [x];
      AppendedRest(s[1..], key, x);
    } else {
      assert s + [x] == [x] && [x][1..] == [];
    }
  }

  /** Elements that do not match keep their values and their order. */
  lemma SimpleSetKeepsRest(s: seq<Json>, key: string, x: Json)
    requires SimpleSet(s, key, x).Ok? && Matches(x, key)
    ensures Rest(SimpleSet(s, key, x).value, key) == Rest(s, key)
  {
    ReplacedRest(s, key, x);
    AppendedRest(s, key, x);
  }

  /** The same through any path of maps in front. */
  lemma {:induction false} SliceSetThenGet(v: Json, p: seq<Field>, f: Field, x: Json, y: Json)
    requires MapOnly(p) && ValueType(f).SimpleSlice?
    ensures var (r, t) := Walk(v, p + [f], x, true);
            r.Ok? ==> (Walk(t, p + [f], y, false).0 == Ok(x) <==> Matches(x, f.key))
    decreases |p|
  {
    if p == [] {
      assert p + [f] == [f] && [f][1..] == [];
      if v.Obj? && f.name in v.m && v.m[f.name].Arr? && SimpleSet(v.m[f.name].a, f.key, x).Ok? {
        SimpleSetThenGet(v.m[f.name].a, f.key, x);
      }
    } else {
      var g := p[0];
      assert g in p;
      assert (p + [f])[0] == g && (p + [f])[1..] == p[1..] + [f];
      if v.Obj? {
        var m := if g.name in v.m then v.m else v.m[g.name := Obj(map[])];
        SliceSetThenGet(m[g.name], p[1..], f, x, y);
      }
    }
  }

  /**
   A failed write to `p.name[key]` or `p.name[key:value]` does change the tree when a field of p was missing:
   the maps made on the way stay. It changes nothing exactly when p is there or blocked.
   */
  lemma {:induction false} FailedSliceWrite(v: Json, p: seq<Field>, f: Field, x: Json)
    requires p != [] && MapOnly(p) && IsSlice(f)
    ensures var (r, t) := Walk(v, p + [f], x, true);
            r.Err? ==> (t == v <==> Present(v, p) || Blocked(v, p))
    ensures !Present(v, p) ==> Walk(v, p + [f], x, true).0.Err?
    decreases |p|
  {
    var g, rest := p[0], p[1..];
    assert g in p;
    assert (p + [f])[0] == g && (p + [f])[1..] == rest + [f];
    if v.Obj? {
      var m := if g.name in v.m then v.m else v.m[g.name := Obj(map[])];
      var (r, child) := Walk(m[g.name], rest + [f], x, true);
      assert Walk(v, p + [f], x, true) == (r, Obj(m[g.name := child]));
      if rest == [] {
        LoneSliceWrite(m[g.name], f, x);
        assert rest + [f] == [f];
      } else {
        FailedSliceWrite(m[g.name], rest, f, x);
      }
      Replaced(v.m, m, g.name, child);
      assert Obj(m[g.name := child]) == v <==> m[g.name := child] == v.m;
      assert Present(v, p) <==> g.name in v.m && Present(v.m[g.name], rest);
      assert Blocked(v, p) <==> rest != [] && g.name in v.m && Blocked(v.m[g.name], rest);
    }
  }

  /** Writing `a.b[k]` into an empty tree fails and leaves an empty map under `a`. */
  lemma FailedWriteCreates() returns (v: Json, p: seq<Field>, f: Field)
    ensures MapOnly(p) && ValueType(f).SimpleSlice?
    ensures var (r, t) := Walk(v, p + [f], Str("k"), true); r.Err? && t != v
  {
    v, p, f := Obj(map[]), [Field("a", "", "")], Field("b", "k", "");
    assert !Present(v, p) && !Blocked(v, p);
    FailedSliceWrite(v, p, f, Str("k"));
  }

  lemma LoneSliceWrite(v: Json, f: Field, x: Json)
    requires IsSlice(f)
    ensures Walk(v, [f], x, true).0.Err? ==> Walk(v, [f], x, true).1 == v
    ensures v == Obj(map[]) ==> Walk(v, [f], x, true).0.Err?
  {
    assert [f][1..] == [];
  }

  /** When putting a child back leaves a map as it was. */
  lemma Replaced(old_: map<string, Json>, m: map<string, Json>, name: string, child: Json)
    requires m == if name in old_ then old_ else old_[name := Obj(map[])]
    ensures m[name := child] == old_ <==> name in old_ && child == old_[name]
  {
    if name in old_ && child == old_[name] {
      assert m[name := child] == old_;
    } else {
      assert m[name := child][name] == child;
    }
  }

  // ----- name[key:value].field ---------------------------------------------------------

  lemma {:induction false} SameSelection(s: seq<Json>, t: seq<Json>, f: Field)
    requires |s| == |t|
    requires forall k :: 0 <= k < |s| ==> (s[k].Obj? <==> t[k].Obj?) && (Selected(s[k], f) <==> Selected(t[k], f))
    ensures FirstSelected(s, f) == FirstSelected(t, f)
    decreases |s|
  {
    if s != [] {
      SameSelection(s[1..], t[1..], f);
    }
  }

  lemma {:induction false} SelectedIsFound(s: seq<Json>, f: Field, k: nat)
    requires AllMaps(s) && k < |s| && Selected(s[k], f)
    ensures FirstSelected(s, f).Ok?
    decreases |s|
  {
    assert s[0] in s;
    if k > 0 {
      SelectedIsFound(s[1..], f, k - 1);
    }
  }

  /** The slice that `p.name[key:value]` speaks of. */
  function SliceAt(v: Json, p: seq<Field>, f: Field): Option<seq<Json>>
    decreases |p|
  {
    if !v.Obj? then None
    else if p == [] then if f.name in v.m && v.m[f.name].Arr? then Some(v.m[f.name].a) else None
    else if p[0].name in v.m then SliceAt(v.m[p[0].name], p[1..], f)
    else None
  }

  /** When a write below `name[key:value]` is read back. */
  predicate ReadBack(s: seq<Json>, f: Field, q: seq<Field>, x: Json, before: Result<Json>)
    requires q != []
  {
    if q[0].name == f.key then x == Str(f.value)
    else FirstSelected(s, f) == LastSelected(s, f) || before == Ok(x)
  }

  /** Reading and writing below the slice of a map. */
  lemma WalkSlice(v: Json, f: Field, q: seq<Field>, x: Json, set_: bool)
    requires ValueType(f).ComplexSlice? && q != [] && v.Obj? && f.name in v.m && v.m[f.name].Arr?
    ensures var s := v.m[f.name].a;
            var k := Follow(s, f, set_);
            && (k.Err? ==> Walk(v, [f] + q, x, set_) == (Err(k.error), v))
            && (k.Ok? ==> var (r, child) := Walk(s[k.value], q, x, set_);
                          Walk(v, [f] + q, x, set_) == (r, Obj(v.m[f.name := Arr(s[k.value := child])])))
  {
    assert ([f] + q)[0] == f && ([f] + q)[1..] == q;
  }

  /** The selecting key itself is written: the element stays selected only if the value is the same. */
  lemma KeyWritten(s: seq<Json>, f: Field, j: nat, x: Json, y: Json, g: Field)
    requires ValueType(g).MapField? && g.name == f.key && AllMaps(s) && LastSelected(s, f) == Ok(j)
    ensures var t := s[j := Obj(s[j].m[g.name := x])];
            var k := FirstSelected(t, f);
            (k.Ok? && Walk(t[k.value], [g], y, false).0 == Ok(x)) <==> x == Str(f.value)
  {
    var t := s[j := Obj(s[j].m[g.name := x])];
    if x == Str(f.value) {
      assert s[j].m[g.name := x] == s[j].m;
      assert t == s;
      SelectedIsFound(s, f, j);
    }
    var k := FirstSelected(t, f);
    if k.Ok? {
      WalkOne(t[k.value], g, y, false);
    }
  }

  /** Another field is written: selection stays, and the read sees the write in one case. */
  lemma OtherWritten(s: seq<Json>, f: Field, j: nat, q: seq<Field>, x: Json, y: Json)
    requires MapOnly(q) && q != [] && q[0].name != f.key && AllMaps(s) && LastSelected(s, f) == Ok(j)
    requires Walk(s[j], q, x, true).0.Ok?
    ensures var t := s[j := Walk(s[j], q, x, true).1];
            var i := FirstSelected(s, f);
            && i.Ok? && FirstSelected(t, f) == i
            && (Walk(t[i.value], q, y, false).0 == Ok(x) <==>
                  i == LastSelected(s, f) || Walk(s[i.value], q, y, false).0 == Ok(x))
  {
    var t := s[j := Walk(s[j], q, x, true).1];
    WriteFails(s[j], q, x);
    WriteTouchesOne(s[j], q, x);
    SelectedIsFound(s, f, j);
    SameSelection(s, t, f);
    SetThenGet(s[j], q, x, y);
  }

  /** What a successful write below the slice has found and done. */
  lemma WrittenBelow(v: Json, f: Field, q: seq<Field>, x: Json) returns (j: nat)
    requires ValueType(f).ComplexSlice? && MapOnly(q) && q != [] && Walk(v, [f] + q, x, true).0.Ok?
    ensures v.Obj? && f.name in v.m && v.m[f.name].Arr?
    ensures var s := v.m[f.name].a;
            && AllMaps(s) && LastSelected(s, f) == Ok(j) && Walk(s[j], q, x, true).0 == Ok(x)
            && Walk(v, [f] + q, x, true) == (Ok(x), Obj(v.m[f.name := Arr(s[j := Walk(s[j], q, x, true).1])]))
  {
    assert ([f] + q)[0] == f && ([f] + q)[1..] == q;
    var s := v.m[f.name].a;
    WalkSlice(v, f, q, x, true);
    j := LastSelected(s, f).value;
    WriteFails(s[j], q, x);
  }

  lemma BelowKey(v: Json, f: Field, q: seq<Field>, x: Json, y: Json)
    requires ValueType(f).ComplexSlice? && MapOnly(q) && q != [] && Walk(v, [f] + q, x, true).0.Ok?
    requires q[0].name == f.key
    ensures Walk(Walk(v, [f] + q, x, true).1, [f] + q, y, false).0 == Ok(x) <==> x == Str(f.value)
  {
    var j := WrittenBelow(v, f, q, x);
    var s := v.m[f.name].a;
    WriteFails(s[j], q, x);
    assert q[0] in q && |q| == 1 && q == [q[0]];
    WalkOne(s[j], q[0], x, true);
    KeyWritten(s, f, j, x, y, q[0]);
    WalkSlice(Walk(v, [f] + q, x, true).1, f, q, y, false);
  }

  lemma BelowOther(v: Json, f: Field, q: seq<Field>, x: Json, y: Json)
    requires ValueType(f).ComplexSlice? && MapOnly(q) && q != [] && Walk(v, [f] + q, x, true).0.Ok?
    requires q[0].name != f.key
    ensures SliceAt(v, [], f).Some?
    ensures Walk(Walk(v, [f] + q, x, true).1, [f] + q, y, false).0 == Ok(x) <==>
            ReadBack(SliceAt(v, [], f).value, f, q, x, Walk(v, [f] + q, y, false).0)
  {
    var j := WrittenBelow(v, f, q, x);
    OtherWritten(v.m[f.name].a, f, j, q, x, y);
    WalkSlice(v, f, q, y, false);
    WalkSlice(Walk(v, [f] + q, x, true).1, f, q, y, false);
  }

  lemma BelowSlice(v: Json, f: Field, q: seq<Field>, x: Json, y: Json)
    requires ValueType(f).ComplexSlice? && MapOnly(q) && q != []
    ensures var (r, t) := Walk(v, [f] + q, x, true);
            r.Ok? ==>
              && r == Ok(x) && SliceAt(v, [], f).Some?
              && (Walk(t, [f] + q, y, false).0 == Ok(x) <==>
                    ReadBack(SliceAt(v, [], f).value, f, q, x, Walk(v, [f] + q, y, false).0))
  {
    if Walk(v, [f] + q, x, true).0.Ok? {
      var j := WrittenBelow(v, f, q, x);
      if q[0].name == f.key {
        BelowKey(v, f, q, x, y);
      } else {
        BelowOther(v, f, q, x, y);
      }
    }
  }

  /**
   Writing goes into the last selected element, reading comes from the first. So after
   `p.name[key:value].q = x`, for any paths of maps p and q, reading yields x exactly when
   only one element is selected or the first one already held x; and if q is the selecting
   key itself, exactly when x is the value selected by.
   */
  lemma {:induction false} ComplexSetThenGet(v: Json, p: seq<Field>, f: Field, q: seq<Field>, x: Json, y: Json)
    requires MapOnly(p) && ValueType(f).ComplexSlice? && MapOnly(q) && q != []
    ensures var path := p + ([f] + q);
            var (r, t) := Walk(v, path, x, true);
            r.Ok? ==>
              && r == Ok(x) && SliceAt(v, p, f).Some?
              && (Walk(t, path, y, false).0 == Ok(x) <==>
                    ReadBack(SliceAt(v, p, f).value, f, q, x, Walk(v, path, y, false).0))
    decreases |p|
  {
    var path := p + ([f] + q);
    if p == [] {
      assert path == [f] + q;
      BelowSlice(v, f, q, x, y);
    } else {
      var g, rest := p[0], p[1..] + ([f] + q);
      assert g in p && path[0] == g && path[1..] == rest;
      if v.Obj? {
        var m := if g.name in v.m then v.m else v.m[g.name := Obj(map[])];
        ComplexSetThenGet(m[g.name], p[1..], f, q, x, y);
        if g.name !in v.m {
          NoSlice(p[1..], f);
        }
      }
    }
  }

  lemma {:induction false} NoSlice(p: seq<Field>, f: Field)
    ensures SliceAt(Obj(map[]), p, f).None?
  {
  }

  lemma WalkOne(v: Json, g: Field, x: Json, set_: bool)
    requires v.Obj? && ValueType(g).MapField?
    ensures set_ ==> Walk(v, [g], x, set_) == (Ok(x), Obj(v.m[g.name := x]))
    ensures !set_ ==> Walk(v, [g], x, set_).0 == Ok(if g.name in v.m then v.m[g.name] else Obj(map[]))
  {
    assert [g][1..] == [];
  }

  /** Two selected elements: the write goes to the second, the read still sees the first. */
  lemma ReadMissesWrite() returns (v: Json, f: Field, g: Field)
    ensures Walk(v, [f] + [g], Str("new"), true).0.Ok?
    ensures Walk(Walk(v, [f] + [g], Str("new"), true).1, [f] + [g], Null, false).0 == Ok(Str("a"))
  {
    f, g := Field("list", "k", "v"), Field("n", "", "");
    var a, b := Obj(map["k" := Str("v"), "n" := Str("a")]), Obj(map["k" := Str("v"), "n" := Str("b")]);
    var s := [a, b];
    v := Obj(map["list" := Arr(s)]);
    assert Selected(a, f) && Selected(b, f);
    assert FirstSelected(s, f) == Ok(0);
    assert LastSelected(s, f) == Ok(1);
    var t := s[1 := Obj(b.m["n" := Str("new")])];
    assert ([f] + [g])[0] == f && ([f] + [g])[1..] == [g];
    WalkOne(b, g, Str("new"), true);
    assert Walk(v, [f] + [g], Str("new"), true).1 == Obj(v.m["list" := Arr(t)]);
    assert FirstSelected(t, f) == Ok(0);
    WalkOne(a, g, Null, false);
  }

  // ----- Paths that end in a slice ------------------------------------------------------

  predicate IsSlice(f: Field) {
    !ValueType(f).MapField?
  }

  /** The elements a field speaks of: texts that start with the key, or maps that hold the value under it. */
  predicate Hit(v: Json, f: Field) {
    if ValueType(f).SimpleSlice? then v.Str? && f.key <= v.s
    else v.Obj? && f.key in v.m && v.m[f.key] == Str(f.value)
  }

  /** Texts only, or maps only. */
  predicate Uniform(s: seq<Json>, f: Field) {
    forall v :: v in s ==> if ValueType(f).SimpleSlice? then v.Str? else v.Obj?
  }

  /** All hits become x and the rest stays; without a hit x is appended. */
  predicate Written(s: seq<Json>, t: seq<Json>, f: Field, x: Json) {
    if exists i :: 0 <= i < |s| && Hit(s[i], f) then
      |t| == |s| && forall i :: 0 <= i < |s| ==> t[i] == if Hit(s[i], f) then x else s[i]
    else t == s + [x]
  }

  /** Which element a read finds: the first text, if only texts come before it; the last map, if all are maps. */
  predicate FoundAt(s: seq<Json>, f: Field, k: int) {
    && 0 <= k < |s| && Hit(s[k], f)
    && if ValueType(f).SimpleSlice? then forall i :: 0 <= i < k ==> s[i].Str? && !Hit(s[i], f)
       else Uniform(s, f) && forall i :: k < i < |s| ==> !Hit(s[i], f)
  }

  ghost predicate AnyFound(s: seq<Json>, f: Field) {
    exists k :: FoundAt(s, f, k)
  }

  lemma {:induction false} ReplacedAt(s: seq<Json>, f: Field, x: Json, i: nat)
    requires i < |s|
    ensures ReplaceAll(s, f.key, x)[i] == if Matches(s[i], f.key) then x else s[i]
    ensures ReplaceSelected(s, f, x)[i] == if Selected(s[i], f) then x else s[i]
    decreases |s|
  {
    if i > 0 {
      ReplacedAt(s[1..], f, x, i - 1);
    }
  }

  /** The slice after a write. */
  function NewSlice(s: seq<Json>, f: Field, x: Json): seq<Json> {
    if exists v :: v in s && Hit(v, f) then
      if ValueType(f).SimpleSlice? then ReplaceAll(s, f.key, x) else ReplaceSelected(s, f, x)
    else s + [x]
  }

  lemma NewSliceWritten(s: seq<Json>, f: Field, x: Json)
    requires IsSlice(f)
    ensures Written(s, NewSlice(s, f, x), f, x)
  {
    if exists v :: v in s && Hit(v, f) {
      var v :| v in s && Hit(v, f);
      var k :| 0 <= k < |s| && s[k] == v;
      forall i | 0 <= i < |s|
        ensures NewSlice(s, f, x)[i] == if Hit(s[i], f) then x else s[i]
      {
        ReplacedAt(s, f, x, i);
      }
    } else {
      forall i | 0 <= i < |s|
        ensures !Hit(s[i], f)
      {
        assert s[i] in s;
      }
    }
  }

  /** The tree with another slice in that place. */
  function PutSlice(v: Json, p: seq<Field>, f: Field, t: seq<Json>): Json
    requires SliceAt(v, p, f).Some?
    decreases |p|
  {
    if p == [] then Obj(v.m[f.name := Arr(t)])
    else Obj(v.m[p[0].name := PutSlice(v.m[p[0].name], p[1..], f, t)])
  }

  lemma {:induction false} PutSliceThere(v: Json, p: seq<Field>, f: Field, t: seq<Json>)
    requires SliceAt(v, p, f).Some?
    ensures SliceAt(PutSlice(v, p, f, t), p, f) == Some(t)
    decreases |p|
  {
    if p != [] {
      PutSliceThere(v.m[p[0].name], p[1..], f, t);
    }
  }

  lemma LoneWrite(v: Json, f: Field, x: Json)
    requires IsSlice(f)
    ensures var (r, t) := Walk(v, [f], x, true);
            var s := SliceAt(v, [], f);
            && (r.Ok? <==> s.Some? && Uniform(s.value, f))
            && (r.Ok? ==> r == Ok(if ValueType(f).SimpleSlice? then x else Arr(s.value)) &&
                          t == PutSlice(v, [], f, NewSlice(s.value, f, x)))
  {
    assert [f][1..] == [];
  }

  lemma {:induction false} SliceWritten(v: Json, p: seq<Field>, f: Field, x: Json)
    requires MapOnly(p) && IsSlice(f)
    ensures var (r, t) := Walk(v, p + [f], x, true);
            var s := SliceAt(v, p, f);
            && (r.Ok? <==> s.Some? && Uniform(s.value, f))
            && (r.Ok? ==> r == Ok(if ValueType(f).SimpleSlice? then x else Arr(s.value)) &&
                          t == PutSlice(v, p, f, NewSlice(s.value, f, x)))
    decreases |p|
  {
    if p == [] {
      assert p + [f] == [f];
      LoneWrite(v, f, x);
    } else {
      var g := p[0];
      assert g in p;
      assert (p + [f])[0] == g && (p + [f])[1..] == p[1..] + [f];
      if v.Obj? {
        var m := if g.name in v.m then v.m else v.m[g.name := Obj(map[])];
        SliceWritten(m[g.name], p[1..], f, x);
        if g.name !in v.m {
          NoSlice(p[1..], f);
        }
      }
    }
  }

  /**
   A write to `p.name[key]` or `p.name[key:value]` succeeds exactly when the slice is there
   and holds only texts, or only maps. Then every hit has become x, or x was appended, the
   other elements have kept their values and their places, and so has the rest of the tree.
   */
  lemma SliceWrite(v: Json, p: seq<Field>, f: Field, x: Json) returns (s: seq<Json>)
    requires MapOnly(p) && IsSlice(f)
    ensures var (r, t) := Walk(v, p + [f], x, true);
            var was := SliceAt(v, p, f);
            && (r.Ok? <==> was.Some? && Uniform(was.value, f))
            && (r.Ok? ==> Written(was.value, s, f, x) && SliceAt(t, p, f) == Some(s) && t == PutSlice(v, p, f, s))
  {
    SliceWritten(v, p, f, x);
    s := [];
    if Walk(v, p + [f], x, true).0.Ok? {
      s := NewSlice(SliceAt(v, p, f).value, f, x);
      NewSliceWritten(SliceAt(v, p, f).value, f, x);
      PutSliceThere(v, p, f, s);
    }
  }

  lemma {:induction false} SimpleFound(s: seq<Json>, f: Field)
    requires ValueType(f).SimpleSlice?
    ensures SimpleGet(s, f.key).Ok? <==> AnyFound(s, f)
    ensures forall k :: FoundAt(s, f, k) ==> SimpleGet(s, f.key) == Ok(s[k])
    decreases |s|
  {
    if s != [] && s[0].Str? {
      if Hit(s[0], f) {
        assert FoundAt(s, f, 0);
      } else {
        SimpleFound(s[1..], f);
        forall k | FoundAt(s, f, k)
          ensures FoundAt(s[1..], f, k - 1)
        {
        }
        if k :| FoundAt(s[1..], f, k) {
          assert FoundAt(s, f, k + 1);
        }
      }
    }
  }

  lemma {:induction false} ComplexFound(s: seq<Json>, f: Field)
    requires ValueType(f).ComplexSlice? && AllMaps(s)
    ensures LastSelected(s, f).Ok? <==> AnyFound(s, f)
    ensures forall k :: FoundAt(s, f, k) ==> LastSelected(s, f) == Ok(k)
    decreases |s|
  {
    if s != [] {
      var init := s[..|s| - 1];
      if Hit(s[|s| - 1], f) {
        assert FoundAt(s, f, |s| - 1);
      } else {
        ComplexFound(init, f);
        forall k | FoundAt(s, f, k)
          ensures FoundAt(init, f, k)
        {
        }
        if k :| FoundAt(init, f, k) {
          assert FoundAt(s, f, k);
        }
      }
    }
  }

  lemma LoneRead(v: Json, f: Field, y: Json)
    requires IsSlice(f)
    ensures var r := Walk(v, [f], y, false).0;
            var s := SliceAt(v, [], f);
            && (r.Ok? <==> s.Some? && AnyFound(s.value, f))
            && (s.Some? ==> forall k :: FoundAt(s.value, f, k) ==> r == Ok(s.value[k]))
  {
    assert [f][1..] == [];
    if SliceAt(v, [], f).Some? {
      if ValueType(f).SimpleSlice? {
        SimpleFound(SliceAt(v, [], f).value, f);
      } else {
        LastFound(v, f, y);
        WalkLast(v, f, y);
      }
    }
  }

  lemma WalkLast(v: Json, f: Field, y: Json)
    requires ValueType(f).ComplexSlice? && v.Obj? && f.name in v.m && v.m[f.name].Arr?
    ensures Walk(v, [f], y, false).0 == EndComplex(v, f, y, false).0
  {
    assert [f][1..] == [];
  }

  lemma LastFound(v: Json, f: Field, y: Json)
    requires ValueType(f).ComplexSlice? && v.Obj? && f.name in v.m && v.m[f.name].Arr?
    ensures var r := EndComplex(v, f, y, false).0;
            var s := v.m[f.name].a;
            && (r.Ok? <==> AnyFound(s, f))
            && forall k :: FoundAt(s, f, k) ==> r == Ok(s[k])
  {
    if AllMaps(v.m[f.name].a) {
      ComplexFound(v.m[f.name].a, f);
    } else {
      assert !Uniform(v.m[f.name].a, f);
    }
  }

  /**
   Reading `p.name[key]` yields the first text that starts with the key, reading
   `p.name[key:value]` the last map that holds the value; it fails exactly when the slice is
   missing, none is there, or a value of another kind is in the way.
   */
  lemma {:induction false} SliceRead(v: Json, p: seq<Field>, f: Field, y: Json)
    requires MapOnly(p) && IsSlice(f)
    ensures var r := Walk(v, p + [f], y, false).0;
            var s := SliceAt(v, p, f);
            && (r.Ok? <==> s.Some? && AnyFound(s.value, f))
            && (s.Some? ==> forall k :: FoundAt(s.value, f, k) ==> r == Ok(s.value[k]))
    decreases |p|
  {
    if p == [] {
      assert p + [f] == [f];
      LoneRead(v, f, y);
    } else {
      var g := p[0];
      assert g in p;
      assert (p + [f])[0] == g && (p + [f])[1..] == p[1..] + [f];
      if v.Obj? {
        var m := if g.name in v.m then v.m else v.m[g.name := Obj(map[])];
        SliceRead(m[g.name], p[1..], f, y);
        if g.name !in v.m {
          NoSlice(p[1..], f);
        }
      }
    }
  }

  lemma {:induction false} LastHit(s: seq<Json>, f: Field, n: nat) returns (k: nat)
    requires n <= |s| && Uniform(s, f) && ValueType(f).ComplexSlice?
    requires exists i :: 0 <= i < n && Hit(s[i], f)
    requires forall i :: n <= i < |s| ==> !Hit(s[i], f)
    ensures FoundAt(s, f, k)
  {
    k := n - 1;
    if !Hit(s[n - 1], f) {
      k := LastHit(s, f, n - 1);
    }
  }

  lemma WrittenIsFound(s: seq<Json>, t: seq<Json>, f: Field, x: Json) returns (k: nat)
    requires ValueType(f).ComplexSlice? && Uniform(s, f) && Written(s, t, f, x) && Hit(x, f)
    ensures FoundAt(t, f, k) && t[k] == x
  {
    assert Uniform(t, f);
    if exists i :: 0 <= i < |s| && Hit(s[i], f) {
      var i :| 0 <= i < |s| && Hit(s[i], f);
      assert Hit(t[i], f);
    } else {
      assert Hit(t[|s|], f);
    }
    k := LastHit(t, f, |t|);
  }

  /** What was written to `p.name[key:value]` is read back exactly when it holds that value itself. */
  lemma ComplexEndSetThenGet(v: Json, p: seq<Field>, f: Field, x: Json, y: Json)
    requires MapOnly(p) && ValueType(f).ComplexSlice?
    ensures var (r, t) := Walk(v, p + [f], x, true);
            r.Ok? ==> (Walk(t, p + [f], y, false).0 == Ok(x) <==> x.Obj? && f.key in x.m && x.m[f.key] == Str(f.value))
  {
    var (r, t) := Walk(v, p + [f], x, true);
    if r.Ok? {
      var s := SliceWrite(v, p, f, x);
      SliceRead(t, p, f, y);
      if Hit(x, f) {
        var k := WrittenIsFound(SliceAt(v, p, f).value, s, f, x);
      }
    }
  }

  /** A `name[key]` inside a path is always an error. */
  lemma {:induction false} SimpleInside(v: Json, p: seq<Field>, f: Field, q: seq<Field>, x: Json, set_: bool)
    requires MapOnly(p) && ValueType(f).SimpleSlice? && q != []
    ensures Walk(v, p + ([f] + q), x, set_).0.Err?
    decreases |p|
  {
    var path := p + ([f] + q);
    if p == [] {
      assert path[0] == f && path[1..] == q;
    } else {
      assert p[0] in p && path[0] == p[0] && path[1..] == p[1..] + ([f] + q);
      if v.Obj? {
        var m := if p[0].name in v.m then v.m else v.m[p[0].name := Obj(map[])];
        SimpleInside(m[p[0].name], p[1..], f, q, x, set_);
      }
    }
  }

  // ----- Paths through a slice of maps ------------------------------------------------

  /** Reading follows the first selected map, if only maps come before it; writing the last, if all are maps. */
  predicate FollowedAt(s: seq<Json>, f: Field, set_: bool, k: int) {
    && 0 <= k < |s| && Hit(s[k], f)
    && if set_ then Uniform(s, f) && forall i :: k < i < |s| ==> !Hit(s[i], f)
       else forall i :: 0 <= i < k ==> s[i].Obj? && !Hit(s[i], f)
  }

  lemma {:induction false} FirstFollowed(s: seq<Json>, f: Field)
    requires ValueType(f).ComplexSlice?
    ensures FirstSelected(s, f).Ok? <==> exists k :: FollowedAt(s, f, false, k)
    ensures forall k :: FollowedAt(s, f, false, k) ==> FirstSelected(s, f) == Ok(k)
    decreases |s|
  {
    if s != [] && s[0].Obj? {
      if Hit(s[0], f) {
        assert FollowedAt(s, f, false, 0);
      } else {
        FirstFollowed(s[1..], f);
        forall k | FollowedAt(s, f, false, k)
          ensures FollowedAt(s[1..], f, false, k - 1)
        {
        }
        if k :| FollowedAt(s[1..], f, false, k) {
          assert FollowedAt(s, f, false, k + 1);
        }
      }
    }
  }

  lemma Followed(s: seq<Json>, f: Field, set_: bool)
    requires ValueType(f).ComplexSlice?
    ensures Follow(s, f, set_).Ok? <==> exists k :: FollowedAt(s, f, set_, k)
    ensures forall k :: FollowedAt(s, f, set_, k) ==> Follow(s, f, set_) == Ok(k)
  {
    if !set_ {
      FirstFollowed(s, f);
    } else if AllMaps(s) {
      ComplexFound(s, f);
      assert forall k :: FollowedAt(s, f, true, k) <==> FoundAt(s, f, k);
    } else {
      assert !Uniform(s, f);
    }
  }

  /**
   A walk through `p.name[key:value].q`: it gets to the slice's followed element exactly when
   there is one, goes on with q from there, and leaves the rest of the slice and the tree.
   */
  lemma {:induction false} ThroughSlice(v: Json, p: seq<Field>, f: Field, q: seq<Field>, x: Json, set_: bool)
    requires MapOnly(p) && ValueType(f).ComplexSlice? && q != []
    ensures var (r, t) := Walk(v, p + ([f] + q), x, set_);
            var s := SliceAt(v, p, f);
            && (s.None? || !(exists k :: FollowedAt(s.value, f, set_, k)) ==> r.Err?)
            && (s.Some? ==>
                  forall k :: FollowedAt(s.value, f, set_, k) ==>
                    var (below, child) := Walk(s.value[k], q, x, set_);
                    r == below && t == PutSlice(v, p, f, s.value[k := child]))
    decreases |p|
  {
    var path := p + ([f] + q);
    if p == [] {
      assert path == [f] + q && path[0] == f && path[1..] == q;
      if SliceAt(v, [], f).Some? {
        Followed(v.m[f.name].a, f, set_);
        WalkSlice(v, f, q, x, set_);
      }
    } else {
      var g := p[0];
      assert g in p && path[0] == g && path[1..] == p[1..] + ([f] + q);
      if v.Obj? {
        var m := if g.name in v.m then v.m else v.m[g.name := Obj(map[])];
        ThroughSlice(m[g.name], p[1..], f, q, x, set_);
        if g.name !in v.m {
          NoSlice(p[1..], f);
        }
      }
    }
  }
}

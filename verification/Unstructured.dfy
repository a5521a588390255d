/** The path walk as the code runs it: a cursor moves through the tree and edits it in place. */
module Unstructureds {
  import opened Basics
  import opened JsonTree
  import opened PathWalk

  // ----- Places in a tree ---------------------------------------------------------------

  /** Into a field of a map, or into an element of a slice held by a field. */
  datatype Step = Key(name: string) | Elem(name: string, k: nat)

  predicate Leads(v: Json, step: Step) {
    && v.Obj? && step.name in v.m
    && (step.Elem? ==> v.m[step.name].Arr? && step.k < |v.m[step.name].a|)
  }

  function Child(v: Json, step: Step): Json
    requires Leads(v, step)
  {
    if step.Key? then v.m[step.name] else v.m[step.name].a[step.k]
  }

  function WithChild(v: Json, step: Step, x: Json): Json
    requires Leads(v, step)
  {
    if step.Key? then Obj(v.m[step.name := x]) else Obj(v.m[step.name := Arr(v.m[step.name].a[step.k := x])])
  }

  predicate On(v: Json, loc: seq<Step>)
    decreases |loc|
  {
    loc == [] || (Leads(v, loc[0]) && On(Child(v, loc[0]), loc[1..]))
  }

  function At(v: Json, loc: seq<Step>): Json
    requires On(v, loc)
    decreases |loc|
  {
    if loc == [] then v else At(Child(v, loc[0]), loc[1..])
  }

  /** The tree with the value at a place replaced. */
  function Put(v: Json, loc: seq<Step>, x: Json): Json
    requires On(v, loc)
    decreases |loc|
  {
    if loc == [] then x else WithChild(v, loc[0], Put(Child(v, loc[0]), loc[1..], x))
  }

  lemma ChildPut(v: Json, step: Step, x: Json, y: Json)
    requires Leads(v, step)
    ensures Leads(WithChild(v, step, x), step) && Child(WithChild(v, step, x), step) == x
    ensures WithChild(WithChild(v, step, x), step, y) == WithChild(v, step, y)
    ensures WithChild(v, step, Child(v, step)) == v
  {
    var t := WithChild(v, step, x);
    assert t.m[step.name := Null] == v.m[step.name := Null];
    if step.Key? {
      assert t.m[step.name := y] == v.m[step.name := y];
      assert v.m[step.name := v.m[step.name]] == v.m;
    } else {
      var a := v.m[step.name].a;
      assert a[step.k := x][step.k := y] == a[step.k := y];
      assert a[step.k := a[step.k]] == a;
      assert t.m[step.name := Arr(a[step.k := y])] == v.m[step.name := Arr(a[step.k := y])];
      assert v.m[step.name := v.m[step.name]] == v.m;
    }
  }

  lemma {:induction false} PutPut(v: Json, loc: seq<Step>, x: Json, y: Json)
    requires On(v, loc)
    ensures On(Put(v, loc, x), loc) && At(Put(v, loc, x), loc) == x
    ensures Put(Put(v, loc, x), loc, y) == Put(v, loc, y)
    ensures Put(v, loc, At(v, loc)) == v
    decreases |loc|
  {
    if loc != [] {
      var c := Child(v, loc[0]);
      PutPut(c, loc[1..], x, y);
      ChildPut(v, loc[0], Put(c, loc[1..], x), Put(c, loc[1..], y));
    }
  }

  lemma {:induction false} Deeper(v: Json, loc: seq<Step>, step: Step, x: Json)
    requires On(v, loc) && Leads(At(v, loc), step)
    ensures On(v, loc + [step]) && At(v, loc + [step]) == Child(At(v, loc), step)
    ensures Put(v, loc + [step], x) == Put(v, loc, WithChild(At(v, loc), step, x))
    decreases |loc|
  {
    if loc == [] {
      assert loc + [step] == [step] && [step][1..] == [];
    } else {
      assert (loc + [step])[0] == loc[0] && (loc + [step])[1..] == loc[1..] + [step];
      Deeper(Child(v, loc[0]), loc[1..], step, x);
    }
  }

  /** Edit the value at a place, then step into it: how the rest of the walk will show in the whole tree. */
  lemma EditAndEnter(v: Json, loc: seq<Step>, edited: Json, step: Step, x: Json)
    requires On(v, loc) && Leads(edited, step)
    ensures var w := Put(v, loc, edited);
            && On(w, loc + [step]) && At(w, loc + [step]) == Child(edited, step)
            && Put(w, loc + [step], x) == Put(v, loc, WithChild(edited, step, x))
  {
    PutPut(v, loc, edited, WithChild(edited, step, x));
    Deeper(Put(v, loc, edited), loc, step, x);
  }

  // ----- Slices --------------------------------------------------------------------------

  /** The loop over a slice of strings: read the first match, or rebuild the slice with the matches replaced. */
  method ScanStrings(s: seq<Json>, key: string, value: Json, set_: bool)
    returns (r: Result<Json>, newv: seq<Json>)
    ensures !set_ ==> r == SimpleGet(s, key)
    ensures set_ ==> (r.Ok? <==> SimpleSet(s, key, value).Ok?)
    ensures set_ && r.Ok? ==> newv == SimpleSet(s, key, value).value && r == Ok(value)
    ensures set_ && r.Err? ==> r.error == "not string slice"
  {
    newv := [];
    var found := false;
    for k := 0 to |s|
      invariant |newv| == k && forall i :: 0 <= i < k ==> newv[i] == if Matches(s[i], key) then value else s[i]
      invariant forall i :: 0 <= i < k ==> s[i].Str?
      invariant found <==> exists i :: 0 <= i < k && Matches(s[i], key)
      invariant !set_ ==> !found && SimpleGet(s, key) == SimpleGet(s[k..], key)
    {
      var v := s[k];
      if !v.Str? {
        assert v in s;
        return Err("not string slice"), newv;
      }
      if HasPrefix(v.s, key) {
        found := true;
        if !set_ {
          return Ok(v), newv;
        }
        newv := newv + [value];
      } else {
        newv := newv + [v];
      }
    }
    if !set_ {
      return Err("not found"), newv;
    }
    MatchesReplaced(s, key, value, newv);
    if !found {
      assert newv == s;
      newv := newv + [value];
    }
    return Ok(value), newv;
  }

  lemma {:induction false} MatchesReplaced(s: seq<Json>, key: string, value: Json, t: seq<Json>)
    requires |t| == |s| && forall i :: 0 <= i < |s| ==> t[i] == if Matches(s[i], key) then value else s[i]
    ensures t == ReplaceAll(s, key, value)
    decreases |s|
  {
    if s != [] {
      MatchesReplaced(s[1..], key, value, t[1..]);
      assert t == [t[0]] + t[1..];
    }
  }

  lemma {:induction false} FirstAt(s: seq<Json>, f: Field, k: nat)
    requires k < |s| && Selected(s[k], f)
    requires forall i :: 0 <= i < k ==> s[i].Obj? && !Selected(s[i], f)
    ensures FirstSelected(s, f) == Ok(k)
    decreases |s|
  {
    if k > 0 {
      FirstAt(s[1..], f, k - 1);
    }
  }

  lemma {:induction false} FirstFails(s: seq<Json>, f: Field, k: nat)
    requires k <= |s| && (k < |s| ==> !s[k].Obj?)
    requires forall i :: 0 <= i < k ==> s[i].Obj? && !Selected(s[i], f)
    ensures FirstSelected(s, f) == Err(if k < |s| then "not string slice" else "not found")
    decreases |s|
  {
    if k > 0 {
      FirstFails(s[1..], f, k - 1);
    }
  }

  lemma {:induction false} LastAt(s: seq<Json>, f: Field, k: nat)
    requires AllMaps(s) && k <= |s|
    requires forall i :: k <= i < |s| ==> !Selected(s[i], f)
    requires k > 0 ==> Selected(s[k - 1], f)
    ensures LastSelected(s, f) == if k > 0 then Ok(k - 1) else Err("not found")
    decreases |s|
  {
    if k < |s| {
      LastAt(s[..|s| - 1], f, k);
    }
  }

  /** The loop over a slice of maps inside a path: reading stops at the first match, writing runs on. */
  method ScanMaps(s: seq<Json>, f: Field, set_: bool) returns (r: Result<nat>)
    ensures r == Follow(s, f, set_)
  {
    var found := 0;  // one past the latest match
    for k := 0 to |s|
      invariant found <= k && (found > 0 ==> set_ && Selected(s[found - 1], f))
      invariant forall i :: 0 <= i < k ==> s[i].Obj?
      invariant forall i :: found <= i < k ==> !Selected(s[i], f)
    {
      var v := s[k];
      if !v.Obj? {
        assert v in s;
        if !set_ {
          FirstFails(s, f, k);
        }
        return Err("not string slice");
      }
      if f.key in v.m && v.m[f.key] == Str(f.value) {
        if !set_ {
          FirstAt(s, f, k);
          return Ok(k);
        }
        found := k + 1;
      }
    }
    if set_ {
      LastAt(s, f, found);
    } else {
      FirstFails(s, f, |s|);
    }
    return if found > 0 then Ok(found - 1) else Err("not found");
  }

  lemma {:induction false} LastExists(s: seq<Json>, f: Field)
    requires AllMaps(s)
    ensures LastSelected(s, f).Ok? <==> exists x :: x in s && Selected(x, f)
    decreases |s|
  {
    if s != [] {
      var init, last := s[..|s| - 1], s[|s| - 1];
      assert s == init + [last];
      LastExists(init, f);
      if LastSelected(s, f).Ok? {
        assert s[LastSelected(s, f).value] in s;
      }
    }
  }

  lemma {:induction false} SelectedReplaced(s: seq<Json>, f: Field, value: Json, t: seq<Json>)
    requires |t| == |s| && forall i :: 0 <= i < |s| ==> t[i] == if Selected(s[i], f) then value else s[i]
    ensures t == ReplaceSelected(s, f, value)
    decreases |s|
  {
    if s != [] {
      SelectedReplaced(s[1..], f, value, t[1..]);
      assert t == [t[0]] + t[1..];
    }
  }

  /** The loop over a slice of maps at the end of a path. */
  method ScanLastMaps(s: seq<Json>, f: Field, value: Json, set_: bool)
    returns (r: Result<Option<Json>>, newv: seq<Json>)
    ensures r.Ok? <==> AllMaps(s)
    ensures r.Ok? ==> r.value == if LastSelected(s, f).Ok? then Some(s[LastSelected(s, f).value]) else None
    ensures r.Ok? ==> newv == if r.value.Some? then ReplaceSelected(s, f, value) else s + [value]
    ensures r.Err? ==> r.error == "not string slice"
  {
    newv := [];
    var found := 0;
    for k := 0 to |s|
      invariant |newv| == k && forall i :: 0 <= i < k ==> newv[i] == if Selected(s[i], f) then value else s[i]
      invariant found <= k && (found > 0 ==> Selected(s[found - 1], f))
      invariant forall i :: 0 <= i < k ==> s[i].Obj?
      invariant forall i :: found <= i < k ==> !Selected(s[i], f)
    {
      var v := s[k];
      if !v.Obj? {
        assert v in s;
        return Err("not string slice"), newv;
      }
      if f.key in v.m && v.m[f.key] == Str(f.value) {
        found := k + 1;
        newv := newv + [value];
      } else {
        newv := newv + [v];
      }
    }
    LastAt(s, f, found);
    SelectedReplaced(s, f, value, newv);
    if found == 0 {
      assert newv == s;
      newv := newv + [value];
      return Ok(None), newv;
    }
    return Ok(Some(s[found - 1])), newv;
  }

  // ----- The walk ------------------------------------------------------------------------

  lemma PutObj(v: Json, loc: seq<Step>, x: Json)
    requires On(v, loc) && v.Obj? && x.Obj?
    ensures Put(v, loc, x).Obj?
  {
  }

  class Unstructured {
    var tree: map<string, Json>

    constructor (m: map<string, Json>)
      ensures tree == m
    {
      tree := m;
    }

    /** Put an edited map where the cursor is, and move the cursor into it; x is what the rest of the walk will leave there. */
    method Enter(loc: seq<Step>, edited: Json, step: Step, ghost x: Json)
      requires On(Obj(tree), loc) && edited.Obj? && Leads(edited, step)
      modifies this
      ensures Obj(tree) == Put(old(Obj(tree)), loc, edited)
      ensures On(Obj(tree), loc + [step]) && At(Obj(tree), loc + [step]) == Child(edited, step)
      ensures Put(Obj(tree), loc + [step], x) == Put(old(Obj(tree)), loc, WithChild(edited, step, x))
    {
      PutObj(Obj(tree), loc, edited);
      EditAndEnter(Obj(tree), loc, edited, step, x);
      tree := Put(Obj(tree), loc, edited).m;
    }

    /** The cursor's value is replaced for good. */
    method Finish(loc: seq<Step>, edited: Json)
      requires On(Obj(tree), loc) && edited.Obj?
      modifies this
      ensures Obj(tree) == Put(old(Obj(tree)), loc, edited)
    {
      PutObj(Obj(tree), loc, edited);
      tree := Put(Obj(tree), loc, edited).m;
    }

    method SimpleEnd(val: Json, loc: seq<Step>, path: seq<Field>, value: Json, set_: bool) returns (r: Result<Json>)
      requires path != [] && ValueType(path[0]).SimpleSlice? && On(Obj(tree), loc) && val == At(Obj(tree), loc)
      modifies this
      ensures var (res, v) := Walk(val, path, value, set_);
              (r, Obj(tree)) == (res, Put(old(Obj(tree)), loc, v))
    {
      var f := path[0];
      PutPut(Obj(tree), loc, val, val);
      if |path| > 1 {
        return Err("midle path should not be a simple slice");
      }
      if !val.Obj? || f.name !in val.m {
        return Err("not found");
      }
      if !val.m[f.name].Arr? {
        return Err("not slice");
      }
      var newv;
      r, newv := ScanStrings(val.m[f.name].a, f.key, value, set_);
      if r.Ok? && set_ {
        Finish(loc, Obj(val.m[f.name := Arr(newv)]));
      }
    }

    method ComplexEnd(val: Json, loc: seq<Step>, path: seq<Field>, value: Json, set_: bool) returns (r: Result<Json>)
      requires |path| == 1 && ValueType(path[0]).ComplexSlice? && On(Obj(tree), loc) && val == At(Obj(tree), loc)
      modifies this
      ensures var (res, v) := Walk(val, path, value, set_);
              (r, Obj(tree)) == (res, Put(old(Obj(tree)), loc, v))
    {
      var f := path[0];
      PutPut(Obj(tree), loc, val, val);
      if !val.Obj? || f.name !in val.m {
        return Err("not found");
      }
      if !val.m[f.name].Arr? {
        return Err("field not an complex map interface");
      }
      var found, newv := ScanLastMaps(val.m[f.name].a, f, value, set_);
      if found.Err? {
        return Err(found.error);
      }
      LastExists(val.m[f.name].a, f);
      if set_ {
        Finish(loc, Obj(val.m[f.name := Arr(newv)]));
        return Ok(val.m[f.name]);
      }
      return if found.value.Some? then Ok(found.value.value) else Err("not found");
    }

    /** A map field: write it if it is the last, create it if it is missing, and go in. */
    method MapStep(val: Json, loc: seq<Step>, path: seq<Field>, value: Json, set_: bool) returns (r: Result<Json>)
      requires path != [] && ValueType(path[0]).MapField? && On(Obj(tree), loc) && val == At(Obj(tree), loc)
      modifies this
      ensures r.Err? ==> Obj(tree) == old(Obj(tree)) && Walk(val, path, value, set_) == (Err(r.error), val)
      ensures r.Ok? ==> var next := loc + [Key(path[0].name)];
                        && On(Obj(tree), next) && At(Obj(tree), next) == r.value
                        && Onward(old(Obj(tree)), loc, val, path, next, value, set_)
    {
      if !val.Obj? {
        return Err("field not a map");
      }
      var f, m := path[0], val.m;
      if |path| == 1 && set_ {
        m := m[f.name := value];
      }
      if f.name !in m {
        m := m[f.name := Obj(map[])];
      }
      Enter(loc, Obj(m), Key(f.name), if |path| == 1 then m[f.name] else Walk(m[f.name], path[1..], value, set_).1);
      return Ok(m[f.name]);
    }

    /** Walking on from the next place amounts to walking from the last one. */
    ghost predicate Onward(before: Json, loc: seq<Step>, val: Json, path: seq<Field>, next: seq<Step>, value: Json, set_: bool)
      requires path != [] && On(before, loc) && On(Obj(tree), next)
      reads this
    {
      var (res, v) := Walk(val, path, value, set_);
      if |path| == 1 then (res, Put(before, loc, v)) == (Ok(At(Obj(tree), next)), Obj(tree))
      else
        var (res', v') := Walk(At(Obj(tree), next), path[1..], value, set_);
        res == res' && Put(before, loc, v) == Put(Obj(tree), next, v')
    }

    method ElemStep(val: Json, loc: seq<Step>, path: seq<Field>, value: Json, set_: bool) returns (r: Result<nat>)
      requires |path| > 1 && ValueType(path[0]).ComplexSlice? && On(Obj(tree), loc) && val == At(Obj(tree), loc)
      modifies this
      ensures r.Err? ==> Obj(tree) == old(Obj(tree)) && Walk(val, path, value, set_) == (Err(r.error), val)
      ensures r.Ok? ==> var step := Elem(path[0].name, r.value);
                        && Leads(val, step) && On(Obj(tree), loc + [step])
                        && At(Obj(tree), loc + [step]) == Child(val, step)
                        && Onward(old(Obj(tree)), loc, val, path, loc + [step], value, set_)
    {
      var f := path[0];
      if !val.Obj? || f.name !in val.m {
        return Err("not found");
      }
      if !val.m[f.name].Arr? {
        return Err("field not an complex map interface");
      }
      var k := ScanMaps(val.m[f.name].a, f, set_);
      if k.Err? {
        return Err(k.error);
      }
      Enter(loc, val, Elem(f.name, k.value), Walk(val.m[f.name].a[k.value], path[1..], value, set_).1);
      return k;
    }

    method WalkPath(path: seq<Field>, value: Json, set_: bool) returns (r: Result<Json>)
      requires path != []
      modifies this
      ensures (r, Obj(tree)) == Walk(old(Obj(tree)), path, value, set_)
    {
      var val, loc := Obj(tree), [];
      ghost var goal := Walk(Obj(tree), path, value, set_);
      for i := 0 to |path|
        invariant On(Obj(tree), loc) && val == At(Obj(tree), loc)
        invariant if i == |path| then goal == (Ok(val), Obj(tree))
                  else var (res, v) := Walk(val, path[i..], value, set_);
                       goal == (res, Put(Obj(tree), loc, v))
      {
        var rest := path[i..];
        assert rest[1..] == path[i + 1..];
        PutPut(Obj(tree), loc, val, val);
        match ValueType(rest[0])
        case MapField =>
          r := MapStep(val, loc, rest, value, set_);
          if r.Err? {
            return;
          }
          loc, val := loc + [Key(rest[0].name)], r.value;
        case SimpleSlice =>
          r := SimpleEnd(val, loc, rest, value, set_);
          return;
        case ComplexSlice =>
          if |rest| == 1 {
            r := ComplexEnd(val, loc, rest, value, set_);
            return;
          }
          var k := ElemStep(val, loc, rest, value, set_);
          if k.Err? {
            return Err(k.error);
          }
          loc, val := loc + [Elem(rest[0].name, k.value)], val.m[rest[0].name].a[k.value];
      }
      return Ok(val);
    }

    method GetValue(path: seq<Field>) returns (r: Result<Json>)
      requires path != []
      modifies this
      ensures (r, Obj(tree)) == Walk(old(Obj(tree)), path, Null, false)
    {
      r := WalkPath(path, Null, false);
    }

    method SetValue(path: seq<Field>, value: Json) returns (ok: bool)
      requires path != []
      modifies this
      ensures ok == Walk(old(Obj(tree)), path, value, true).0.Ok?
      ensures Obj(tree) == Walk(old(Obj(tree)), path, value, true).1
    {
      var r := WalkPath(path, value, true);
      return r.Ok?;
    }
  }
}

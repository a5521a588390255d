/** Reading and writing a JSON tree along a path (pkg/utils/unstructed/unstructed.go), as functions on values. */
module PathWalk {
  import opened Basics
  import opened JsonTree

  /** One path element: `name`, `name[key]` or `name[key:value]`. */
  datatype Field = Field(name: string, key: string, value: string)

  datatype Kind = MapField | SimpleSlice | ComplexSlice

  function ValueType(f: Field): Kind {
    if f.key == "" && f.value == "" then MapField
    else if f.key != "" && f.value == "" then SimpleSlice
    else if f.key != "" && f.value != "" then ComplexSlice
    else MapField
  }

  predicate HasPrefix(s: string, prefix: string) {
    prefix <= s
  }

  // ----- Slices of strings ---------------------------------------------------------

  predicate Matches(v: Json, key: string) {
    v.Str? && HasPrefix(v.s, key)
  }

  predicate AllStrings(s: seq<Json>) {
    forall v :: v in s ==> v.Str?
  }

  /** Reading stops at the first match; a value that is no string, met before, is an error. */
  function SimpleGet(s: seq<Json>, key: string): Result<Json> {
    if s == [] then Err("not found")
    else if !s[0].Str? then Err("not string slice")
    else if HasPrefix(s[0].s, key) then Ok(s[0])
    else SimpleGet(s[1..], key)
  }

  function ReplaceAll(s: seq<Json>, key: string, value: Json): (r: seq<Json>)
    ensures |r| == |s|
  {
    if s == [] then []
    else [if Matches(s[0], key) then value else s[0]] + ReplaceAll(s[1..], key, value)
  }

  /** Writing replaces every match, or appends when there is none. */
  function SimpleSet(s: seq<Json>, key: string, value: Json): Result<seq<Json>> {
    if !AllStrings(s) then Err("not string slice")
    else if exists v :: v in s && Matches(v, key) then Ok(ReplaceAll(s, key, value))
    else Ok(s + [value])
  }

  // ----- Slices of maps ------------------------------------------------------------

  predicate Selected(v: Json, f: Field) {
    v.Obj? && f.key in v.m && v.m[f.key] == Str(f.value)
  }

  predicate AllMaps(s: seq<Json>) {
    forall v :: v in s ==> v.Obj?
  }

  function ReplaceSelected(s: seq<Json>, f: Field, value: Json): (r: seq<Json>)
    ensures |r| == |s|
  {
    if s == [] then []
    else [if Selected(s[0], f) then value else s[0]] + ReplaceSelected(s[1..], f, value)
  }

  /** The first selected element, provided only maps come before it. */
  function FirstSelected(s: seq<Json>, f: Field): (r: Result<nat>)
    ensures r.Ok? ==> r.value < |s| && Selected(s[r.value], f)
  {
    if s == [] then Err("not found")
    else if !s[0].Obj? then Err("not string slice")
    else if Selected(s[0], f) then Ok(0)
    else
      var r := FirstSelected(s[1..], f);
      if r.Ok? then Ok(r.value + 1) else r
  }

  /** The last selected element, provided the slice holds only maps. */
  function LastSelected(s: seq<Json>, f: Field): (r: Result<nat>)
    ensures r.Ok? ==> r.value < |s| && Selected(s[r.value], f)
  {
    if !AllMaps(s) then Err("not string slice")
    else if s == [] then Err("not found")
    else if Selected(s[|s| - 1], f) then Ok(|s| - 1)
    else LastSelected(s[..|s| - 1], f)
  }

  /** Inside a path, reading follows the first selected element, but writing follows the last. */
  function Follow(s: seq<Json>, f: Field, set_: bool): (r: Result<nat>)
    ensures r.Ok? ==> r.value < |s| && Selected(s[r.value], f)
  {
    if set_ then LastSelected(s, f) else FirstSelected(s, f)
  }

  // ----- The walk --------------------------------------------------------------------

  /** Result and new tree of walking `path` from `v`; with `set_`, the last element is written. */
  function Walk(v: Json, path: seq<Field>, value: Json, set_: bool): (Result<Json>, Json)
    requires path != []
    decreases |path|
  {
    var f, rest := path[0], path[1..];
    match ValueType(f)
    case MapField => WalkMap(v, f, rest, value, set_)
    case SimpleSlice =>
      if rest != [] then (Err("midle path should not be a simple slice"), v)
      else if !v.Obj? || f.name !in v.m then (Err("not found"), v)
      else if !v.m[f.name].Arr? then (Err("not slice"), v)
      else EndSimple(v, f, value, set_)
    case ComplexSlice =>
      if !v.Obj? || f.name !in v.m then (Err("not found"), v)
      else if !v.m[f.name].Arr? then (Err("field not an complex map interface"), v)
      else if rest == [] then EndComplex(v, f, value, set_)
      else
        var s := v.m[f.name].a;
        var k := Follow(s, f, set_);
        if k.Err? then (Err(k.error), v)
        else
          var (r, child) := Walk(s[k.value], rest, value, set_);
          (r, Obj(v.m[f.name := Arr(s[k.value := child])]))
  }

  /** A missing field on the way is created as an empty map, also when reading. */
  function WalkMap(v: Json, f: Field, rest: seq<Field>, value: Json, set_: bool): (Result<Json>, Json)
    decreases |rest| + 1, 0
  {
    if !v.Obj? then (Err("field not a map"), v)
    else
      var m := if rest == [] && set_ then v.m[f.name := value] else v.m;
      var m := if f.name in m then m else m[f.name := Obj(map[])];
      if rest == [] then (Ok(m[f.name]), Obj(m))
      else
        var (r, child) := Walk(m[f.name], rest, value, set_);
        (r, Obj(m[f.name := child]))
  }

  function EndSimple(v: Json, f: Field, value: Json, set_: bool): (Result<Json>, Json)
    requires v.Obj? && f.name in v.m && v.m[f.name].Arr?
  {
    var s := v.m[f.name].a;
    if !set_ then (SimpleGet(s, f.key), v)
    else
      var r := SimpleSet(s, f.key, value);
      if r.Err? then (Err(r.error), v) else (Ok(value), Obj(v.m[f.name := Arr(r.value)]))
  }

  /** At the end of a path both reading and writing look at the whole slice; reading yields the last match. */
  function EndComplex(v: Json, f: Field, value: Json, set_: bool): (Result<Json>, Json)
    requires v.Obj? && f.name in v.m && v.m[f.name].Arr?
  {
    var s := v.m[f.name].a;
    if !AllMaps(s) then (Err("not string slice"), v)
    else if !set_ then
      var k := LastSelected(s, f);
      if k.Ok? then (Ok(s[k.value]), v) else (Err("not found"), v)
    else
      var s' := if exists x :: x in s && Selected(x, f) then ReplaceSelected(s, f, value) else s + [value];
      (Ok(v.m[f.name]), Obj(v.m[f.name := Arr(s')]))
  }
}

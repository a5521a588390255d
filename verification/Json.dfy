/** JSON trees as Go decodes them into `interface{}`. */
module JsonTree {
  datatype Json =
    | Null
    | Bool(b: bool)
    | Num(n: real)
    | Str(s: string)
    | Arr(a: seq<Json>)
    | Obj(m: map<string, Json>)
}

/** JSON values; an object is its fields in order. */
module Json {
  import opened Options
  import opened Records

  datatype Json =
    | Null
    | Bool(b: bool)
    | Num(n: real)
    | Str(s: string)
    | Arr(items: seq<Json>)
    | Obj(fields: seq<Field<Json>>)

  // ----- Paths.

  datatype Step = Key(key: string) | Index(index: nat)

  function Lookup(j: Json, path: seq<Step>): Option<Json>
    decreases |path|
  {
    if path == [] then Some(j)
    else
      match (path[0], j)
      case (Key(k), Obj(fields)) =>
        var v := Get(fields, k);
        if v.Some? then Lookup(v.value, path[1..]) else None
      case (Index(i), Arr(items)) => if i < |items| then Lookup(items[i], path[1..]) else None
      case _ => None
  }
}

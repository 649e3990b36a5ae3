/** JSON values. */
module Jsons {
  import opened Wrappers

  /** An object's keys are unordered, as canonicalisation makes them; a number is kept as its text. */
  datatype Json =
    | Null
    | Bool(b: bool)
    | Number(n: string)
    | Str(s: string)
    | Arr(items: seq<Json>)
    | Obj(fields: map<string, Json>)

  function Get(j: Json, key: string): Option<Json> {
    if j.Obj? && key in j.fields then Some(j.fields[key]) else None
  }

  function GetStr(j: Json, key: string): Option<string> {
    match Get(j, key)
    case Some(Str(s)) => Some(s)
    case _ => None
  }
}

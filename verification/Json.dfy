/** JSON values. Numbers are opaque leaves. */
module Json {
  import opened Wrappers

  datatype Value =
    | Null
    | Bool(flag: bool)
    | Number(text: string)
    | String(s: string)
    | Array(items: seq<Value>)
    | Object(fields: map<string, Value>)

  /** The member of an object; `None` for a missing member and for any other value. */
  function Get(v: Value, key: string): Option<Value> {
    if v.Object? && key in v.fields then Some(v.fields[key]) else None
  }

  function GetIn(v: Option<Value>, key: string): Option<Value> {
    if v.Some? then Get(v.value, key) else None
  }

  function AsStr(v: Option<Value>): Option<string> {
    if v.Some? && v.value.String? then Some(v.value.s) else None
  }

  function AsArray(v: Option<Value>): Option<seq<Value>> {
    if v.Some? && v.value.Array? then Some(v.value.items) else None
  }
}

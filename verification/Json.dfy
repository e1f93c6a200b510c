/** JSON values as `serde_json::Value` presents them. Only `as_u64` looks inside a
    number; one that is not an integer is kept as its literal. */
module Json {
  import opened Wrappers

  datatype Value =
    | Null
    | Bool(b: bool)
    | Int(n: int)
    | Float(literal: string)
    | Str(s: string)
    | Arr(items: seq<Value>)
    | Obj(fields: map<string, Value>)

  /** `Value::get(key)` */
  function Get(v: Value, key: string): Option<Value> {
    if v.Obj? && key in v.fields then Some(v.fields[key]) else None
  }

  function AsStr(v: Option<Value>): Option<string> {
    if v.Some? && v.value.Str? then Some(v.value.s) else None
  }

  function AsArray(v: Option<Value>): Option<seq<Value>> {
    if v.Some? && v.value.Arr? then Some(v.value.items) else None
  }

  function AsU64(v: Option<Value>): Option<nat> {
    if v.Some? && v.value.Int? && 0 <= v.value.n < 0x1_0000_0000_0000_0000 then Some(v.value.n) else None
  }

  function GetStr(v: Value, key: string): Option<string> {
    AsStr(Get(v, key))
  }

  /** `Value::pointer("/outer/inner")` for names that are not array indices. */
  function Pointer(v: Value, outer: string, inner: string): Option<Value> {
    var o :- Get(v, outer);
    Get(o, inner)
  }

  function PointerStr(v: Value, outer: string, inner: string): Option<string> {
    AsStr(Pointer(v, outer, inner))
  }

  /** Whether `value[key] = x` succeeds: it panics on anything but an object or null. */
  predicate Indexable(v: Value) {
    v.Obj? || v.Null?
  }

  /** `value[key] = x`; null turns into an object first. */
  function Set(v: Value, key: string, x: Value): Value
    requires Indexable(v)
  {
    if v.Obj? then Obj(v.fields[key := x]) else Obj(map[key := x])
  }

  lemma SetTwice(v: Value, key: string, x: Value, y: Value)
    requires Indexable(v)
    ensures Set(Set(v, key, x), key, y) == Set(v, key, y)
  {
  }

  lemma SetGet(v: Value, key: string, x: Value, field: string)
    requires Indexable(v)
    ensures Get(Set(v, key, x), key) == Some(x)
    ensures field != key ==> Get(Set(v, key, x), field) == Get(v, field)
  {
  }
}

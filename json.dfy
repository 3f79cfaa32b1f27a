/**
 * The JavaScript values a request body can hold once `request.json()` has
 * parsed it. Numbers are modelled as integers.
 */
module Json {

  datatype Value =
    | Undefined
    | Null
    | Bool(b: bool)
    | Num(n: int)
    | Str(s: string)
    | Arr(items: seq<Value>)
    | Obj(fields: map<string, Value>)

  /** `v[key]` on a value that is neither null nor undefined. */
  function Get(v: Value, key: string): (r: Value)
    ensures r != Undefined ==> v.Obj? && key in v.fields
  {
    if v.Obj? && key in v.fields then v.fields[key] else Undefined
  }

  /** Reading a property of null or undefined throws a TypeError. */
  predicate IsNullish(v: Value) { v.Undefined? || v.Null? }
}

/** The JavaScript values a form holds, and the truthiness the library relies on. */
module JsValues {
  import opened Wrappers

  /** A JSON-like JavaScript value. Numbers are modelled as integers. */
  datatype Value =
    | Null
    | Bool(b: bool)
    | Num(n: int)
    | Str(s: string)
    | Obj(fields: map<string, Value>)

  /** A form's state: a plain object from keys to values. */
  type FormState = map<string, Value>

  /** Reading `model[key]`: `None` when the key is missing (JavaScript `undefined`). */
  function Lookup(model: FormState, key: string): (v: Option<Value>)
    ensures v.Some? <==> key in model
    ensures v.Some? ==> v.value == model[key]
  {
    if key in model then Some(model[key]) else None
  }

  /** JavaScript's `Boolean(v)`: `undefined`, `null`, `false`, `0` and `""` are falsy; objects are truthy. */
  predicate Truthy(v: Option<Value>) {
    match v
    case None => false
    case Some(Null) => false
    case Some(Bool(b)) => b
    case Some(Num(n)) => n != 0
    case Some(Str(s)) => s != ""
    case Some(Obj(_)) => true
  }
}

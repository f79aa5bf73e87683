/** JavaScript values as far as the admin socket methods observe them:
    truthiness, the `||` operator and reading a property of a value. */
module JsValues {

  /** A JavaScript value. Numbers are modelled as integers (NaN and the
      fractional part are not modelled); an `Error` object keeps its name and
      message. */
  datatype JsValue =
    | Undefined
    | Null
    | Bool(b: bool)
    | Num(n: int)
    | Str(s: string)
    | Obj(fields: map<string, JsValue>)
    | ErrorObj(name: string, message: string)

  /** The object literal `{}`. */
  const EMPTY_OBJECT: JsValue := Obj(map[])

  /** `new Error(message)`. */
  function Error(message: string): JsValue {
    ErrorObj("Error", message)
  }

  /** JavaScript's `Boolean(v)`: undefined, null, false, 0 and "" are falsy,
      every object is truthy. */
  predicate Truthy(v: JsValue) {
    match v
    case Undefined => false
    case Null => false
    case Bool(b) => b
    case Num(n) => n != 0
    case Str(s) => s != ""
    case Obj(_) => true
    case ErrorObj(_, _) => true
  }

  /** `a || b`: the left operand when it is truthy, else the right one. */
  function Or(a: JsValue, b: JsValue): (r: JsValue)
    ensures r == a || r == b
    ensures Truthy(r) <==> Truthy(a) || Truthy(b)
  {
    if Truthy(a) then a else b
  }

  /** The outcome of reading `v[key]`: a value, or the `TypeError` thrown. */
  datatype PropertyRead = Value(value: JsValue) | TypeError(error: JsValue)

  /** The `TypeError` a property read from undefined or null throws. The
      message is the one V8 uses. */
  function ReadError(v: JsValue, key: string): (e: JsValue) {
    ErrorObj("TypeError", "Cannot read properties of " + (if v.Null? then "null" else "undefined")
                          + " (reading '" + key + "')")
  }

  /** `v[key]`: an own field of an object, `undefined` for a missing field or
      for a primitive, and a `TypeError` on undefined or null. Prototype
      properties (such as `length` of a string) are not modelled. */
  function GetProp(v: JsValue, key: string): (r: PropertyRead)
    ensures r.TypeError? <==> v == Undefined || v == Null
    ensures r.TypeError? ==> r.error == ReadError(v, key)
    ensures v.Obj? && key in v.fields ==> r == Value(v.fields[key])
    ensures v.Obj? && key !in v.fields ==> r == Value(Undefined)
  {
    match v
    case Undefined => TypeError(ReadError(v, key))
    case Null => TypeError(ReadError(v, key))
    case Obj(fields) => if key in fields then Value(fields[key]) else Value(Undefined)
    case _ => Value(Undefined)
  }
}

/** Parsed JSON as the chat components receive it from `response.json()`, with
    the JavaScript semantics the normaliser depends on: truthiness, property
    access and the `||` operator. */
module Json {

  import opened Wrappers

  datatype Value =
    | JNull
    | JBool(b: bool)
    | JNumber(n: real)
    | JString(s: string)
    | JArray(items: seq<Value>)
    | JObject(fields: map<string, Value>)

  /** JavaScript truthiness of a parsed JSON value: `null`, `false`, `0` and
      `""` are falsy; every other value, every array and object included, is truthy. */
  predicate Truthy(v: Value)
  {
    match v
    case JNull => false
    case JBool(b) => b
    case JNumber(n) => n != 0.0
    case JString(s) => s != []
    case JArray(_) => true
    case JObject(_) => true
  }

  /** Truthiness of an operand that may be `undefined` (`None`). */
  predicate Present(x: Option<Value>)
  {
    x.Some? && Truthy(x.value)
  }

  /** `data[key]` for a payload that is not `null` (reading a property of
      `null` throws, and the callers test for that first): only an object has
      the key; strings, numbers, booleans and arrays give `undefined`. */
  function Member(data: Value, key: string): Option<Value>
  {
    if data.JObject? && key in data.fields then Some(data.fields[key]) else None
  }

  /** `a || b`: the left operand when it is truthy, else the right one. */
  function Or(a: Option<Value>, b: Option<Value>): (r: Option<Value>)
    ensures Present(r) <==> Present(a) || Present(b)
    ensures Present(a) ==> r == a
    ensures !Present(a) ==> r == b
  {
    if Present(a) then a else b
  }
}

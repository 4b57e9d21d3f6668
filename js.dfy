/** The JavaScript values the client exchanges with its server, and JavaScript truthiness. */
module Js {
  import opened Wrappers

  /** A value that `JSON.parse` can produce. */
  datatype Value =
    | JNull
    | JBool(b: bool)
    | JNumber(n: real)
    | JString(s: string)
    | JArray(items: seq<Value>)
    | JObject(fields: map<string, Value>)

  /** `!!v`: false, 0, "" and null are falsy; arrays and objects are always truthy. */
  predicate Truthy(v: Value) {
    match v
    case JNull => false
    case JBool(b) => b
    case JNumber(n) => n != 0.0
    case JString(s) => s != ""
    case JArray(_) => true
    case JObject(_) => true
  }

  /** Truthiness of a value that may be `undefined` (None). */
  predicate OptTruthy(v: Option<Value>) {
    v.Some? && Truthy(v.value)
  }

  /** Truthiness of a `string | null`: only a non-empty string is truthy. */
  predicate StrTruthy(s: Option<string>) {
    s.Some? && s.value != ""
  }

  /** `v.key` for a value that is not `null`: only an object with that own key has it. */
  function Field(v: Value, key: string): (r: Option<Value>)
    requires v != JNull
    ensures r.Some? <==> v.JObject? && key in v.fields
    ensures r.Some? ==> r.value == v.fields[key]
  {
    match v
    case JObject(m) => if key in m then Some(m[key]) else None
    case _ => None
  }
}

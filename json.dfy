/** JSON documents as values, the form in which request bodies arrive and
    responses leave. Numbers are reals, covering Python's `int` and finite
    `float` values; the `NaN` and `Infinity` that Python's decoder also
    accepts have no counterpart here. */
module Json {

  datatype Json =
    | JNull
    | JBool(b: bool)
    | JNumber(n: real)
    | JString(s: string)
    | JArray(items: seq<Json>)
    | JObject(fields: map<string, Json>)

  /** The decoded values Python treats as false: `None`, `False`, zero, the
      empty string, the empty list and the empty dict. */
  const Falsy: set<Json> := {JNull, JBool(false), JNumber(0.0), JString(""), JArray([]), JObject(map[])}

  /** Python's truth value of a decoded JSON value. */
  function Truthy(v: Json): (truthy: bool)
    ensures !truthy <==> v in Falsy
  {
    match v
    case JNull => false
    case JBool(b) => b
    case JNumber(n) => n != 0.0
    case JString(s) => s != ""
    case JArray(items) => items != []
    case JObject(fields) => fields != map[]
  }

  /** `d.get(key, None)` on a decoded JSON object. */
  function Get(d: map<string, Json>, key: string): (v: Json)
    ensures key in d ==> v == d[key]
    ensures key !in d ==> v == JNull && !Truthy(v)
  {
    if key in d then d[key] else JNull
  }
}

/**
 * The Python values a parsed JSON request body can hold (`request.json`),
 * with Python's truthiness. `JNull` is Python `None`, which is what
 * `request.json` returns for a JSON `null` body. Numbers are kept as
 * reals: the handler tests them for zero and forwards a numeric session id
 * unchanged.
 */
module Json {

  datatype Json =
    | JNull
    | JBool(b: bool)
    | JNumber(n: real)
    | JString(str: string)
    | JArray(items: seq<Json>)
    | JObject(fields: map<string, Json>)

  /** `bool(v)` in Python: `None`, `False`, zero and empty containers are falsy. */
  predicate Truthy(v: Json) {
    match v
    case JNull => false
    case JBool(b) => b
    case JNumber(n) => n != 0.0
    case JString(s) => s != []
    case JArray(items) => items != []
    case JObject(fields) => fields != map[]
  }

  /** `d.get(key, default)` on a dict. */
  function Get(fields: map<string, Json>, key: string, default: Json): Json
  {
    if key in fields then fields[key] else default
  }
}

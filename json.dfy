/** Parsed JSON documents and the few JavaScript operations the application
    applies to them: truthiness, property access and indexing. */
module Json {
  import opened Wrappers

  /** A value produced by `JSON.parse`. Numbers are integers here. */
  datatype JsonValue =
    | JNull
    | JBool(b: bool)
    | JNumber(n: int)
    | JString(s: string)
    | JArray(elems: seq<JsonValue>)
    | JObject(fields: map<string, JsonValue>)

  /** JavaScript truthiness of a value; `None` is `undefined`.
      Arrays and objects are truthy even when empty. */
  predicate Truthy(v: Option<JsonValue>)
  {
    match v
    case None => false
    case Some(JNull) => false
    case Some(JBool(b)) => b
    case Some(JNumber(n)) => n != 0
    case Some(JString(s)) => s != ""
    case Some(JArray(_)) => true
    case Some(JObject(_)) => true
  }

  /** Property access `v.key` on a value that is not `null`: objects yield
      their field, every other non-null value yields `undefined`
      (`None`). Reading a property of `null` throws, so callers check
      `JNull` before calling. */
  function Get(v: JsonValue, key: string): (r: Option<JsonValue>)
    requires v != JNull
    ensures r.Some? ==> v.JObject? && key in v.fields && r.value == v.fields[key]
    ensures v.JObject? && key in v.fields ==> r.Some?
  {
    if v.JObject? && key in v.fields then Some(v.fields[key]) else None
  }

  /** `v[0]` for a truthy value: the first element of an array, the first
      character of a string, the field "0" of an object; otherwise `undefined`. */
  function First(v: JsonValue): Option<JsonValue>
  {
    match v
    case JArray(xs) => if |xs| > 0 then Some(xs[0]) else None
    case JString(s) => if |s| > 0 then Some(JString([s[0]])) else None
    case JObject(m) => if "0" in m then Some(m["0"]) else None
    case _ => None
  }
}

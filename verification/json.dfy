/** The values `json.loads` produces, with the Python operations the
    converter applies to them: truthiness, `key in value` and `obj[key]`.
    An object keeps its members in document order, as a Python `dict` does. */
module Json {
  import opened Text
  import opened OrderedMap

  datatype Json =
    | JNull
    | JBool(b: bool)
    | JNumber(n: real)
    | JString(s: string)
    | JArray(items: seq<Json>)
    | JObject(members: OMap<Json>)

  /** The outcome of a Python expression that may raise an exception the
      converter does not catch. */
  datatype Outcome<T> = Done(value: T) | Crashed

  /** `bool(v)`: `None`, `False`, zero, and empty strings, lists and dicts
      are false. */
  predicate Truthy(v: Json) {
    match v
    case JNull => false
    case JBool(b) => b
    case JNumber(n) => n != 0.0
    case JString(s) => s != []
    case JArray(items) => items != []
    case JObject(members) => members != []
  }

  /** `key in value`: a key of a dict, an element of a list, a substring of
      a string; on a number, a boolean or `None` Python raises `TypeError`. */
  function Contains(value: Json, key: string): (r: Outcome<bool>)
    ensures r.Crashed? <==> value.JNull? || value.JBool? || value.JNumber?
    ensures value.JObject? ==> r == Done(HasKey(value.members, key))
  {
    match value
    case JObject(members) => Done(HasKey(members, key))
    case JArray(items) => Done(JString(key) in items)
    case JString(s) => Done(Find(s, key).Some?)
    case _ => Crashed
  }

  /** `value[key]` once `key in value` held: a dict yields the member, while
      a list or a string raises `TypeError` for a string index. */
  function Index(value: Json, key: string): (r: Outcome<Json>)
    requires Contains(value, key) == Done(true)
    ensures r.Done? <==> value.JObject?
  {
    if value.JObject? then
      LookupHasKey(value.members, key);
      Done(Lookup(value.members, key).value)
    else Crashed
  }
}

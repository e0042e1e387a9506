/**
 * The values a request body can parse to. Object members are a map because
 * a parsed JavaScript object keeps one value per key (the last one wins).
 * Numbers are mathematical reals: nothing in the system computes with them.
 */
module Json {
  import opened Wrappers

  datatype Json =
    | JNull
    | JBool(b: bool)
    | JNumber(n: real)
    | JString(s: string)
    | JArray(elems: seq<Json>)
    | JObject(members: map<string, Json>)

  /** The result of a JavaScript property read `value[key]` that did not throw. */
  datatype Lookup = Undefined | Defined(value: Json)

  /**
   * `value[key]` on a parsed body: `null` throws a TypeError (None here),
   * an object yields its member or `undefined`, and every other value
   * yields `undefined`. That last rule holds only for keys that no string,
   * array or `Object.prototype` carries (not `length`, say); the one key
   * read in the system, `data_endpoint`, is such a key.
   */
  function GetProperty(value: Json, key: string): (r: Option<Lookup>)
    ensures r.None? <==> value.JNull?
    ensures r.Some? && r.value.Defined? <==> value.JObject? && key in value.members
    ensures r.Some? && r.value.Defined? ==> r.value.value == value.members[key]
  {
    match value
    case JNull => None
    case JObject(m) => if key in m then Some(Defined(m[key])) else Some(Undefined)
    case _ => Some(Undefined)
  }
}

/** The JSON values that `JSONSerialization.jsonObject` can produce, and the two
    dynamic casts the manager applies to a dictionary entry. */
module Json {
  import opened Wrappers

  datatype Json =
    | JNull
    | JBool(b: bool)
    | JNumber(literal: string)
    | JString(str: string)
    | JArray(items: seq<Json>)
    | JObject(fields: map<string, Json>)

  /** A JSON object, Swift's `[String: Any]`. */
  type Object = map<string, Json>

  /** `obj[key] as? String` */
  function StringField(obj: Object, key: string): (r: Option<string>)
    ensures r.Some? <==> key in obj && obj[key].JString?
    ensures r.Some? ==> obj[key] == JString(r.value)
  {
    if key in obj && obj[key].JString? then Some(obj[key].str) else None
  }

  /** `obj[key] as? [String: Any]` */
  function ObjectField(obj: Object, key: string): (r: Option<Object>)
    ensures r.Some? <==> key in obj && obj[key].JObject?
    ensures r.Some? ==> obj[key] == JObject(r.value)
  {
    if key in obj && obj[key].JObject? then Some(obj[key].fields) else None
  }

  /** `json as? [String: Any]` applied to the outcome of a parse that may have failed. */
  function AsObject(parsed: Option<Json>): (r: Option<Object>)
    ensures r.Some? <==> parsed.Some? && parsed.value.JObject?
    ensures r.Some? ==> parsed.value == JObject(r.value)
  {
    if parsed.Some? && parsed.value.JObject? then Some(parsed.value.fields) else None
  }
}

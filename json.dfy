/** JSON values, as `serde_json::Value` holds them. Objects are maps from member
    name to value; fractional numbers are not represented. */
module Json {
  import opened Wrappers

  datatype Json =
    | JNull
    | JBool(b: bool)
    | JInt(i: int)
    | JString(s: string)
    | JArray(items: seq<Json>)
    | JObject(members: map<string, Json>)

  /** Member `name` of an object; `None` for a missing member or a non-object. */
  function Member(j: Json, name: string): (r: Option<Json>)
    ensures r.Some? <==> j.JObject? && name in j.members
    ensures r.Some? ==> r.value == j.members[name]
  {
    match j
    case JObject(m) => if name in m then Some(m[name]) else None
    case _ => None
  }
}

/** JSON values as the gateway reads them: the text is replaced by the value it denotes. */
module Json {
  import opened Wrappers

  /** Malformed is text that does not parse; Other is a number, boolean, null or array. Parsing the dump of a
      value gives the value back, so a dumped value is represented by itself. */
  datatype Json = Malformed | String(s: string) | Object(fields: map<string, Json>) | Other

  /** j.at(key).get<std::string>(), None where it throws. */
  function AtString(j: Json, key: string): Option<string> {
    if j.Object? && key in j.fields && j.fields[key].String? then Some(j.fields[key].s) else None
  }

  /** j.value(key, fallback) for a string, None where it throws. */
  function ValueString(j: Json, key: string, fallback: string): Option<string> {
    if !j.Object? then None
    else if key !in j.fields then Some(fallback)
    else AtString(j, key)
  }

  /** j.value(key, json::object()) on an object. */
  function ValueJson(j: Json, key: string): Json
    requires j.Object?
  {
    if key in j.fields then j.fields[key] else Object(map[])
  }
}

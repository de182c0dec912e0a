/** JSON values as the hub receives and sends them, and the optional value
    used for a field that may be null. */
module Values {

  /** A value that may be absent (Python's `None`). */
  datatype Option<T> = None | Some(value: T)

  /** A JSON value. Numbers are modelled as integers; the hub never looks
      inside a number, it only carries counts and relays payloads. */
  datatype Json =
    | JNull
    | JBool(b: bool)
    | JNumber(n: int)
    | JString(s: string)
    | JArray(items: seq<Json>)
    | JObject(fields: map<string, Json>)

  /** Python's `fields.get(key, default)` on a JSON object. */
  function Get(fields: map<string, Json>, key: string, default: Json): Json
  {
    if key in fields then fields[key] else default
  }

  /** An optional timestamp as it appears on the wire: a string or null. */
  function OrNull(o: Option<string>): Json
  {
    match o
    case None => JNull
    case Some(s) => JString(s)
  }
}

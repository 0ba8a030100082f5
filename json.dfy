/** JSON values as encoding/json produces them, and their compact text. */
module Json {
  import opened Text

  datatype Json =
    | JNull
    | JString(text: string)
    | JArray(items: seq<Json>)
    | JObject(fields: seq<(string, Json)>)

  /** The compact encoding json.Marshal emits (no insignificant white space). The
      text is never empty and never holds a raw newline, so a value written after
      "\n- " stays on its own line. */
  function Encode(j: Json): (r: string)
    ensures r != [] && '\n' !in r
  {
    match j
    case JNull => "null"
    case JString(t) => Quote(t)
    case JArray(items) =>
      var parts := seq(|items|, i requires 0 <= i < |items| => Encode(items[i]));
      JoinWithAvoids(parts, ",", '\n');
      "[" + JoinWith(parts, ",") + "]"
    case JObject(fields) =>
      var parts := seq(|fields|, i requires 0 <= i < |fields| => Quote(fields[i].0) + ":" + Encode(fields[i].1));
      JoinWithAvoids(parts, ",", '\n');
      "{" + JoinWith(parts, ",") + "}"
  }
}

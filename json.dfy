/**
 * A JSON value as `JSON.parse` returns it. The parser itself is outside the
 * model; a number is kept as the exact decimal its literal denotes, and an
 * object as the map from its keys to their values (a repeated key keeps its
 * last value, as `JSON.parse` does).
 */
module Json {
  import opened Numbers

  datatype Json =
    | JNull
    | JBool(b: bool)
    | JNumber(n: Decimal)
    | JString(s: string)
    | JArray(elements: seq<Json>)
    | JObject(fields: map<string, Json>)
}

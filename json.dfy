/**
 * A JSON value as produced by Python's json.loads: the pipeline never looks
 * inside most of it, so the only distinctions the model needs are the shapes
 * (object, array, string, ...). Numbers keep their source text, since no
 * arithmetic is ever done on them.
 */
module Json {

  datatype Json =
    | JNull
    | JBool(b: bool)
    | JNumber(lexeme: string)
    | JString(s: string)
    | JArray(items: seq<Json>)
    | JObject(fields: map<string, Json>)

  /** A Python dict decoded from a JSON object: key to value. */
  type Record = map<string, Json>
}

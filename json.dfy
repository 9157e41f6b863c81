/**
 * Structured request bodies and the serialiser/parser pair that the webhook
 * mapping calls (`to_json` on the way in, `JSON.parse` on the way out).
 * The text format itself is not modelled: a codec is any pair of functions,
 * and the round-trip law that the JSON library is trusted to obey is the
 * hypothesis `Lawful`.
 */
module Json {
  import opened Basics

  /** A value that JSON text denotes (numbers are kept integral). */
  datatype Json =
    | JNull
    | JBool(b: bool)
    | JNumber(n: int)
    | JString(s: string)
    | JArray(items: seq<Json>)
    | JObject(members: map<string, Json>)

  /** `serialise` stands for `to_json`; `parse` for `JSON.parse`, with None where it raises. */
  datatype Codec = Codec(serialise: Json -> string, parse: string -> Option<Json>)

  /** Parsing what was serialised gives the value back. */
  ghost predicate Lawful(codec: Codec)
  {
    forall v :: codec.parse(codec.serialise(v)) == Some(v)
  }
}

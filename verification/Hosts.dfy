/**
 * What the codec asks of the JavaScript engine: JSON parsing and printing, and the
 * blob-reference check built on them. They are parameters of the model.
 */
module Hosts {
  import opened Results

  /** A JSON value; the members of an object are in insertion order. */
  datatype Json =
    | JNull
    | JBool(b: bool)
    | JNumber(text: string)
    | JString(s: string)
    | JArray(items: seq<Json>)
    | JObject(members: seq<(string, Json)>)

  datatype Host = Host(
    jsonParse: string -> Option<Json>,
    jsonStringify: Json -> string,
    isBlobRef: string -> bool)

  /** `JSON.parse` does not throw. */
  predicate IsJson(host: Host, t: string) { host.jsonParse(t).Some? }
}

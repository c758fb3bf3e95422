/**
 * The JSON value model shared by both ends of the RPC link: what Python's
 * `json` module and Go's `encoding/json` decode a document into.
 */
module JsonValue {
  import Common

  /** A JSON value. Numbers are integers here (see README). */
  datatype Json =
    | JNull
    | JBool(b: bool)
    | JNum(n: int)
    | JStr(s: string)
    | JArr(items: seq<Json>)
    | JObj(fields: map<string, Json>)

  /** Python's `dict.get(key, default)` on a decoded object. */
  function Get(fields: map<string, Json>, key: string, default: Json): (v: Json)
    ensures key in fields ==> v == fields[key]
    ensures key !in fields ==> v == default
  {
    Common.Lookup(fields, key, default)
  }

  /** An object whose keys are exactly strings of a string-to-string Go map. */
  function StringMap(m: map<string, string>): (j: Json)
    ensures j.JObj? && j.fields.Keys == m.Keys
    ensures forall k :: k in m ==> j.fields[k] == JStr(m[k])
  {
    JObj(map k | k in m :: JStr(m[k]))
  }
}

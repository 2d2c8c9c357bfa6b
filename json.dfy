/** Decoded JSON documents, as `resp.json()` returns them. */
module Json {

  datatype Json =
    | JNull
    | JBool(b: bool)
    | JNum(n: real)
    | JStr(s: string)
    | JArr(items: seq<Json>)
    | JObj(fields: map<string, Json>)

  /** `obj.get(key)`: the member's value, or null when absent or not an object. */
  function Get(j: Json, key: string): (v: Json)
    ensures j.JObj? && key in j.fields ==> v == j.fields[key]
    ensures !(j.JObj? && key in j.fields) ==> v == JNull
  {
    if j.JObj? && key in j.fields then j.fields[key] else JNull
  }
}

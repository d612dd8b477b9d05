/** Decoded JSON values, as far as the protocol code inspects them. The JSON
    codec itself is not modelled: a response body is given together with the
    result of decoding it. */
module Json {

  datatype Json =
    | JNull
    | JBool(b: bool)
    | JNumber(n: int)
    | JString(s: string)
    | JArray(items: seq<Json>)
    | JObject(fields: map<string, Json>)

  /** Kotlin's `map[key]`: null both for an absent key and for a key bound to null. */
  function Get(m: map<string, Json>, key: string): (v: Json)
    ensures v != JNull ==> key in m && m[key] == v
    ensures key in m ==> v == m[key]
    ensures key !in m ==> v == JNull
  {
    if key in m then m[key] else JNull
  }

  /** Kotlin's `(x == true)` on an `Any?`: holds only of the boolean true itself. */
  predicate IsTrue(v: Json)
  {
    v == JBool(true)
  }
}

/**
 * The JSON trees the plugin reads (Gson's JsonElement after parsing) and the
 * flat object it builds from them (a JsonObject filled with addProperty).
 */
module Json {
  import opened JavaLang

  /**
   * A parsed JSON element. A number keeps what getAsDouble makes of it:
   * None when converting its text throws.
   */
  datatype Json =
    | JNull
    | JBool(b: bool)
    | JNumber(asDouble: Option<Double>)
    | JString(s: string)
    | JArray(elements: seq<Json>)
    | JObject(members: map<string, Json>)

  /** A primitive stored with addProperty: an int or long, a double, a boolean or a string. */
  datatype Val = VInt(i: int) | VReal(r: real) | VBool(b: bool) | VStr(s: string)

  /** The members of a built object, in insertion order. */
  type Fields = seq<(string, Val)>

  /** The value stored under key k (the first entry with that key), if any. */
  function Lookup(out: Fields, k: string): (r: Option<Val>)
    ensures r.None? <==> forall i | 0 <= i < |out| :: out[i].0 != k
    ensures r.Some? ==> exists i | 0 <= i < |out| :: out[i] == (k, r.value)
  {
    if out == [] then None
    else if out[0].0 == k then Some(out[0].1)
    else
      var r := Lookup(out[1..], k);
      assert forall i | 1 <= i < |out| :: out[i] == out[1..][i - 1];
      r
  }
}

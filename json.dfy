/**
 * Untyped values, as the modelled code receives them from JSON.parse, from the database or
 * from a model reply: what TypeScript calls `unknown`.
 */
module Json {
  import opened Js

  /** A JavaScript number: an exact real, or NaN. */
  datatype Num = Real(r: real) | NaN

  /** A JSON-like value. An object is a map from its own keys to values. */
  datatype Json =
    | JNull
    | JBool(b: bool)
    | JNum(n: Num)
    | JStr(s: string)
    | JArr(items: seq<Json>)
    | JObj(fields: map<string, Json>)

  /** `v && typeof v === "object"`: arrays and non-null objects. */
  predicate IsObject(v: Json) {
    v.JArr? || v.JObj?
  }

  /** Property access `v.key`; None stands for `undefined`. Arrays have none of the keys read in
      this model. */
  function Get(v: Json, key: string): (r: Option<Json>)
    ensures r.Some? ==> v.JObj? && key in v.fields && r.value == v.fields[key]
  {
    if v.JObj? && key in v.fields then Some(v.fields[key]) else None
  }

  /** `v != null` (loose): neither undefined nor null. */
  predicate IsPresent(v: Option<Json>) {
    v.Some? && !v.value.JNull?
  }

  /** JavaScript truthiness. */
  predicate Truthy(v: Option<Json>) {
    match v
    case None => false
    case Some(JNull) => false
    case Some(JBool(b)) => b
    case Some(JNum(n)) => n.Real? && n.r != 0.0
    case Some(JStr(s)) => s != ""
    case Some(JArr(_)) => true
    case Some(JObj(_)) => true
  }

  /** `typeof v === "number"` (NaN included). */
  predicate IsNumber(v: Option<Json>) {
    v.Some? && v.value.JNum?
  }

  /** `typeof v === "number" && !Number.isNaN(v)`. */
  predicate IsFiniteNumber(v: Option<Json>) {
    v.Some? && v.value.JNum? && v.value.n.Real?
  }

  /** `typeof v === "string"`. */
  predicate IsString(v: Option<Json>) {
    v.Some? && v.value.JStr?
  }

  function Str(s: string): Json {
    JStr(s)
  }

  function Number(r: real): Json {
    JNum(Real(r))
  }

  /** Strings as a JSON array of strings. */
  function StrArray(ss: seq<string>): (r: Json)
    ensures r.JArr? && |r.items| == |ss|
    ensures forall i :: 0 <= i < |ss| ==> r.items[i] == JStr(ss[i])
  {
    JArr(seq(|ss|, i requires 0 <= i < |ss| => JStr(ss[i])))
  }
}

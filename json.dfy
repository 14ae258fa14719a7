/** Values produced by `JSON.parse`, and the few JavaScript operations the
    popup applies to them: truthiness, property reads, `a || b`, `x[0]` and
    conversion with `String(x)`. Parsing itself is not modelled. */
module Json {
  import opened Wrappers

  /** A parsed JSON value. A number carries its value, as an exact real, and
      the text that `String(n)` prints for it. `JSON.parse` never yields NaN,
      but it does round a literal beyond the double range (`1e400`) to an
      infinity, which a real cannot hold; see the README. */
  datatype Json =
    | JNull
    | JBool(b: bool)
    | JNum(value: real, text: string)
    | JStr(s: string)
    | JArr(items: seq<Json>)
    | JObj(fields: map<string, Json>)

  /** JavaScript truthiness of a present value. */
  predicate Truthy(v: Json) {
    match v
    case JNull => false
    case JBool(b) => b
    case JNum(x, _) => x != 0.0
    case JStr(s) => s != ""
    case JArr(_) => true
    case JObj(_) => true
  }

  /** Truthiness of a value that may be `undefined`. */
  predicate TruthyOpt(v: Option<Json>) {
    v.Some? && Truthy(v.value)
  }

  /** `v.key` (and `v?.key`): only an object has the keys the popup reads. */
  function Get(v: Json, key: string): (r: Option<Json>)
    ensures r.Some? <==> v.JObj? && key in v.fields
    ensures r.Some? ==> r.value == v.fields[key]
  {
    match v
    case JObj(m) => if key in m then Some(m[key]) else None
    case _ => None
  }

  /** `a?.key` where `a` may itself be undefined. */
  function GetOpt(v: Option<Json>, key: string): Option<Json> {
    if v.Some? then Get(v.value, key) else None
  }

  /** `a || b` where `a` may be undefined and `b` is a fallback value. */
  function Or(a: Option<Json>, b: Json): (r: Json)
    ensures TruthyOpt(a) ==> r == a.value
    ensures !TruthyOpt(a) ==> r == b
  {
    if TruthyOpt(a) then a.value else b
  }

  /** `x?.[0]`: the first element of an array, the first character of a
      string, the property "0" of an object; undefined otherwise. */
  function Index0(v: Option<Json>): (r: Option<Json>)
    ensures v.Some? && v.value.JArr? ==>
              r == (if |v.value.items| > 0 then Some(v.value.items[0]) else None)
    ensures v.Some? && v.value.JStr? ==>
              r == (if |v.value.s| > 0 then Some(JStr([v.value.s[0]])) else None)
    ensures v.None? || v.value.JNull? || v.value.JBool? || v.value.JNum? ==> r.None?
  {
    if v.None? then None
    else match v.value
      case JArr(items) => if |items| > 0 then Some(items[0]) else None
      case JStr(s) => if |s| > 0 then Some(JStr([s[0]])) else None
      case JObj(m) => if "0" in m then Some(m["0"]) else None
      case _ => None
  }

  /** `String(v)` throws a TypeError: an object with its own `toString`
      key (which `JSON.parse` never makes callable), or an array one of
      whose elements is such a value, since printing an array prints its
      elements. */
  predicate PrintThrows(v: Json)
    decreases v
  {
    match v
    case JObj(m) => "toString" in m
    case JArr(items) => exists i :: 0 <= i < |items| && PrintThrows(items[i])
    case _ => false
  }

  /** `String(v)` (also what a template literal `${v}` prints). An array
      prints its elements joined by commas, with `null` printed as "". */
  function ToJsString(v: Json): string
    decreases v
  {
    match v
    case JNull => "null"
    case JBool(b) => if b then "true" else "false"
    case JNum(_, text) => text
    case JStr(s) => s
    case JArr(items) => ItemsToJsString(items)
    case JObj(_) => "[object Object]"
  }

  /** The elements of an array printed and joined by commas. */
  function ItemsToJsString(items: seq<Json>): string
    decreases items
  {
    if |items| == 0 then ""
    else
      var first := if items[0].JNull? then "" else ToJsString(items[0]);
      if |items| == 1 then first else first + "," + ItemsToJsString(items[1..])
  }

  /** `String(v)` where `v` may be undefined. */
  function ToJsStringOpt(v: Option<Json>): string {
    if v.Some? then ToJsString(v.value) else "undefined"
  }
}

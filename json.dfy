/**
 * Decoded JSON values, as `json.loads` and `JSON.parse` hand them to the modelled code,
 * and the few Python operations the code applies to them.
 * Parsing itself is not modelled: it is a parameter `string -> Option<Json>` wherever it is used.
 */
module JsonValues {
  import opened Strings

  /** A decoded JSON value: integral numbers are Python `int`s, the others `float`s. */
  datatype Json =
    | JNull
    | JBool(b: bool)
    | JNum(n: int)
    | JReal(x: real)
    | JStr(s: string)
    | JArr(items: seq<Json>)
    | JObj(fields: map<string, Json>)

  /** Python truthiness of a decoded value (`if x:` / `not x`). */
  predicate Truthy(j: Json) {
    match j
    case JNull => false
    case JBool(b) => b
    case JNum(n) => n != 0
    case JReal(x) => x != 0.0
    case JStr(s) => s != ""
    case JArr(items) => items != []
    case JObj(fields) => fields != map[]
  }

  /** Python's `d.get(key, default)`. */
  function Get(d: map<string, Json>, key: string, default: Json): Json {
    if key in d then d[key] else default
  }

  /** Python's `j == n` for an `int` n: `True == 1` and `False == 0` hold in Python. */
  predicate PyEqualsInt(j: Json, n: int) {
    match j
    case JNum(m) => m == n
    case JReal(x) => x == n as real
    case JBool(b) => (if b then 1 else 0) == n
    case _ => false
  }

  /** JavaScript truthiness of a parsed value: unlike Python, empty arrays and objects are truthy. */
  predicate JsTruthy(j: Json) {
    match j
    case JNull => false
    case JBool(b) => b
    case JNum(n) => n != 0
    case JReal(x) => x != 0.0
    case JStr(s) => s != ""
    case JArr(_) => true
    case JObj(_) => true
  }

  /**
   * JavaScript's `String(x)` on a parsed value: an array is its elements joined by `,`
   * (`null` elements give ""), an object is `[object Object]`. `showReal` renders a
   * non-integral number, which is floating-point formatting.
   */
  function JsText(j: Json, showReal: real -> string): (r: string)
    ensures j.JStr? ==> r == j.s
    decreases j, 0
  {
    match j
    case JNull => "null"
    case JBool(b) => if b then "true" else "false"
    case JNum(n) => IntToString(n)
    case JReal(x) => showReal(x)
    case JStr(s) => s
    case JArr(items) =>
      Join(seq(|items|, i requires 0 <= i < |items| => JoinPiece(items[i], showReal)), ",")
    case JObj(_) => "[object Object]"
  }

  /** How `Array.prototype.join` renders one element: `null` as "", anything else as `String(x)`. */
  function JoinPiece(j: Json, showReal: real -> string): (r: string)
    ensures j.JStr? ==> r == j.s
    decreases j, 1
  {
    if j.JNull? then "" else JsText(j, showReal)
  }
}

/**
 * The slice of JavaScript's value semantics the bankly code relies on:
 * truthiness (`!x`, `a && b`), strict equality against a string, and
 * property access on a plain object, where a missing key reads `undefined`.
 */
module Js {

  /** A JSON-like JavaScript value. Numbers are modelled as integers. */
  datatype JsValue = Undefined | Null | Bool(b: bool) | Num(n: int) | Str(s: string)

  /** A plain object, such as a parsed request body or a verified token payload. */
  type JsObject = map<string, JsValue>

  /** `o[k]`: the stored value, or `undefined` when the key is absent. */
  function Get(o: JsObject, k: string): (v: JsValue)
    ensures k !in o ==> v == Undefined
    ensures k in o ==> v == o[k]
  {
    if k in o then o[k] else Undefined
  }

  /** JavaScript truthiness: `undefined`, `null`, `false`, `0` and `""` are falsy. */
  predicate Truthy(v: JsValue) {
    match v
    case Undefined => false
    case Null => false
    case Bool(b) => b
    case Num(n) => n != 0
    case Str(s) => |s| > 0
  }

  /** `v === s` for a string `s`: only a string with the same characters is strictly equal. */
  predicate StrictEqStr(v: JsValue, s: string) {
    v.Str? && v.s == s
  }
}

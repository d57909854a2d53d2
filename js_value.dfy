/**
 * Dynamic JavaScript values, as far as the modelled code inspects them:
 * truthiness (`if (v)`, `||`), nullishness (`??`) and `typeof`.
 * Finite numbers are reals; NaN and the two infinities have constructors of their own.
 */
module JsValue {

  datatype JsValue =
    | Undefined
    | Null
    | Bool(b: bool)
    | Num(n: real)
    | NaN
    | Infinity(negative: bool)
    | Str(s: string)
    | Arr(elems: seq<JsValue>)
    | Obj(fields: map<string, JsValue>)
    | Fn

  /** JavaScript truthiness: false, 0, NaN, "", null and undefined are falsy. */
  predicate Truthy(v: JsValue) {
    match v
    case Undefined => false
    case Null => false
    case Bool(b) => b
    case Num(n) => n != 0.0
    case NaN => false
    case Str(s) => s != ""
    case _ => true
  }

  /** `v === null || v === undefined`. */
  predicate IsNullish(v: JsValue) {
    v.Undefined? || v.Null?
  }

  /** `a ?? b`. */
  function Coalesce(a: JsValue, b: JsValue): (r: JsValue)
    ensures !IsNullish(a) ==> r == a
    ensures IsNullish(a) ==> r == b
  {
    if IsNullish(a) then b else a
  }

  /** `a || b`. */
  function Or(a: JsValue, b: JsValue): (r: JsValue)
    ensures Truthy(a) ==> r == a
    ensures !Truthy(a) ==> r == b
  {
    if Truthy(a) then a else b
  }

  /** `typeof v === "object"`: objects, arrays, and null. */
  predicate IsObjectType(v: JsValue) {
    v.Null? || v.Arr? || v.Obj?
  }

  /** `typeof v === "number"`. */
  predicate IsNumberType(v: JsValue) {
    v.Num? || v.NaN? || v.Infinity?
  }

  /** `typeof v === "string"`. */
  predicate IsStringType(v: JsValue) {
    v.Str?
  }

  /** `??` and `||` disagree only when the left operand is falsy but neither null nor undefined. */
  lemma CoalesceVersusOr(a: JsValue, b: JsValue)
    ensures Coalesce(a, b) != Or(a, b) ==> !Truthy(a) && !IsNullish(a)
  {
  }

  /** `String(v)`. Strings, null, undefined and booleans are spelled out; numbers,
    * arrays, objects and functions are printed by `show`. */
  function ToJsString(v: JsValue, show: JsValue -> string): (r: string)
    ensures v.Str? ==> r == v.s
  {
    match v
    case Str(s) => s
    case Null => "null"
    case Undefined => "undefined"
    case Bool(b) => if b then "true" else "false"
    case _ => show(v)
  }
}

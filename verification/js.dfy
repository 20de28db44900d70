/** The JavaScript values a host may pass as an image reference, with the
    truthiness and property-lookup rules the image normalizers rely on. */
module Js {

  /** An object carries its own properties and `shown`, the text `String(obj)`
      produces for it ("[object Object]" for a plain object); the text is kept
      abstract because an object may define its own conversion. NaN, arrays,
      functions and symbols are not modelled. */
  datatype Value =
    | Undefined
    | Null
    | Bool(b: bool)
    | Num(n: real)
    | Str(s: string)
    | Obj(props: map<string, Value>, shown: string)

  predicate Truthy(v: Value) {
    match v
    case Undefined => false
    case Null => false
    case Bool(b) => b
    case Num(n) => n != 0.0
    case Str(s) => s != []
    case Obj(_, _) => true
  }

  /** Property access `v.key` (and `v?.key`): only objects have the properties
      the normalizers look at; everything else yields undefined. */
  function Get(v: Value, key: string): Value {
    if v.Obj? && key in v.props then v.props[key] else Undefined
  }

  /** JavaScript's `a || b`: the first operand when it is truthy, else the
      second, so the result is truthy when either operand is. */
  function Or(a: Value, b: Value): (r: Value)
    ensures Truthy(a) ==> r == a
    ensures !Truthy(a) ==> r == b
    ensures Truthy(r) <==> Truthy(a) || Truthy(b)
  {
    if Truthy(a) then a else b
  }

  /** `v && typeof v === 'string'`: a non-empty string. */
  predicate IsUrlString(v: Value) {
    v.Str? && v.s != []
  }

  /** `String(v)` for the values that reach that fallback (never a number). */
  function ToText(v: Value): string
    requires !v.Num?
  {
    match v
    case Undefined => "undefined"
    case Null => "null"
    case Bool(b) => if b then "true" else "false"
    case Str(s) => s
    case Obj(_, shown) => shown
  }
}

/** The slice of JavaScript values that the combinators inspect. */
module JsValues {

  /** A JavaScript value. Numbers are modelled as reals (NaN is not modelled);
      functions and other objects are `Obj`, `Error` is an Error instance. */
  datatype Value =
    | Undefined
    | Null
    | Bool(b: bool)
    | Num(n: real)
    | Str(s: string)
    | Obj(id: nat)
    | Error(message: string)

  /** ECMAScript ToBoolean: what `x ? a : b` and `!x` test. */
  predicate Truthy(v: Value) {
    match v
    case Undefined => false
    case Null => false
    case Bool(b) => b
    case Num(n) => n != 0.0
    case Str(s) => s != ""
    case Obj(_) => true
    case Error(_) => true
  }

  /** The falsy values are exactly `undefined`, `null`, `false`, `0` and `""`. */
  lemma FalsyValues(v: Value)
    ensures !Truthy(v) <==> v in {Undefined, Null, Bool(false), Num(0.0), Str("")}
  {
  }
}

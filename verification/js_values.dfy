/** The JavaScript values the engine stores and compares, with the two
    host-language tests it relies on: truthiness (`!x`) and strict
    equality (`!==`), plus the completions of a call. */
module JsValues {

  /** A JavaScript value. Numbers are reals (so `0` and `-0` coincide, as
      they do under `===`); `NaN` is its own case; objects and functions
      are compared by identity. */
  datatype JsValue =
    | Undefined
    | Null
    | Bool(b: bool)
    | Num(n: real)
    | NaN
    | Str(s: string)
    | Obj(id: nat)
    | Fun(id: nat)

  /** JavaScript truthiness: `undefined`, `null`, `false`, `0`, `NaN` and
      the empty string are falsy; everything else is truthy. */
  predicate Truthy(v: JsValue) {
    match v
    case Undefined => false
    case Null => false
    case Bool(b) => b
    case Num(n) => n != 0.0
    case NaN => false
    case Str(s) => s != ""
    case Obj(_) => true
    case Fun(_) => true
  }

  /** JavaScript `===`: equal values, except that `NaN` equals nothing. */
  predicate StrictEq(a: JsValue, b: JsValue) {
    a == b && !a.NaN?
  }

  /** Why an operation did not produce a value. */
  datatype Error =
    | ConfigError(message: string)  // an `Error` thrown at declaration time
    | TypeError                     // a host `TypeError`
    | Rejected(reason: JsValue)     // the computation's promise rejected

  datatype Result<T> = Ok(value: T) | Err(error: Error)

  datatype Option<T> = None | Some(value: T)
}

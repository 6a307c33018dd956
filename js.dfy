/** The few JavaScript runtime notions the task loader depends on: values,
    truthiness (`!!v`) and the two error classes the core throws. */
module Js {

  /** A JavaScript value as far as the loader distinguishes them. Numbers are
      integral here; `Object` and `Function` stand for values identified by
      reference. `Complete` is the completion closure that one invocation of a
      task wrapper creates (lib/index.js), `ModuleGetter` the closure the third
      injection resolver hands out for `getModule` (lib/di.js). */
  datatype Value =
    | Undefined
    | Null
    | Bool(b: bool)
    | Number(n: int)
    | NaN
    | Str(s: string)
    | Object(ref: nat)
    | Function(ref: nat)
    | Complete
    | ModuleGetter

  /** `!!v`: false exactly for undefined, null, false, 0, NaN and the empty string. */
  predicate Truthy(v: Value) {
    match v
    case Undefined => false
    case Null => false
    case Bool(b) => b
    case Number(n) => n != 0
    case NaN => false
    case Str(s) => s != ""
    case _ => true
  }

  /** The errors the core raises: a `RangeError` with its message, or a `TypeError`
      (a property read or call on `undefined`). */
  datatype Error = RangeError(message: string) | TypeError

  datatype Result<+T> = Ok(value: T) | Err(error: Error)

  datatype Option<+T> = None | Some(value: T)

  /** No element occurs twice; JavaScript object keys and `Set` contents have this shape. */
  predicate Distinct<T(==)>(s: seq<T>) {
    forall i, j :: 0 <= i < j < |s| ==> s[i] != s[j]
  }

}

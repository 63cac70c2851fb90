/** Optional values: the model's stand-in for a JavaScript value that may be `undefined`. */
module Wrappers {

  datatype Option<+T> = None | Some(value: T) {

    /** The contained value, or `default` when there is none (JavaScript's `x ?? default`). */
    function GetOr(default: T): T {
      match this
      case Some(v) => v
      case None => default
    }
  }
}

/**
 * A JavaScript number as the form inputs produce it: `register(..., { valueAsNumber: true })`
 * yields NaN for an empty or unparsable input. Infinities are not modelled.
 */
module JsNumber {

  datatype Num = Number(value: real) | NaN {

    /** JavaScript truthiness: 0 and NaN are falsy. */
    predicate Truthy() {
      Number? && value != 0.0
    }

    /** `this < k`, false for NaN as in JavaScript. */
    predicate Below(k: real) {
      Number? && value < k
    }

    /** `this <= k`, false for NaN. */
    predicate AtMost(k: real) {
      Number? && value <= k
    }

    /** `this >= k`, false for NaN (the check zod's `.min(k)` makes on a number). */
    predicate AtLeast(k: real) {
      Number? && value >= k
    }
  }
}

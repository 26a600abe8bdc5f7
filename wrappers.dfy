/** Kotlin's nullable values (`T?`) and the outcome of a call that may throw. */
module Wrappers {

  /** `None` plays Kotlin's `null`. */
  datatype Option<+T> = None | Some(value: T) {
    /** Kotlin's elvis operator `x ?: default`. */
    function GetOr(default: T): T {
      match this
      case Some(v) => v
      case None => default
    }
  }

  /** How a Kotlin call ended: it returned a value, or an exception escaped it. */
  datatype Outcome<+T> = Returned(value: T) | Thrown
}

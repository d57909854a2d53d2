/** Option, the JavaScript `null` / Python `None` of the model, and Outcome, a call that may throw. */
module Wrappers {

  datatype Option<+T> = None | Some(value: T) {

    /** The value, or `default` when there is none (JavaScript's `??`). */
    function GetOr(default: T): T {
      match this
      case Some(v) => v
      case None => default
    }
  }

  /** The result of a call that returns a value or throws an exception. */
  datatype Outcome<+T> = Returns(value: T) | Throws
}

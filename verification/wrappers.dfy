/**
  Optional values: the model's stand-in for JavaScript's `null`/`undefined`
  and Python's `None`.
 */
module Wrappers {

  datatype Option<+T> = None | Some(value: T) {

    /** The value, or `default` when absent (JavaScript `x ?? d`, Python `x or d` on non-falsy values). */
    function GetOr(default: T): T {
      match this
      case Some(v) => v
      case None => default
    }
  }
}

/** Option and Result: the values the pipeline uses where the source has
    a missing dictionary key or a caught exception. */
module Wrappers {

  /** A value that may be absent, like a dictionary key that was never set. */
  datatype Option<+T> = None | Some(value: T) {

    /** The value, or `default` when absent (Python's `dict.get(key, default)`). */
    function GetOr(default: T): T {
      match this
      case Some(v) => v
      case None => default
    }
  }

  /** The outcome of a call into an external service: its text, or the
      message of the exception it raised. */
  datatype Result<+R, +E> = Success(value: R) | Failure(error: E)
}

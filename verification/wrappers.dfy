/** Option and Result, used wherever the C code returns "nothing" or an error code. */
module Wrappers {

  /** A value that may be absent (a NULL pointer, an unset callback). */
  datatype Option<+T> = None | Some(value: T) {

    /** Returns the value, or the given default when there is none. */
    function GetOr(default: T): T {
      match this
      case Some(v) => v
      case None => default
    }
  }

  /** Either a successful value or an error. */
  datatype Result<+R, +E> = Success(value: R) | Failure(error: E) {

    predicate IsFailure() {
      Failure?
    }

    function PropagateFailure<U>(): Result<U, E>
      requires Failure?
    {
      Failure(error)
    }

    function Extract(): R
      requires Success?
    {
      value
    }
  }
}

/** Failure-compatible result types shared by every module of the chat model. */
module Wrappers {

  /** A value that may be missing (a field the backend does not hold, a lookup miss). */
  datatype Option<+T> = None | Some(value: T) {

    /** The held value, or `default` when there is none. */
    function GetOr(default: T): T {
      match this
      case Some(v) => v
      case None => default
    }
  }

  /** The outcome of an operation that either succeeds with a value or throws. */
  datatype Result<+T, +E> = Ok(value: T) | Err(error: E)
}

/** Failure-carrying datatypes shared by every module of the model. */
module Wrappers {

  /** A value that may be absent: Python's `None`, Go's `nil`. */
  datatype Option<+T> = None | Some(value: T) {
    function GetOr(default: T): T {
      match this
      case Some(v) => v
      case None => default
    }
  }

  /** The result of an operation that either yields a value or fails. */
  datatype Result<+T, +E> = Ok(value: T) | Err(error: E)

  /** The result of a check that yields nothing on success. */
  datatype Outcome<+E> = Pass | Fail(error: E)
}

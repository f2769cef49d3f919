/** Option and Result, the two failure-carrying wrappers the rest of the model uses. */
module Wrappers {

  /** A value that may be missing, as a Java reference that may be null. */
  datatype Option<+T> = None | Some(value: T) {
    function GetOr(default: T): T {
      match this
      case Some(v) => v
      case None => default
    }
  }

  /** A computation that either yields a value or raises an exception. */
  datatype Result<+T, +E> = Success(value: T) | Failure(error: E)
}

/** Small failure-carrying datatypes used across the model. */
module Wrappers {

  /** A value that may be absent (a TypeScript optional property). */
  datatype Option<+T> = None | Some(value: T) {
    function GetOr(default: T): T {
      match this
      case Some(v) => v
      case None => default
    }
  }

  /** Either a value or an error (a call that may throw). */
  datatype Result<+R, +E> = Success(value: R) | Failure(error: E)
}

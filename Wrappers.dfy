/** Optional values and results with an error, as used across the model. */
module Wrappers {

  /** A value that may be absent (Python's `None`). */
  datatype Option<+T> = None | Some(value: T) {
    function GetOr(default: T): T {
      match this
      case Some(v) => v
      case None => default
    }
  }

  /** The outcome of an operation that raises on malformed input. */
  datatype Result<+R, +E> = Ok(value: R) | Err(error: E)
}

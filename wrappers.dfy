/** Optional values and results with an error. */
module Wrappers {

  /** Go's nil-able pointer or (value, ok) pair. */
  datatype Option<+T> = None | Some(value: T) {
    function GetOr(default: T): T {
      match this
      case Some(v) => v
      case None => default
    }
  }

  /** Go's (value, error) return pair. */
  datatype Result<+R, +E> = Success(value: R) | Failure(error: E)
}

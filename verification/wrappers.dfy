/** Optional values and results: the model's stand-in for Python's missing
    dictionary keys and raised exceptions. */
module Wrappers {

  /** A value that may be absent (a JSON key that may be missing). */
  datatype Option<+T> = None | Some(value: T) {

    /** The value, or `default` when absent. */
    function GetOr(default: T): T {
      match this
      case Some(v) => v
      case None => default
    }
  }

  /** The outcome of a computation that may raise. */
  datatype Result<+T, +E> = Success(value: T) | Failure(error: E)
}

/** Option and Result: Python's `None` and raised exceptions, as values. */
module Wrappers {

  datatype Option<+T> = None | Some(value: T) {
    /** The value if present, the given default otherwise (Python's `d.get(k, default)`). */
    function GetOr(default: T): T {
      match this
      case Some(v) => v
      case None => default
    }
  }

  datatype Result<+R, +E> = Success(value: R) | Failure(error: E)
}

/** Option and Result: the absent value (undefined, null, NaN) and the error path. */
module Wrappers {

  datatype Option<+T> = None | Some(value: T) {
    /** `x || fallback` for an optional value */
    function GetOr(default: T): T {
      match this
      case Some(v) => v
      case None => default
    }
  }

  datatype Result<+T, +E> = Success(value: T) | Failure(error: E)
}

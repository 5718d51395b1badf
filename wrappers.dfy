/** Optional values (the source's nullable references) and results that carry
    either a value or an error envelope (the source's `(bool Success, T? Value,
    ErrorResponse? Error)` tuples). */
module Wrappers {

  datatype Option<+T> = None | Some(value: T) {
    /** The `??` operator: the value, or `default` when absent. */
    function GetOr(default: T): T {
      match this
      case Some(v) => v
      case None => default
    }
  }

  datatype Result<+R, +E> = Success(value: R) | Failure(error: E)
}

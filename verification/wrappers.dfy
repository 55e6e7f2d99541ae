/** Optional values and results with an error, shared by every module. */
module Wrappers {

  /** Kotlin's nullable value or Python's None. */
  datatype Option<+T> = None | Some(value: T) {
    function GetOr(default: T): T {
      match this
      case Some(v) => v
      case None => default
    }
  }

  /** A value, or the error (exception) the source raises instead. */
  datatype Result<+T, +E> = Ok(value: T) | Err(error: E)
}

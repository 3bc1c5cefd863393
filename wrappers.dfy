/** Optional values and error-carrying results shared by every module. */
module Wrappers {

  /** Python's `Optional[T]` and JSON's `null`: `None` or a present value. */
  datatype Option<+T> = None | Some(value: T) {
    function GetOr(default: T): T {
      match this
      case Some(v) => v
      case None => default
    }
  }

  /** A value, or the error an operation raised instead of returning. */
  datatype Result<+T, +E> = Ok(value: T) | Err(error: E)
}

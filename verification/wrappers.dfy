/** Optional values and results shared by the buffer model. */
module Wrappers {

  /** A value that may be absent: a Redis nil reply, an omitted `extra` argument. */
  datatype Option<+T> = None | Some(value: T) {
    function GetOr(default: T): T {
      match this
      case Some(v) => v
      case None => default
    }
  }

  /** A computation that either succeeds with a value or fails with an error. */
  datatype Result<+T, +E> = Ok(value: T) | Err(error: E)
}

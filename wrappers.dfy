/** Optional values and results with an error, as the source's `undefined` and thrown errors. */
module Wrappers {

  /** `undefined` (None) or a value (Some). */
  datatype Option<T> = None | Some(value: T) {
    function GetOr(default: T): T {
      match this
      case Some(v) => v
      case None => default
    }
  }

  /** A handler that returns a value (Ok) or throws an error (Err). */
  datatype Result<T, E> = Ok(value: T) | Err(error: E)
}

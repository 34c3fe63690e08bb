/** Optional values and pass/fail outcomes shared by every module of the tender model. */
module Wrappers {

  /** A value that may be absent: an optional field of a request or of a stored record. */
  datatype Option<T> = None | Some(value: T) {
    /** The carried value, or `default` when there is none. */
    function GetOr(default: T): T {
      match this
      case Some(v) => v
      case None => default
    }
  }

  /** The outcome of a request that either passes or is refused with an error. */
  datatype Outcome<E> = Pass | Fail(error: E)

  /** The outcome of a request that either produces a value or is refused with an error. */
  datatype Result<T, E> = Ok(value: T) | Err(error: E)
}

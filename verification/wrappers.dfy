/** Optional values and fallible results, used for nullable columns and for
    the outcome of a query against the data store. */
module Wrappers {

  /** A value that may be absent (JavaScript `null` or `undefined`). */
  datatype Option<+T> = None | Some(value: T) {

    /** The held value, or `default` when absent (the `x ?? d` idiom). */
    function GetOr(default: T): T {
      match this
      case Some(v) => v
      case None => default
    }
  }

  /** The outcome of a query: the rows it returned or the error it reported. */
  datatype Result<+T, +E> = Ok(value: T) | Err(error: E)
}

/** Option and Result, the failure-carrying values used throughout the model. */
module Wrappers {

  /** A value that may be absent (JavaScript `undefined`/`null`). */
  datatype Option<T> = None | Some(value: T) {
    /** The carried value, or `default` when absent (the `x || default` idiom). */
    function GetOr(default: T): T {
      match this
      case Some(v) => v
      case None => default
    }
  }

  /** The outcome of an operation that may be refused. */
  datatype Result<T, E> = Ok(value: T) | Err(error: E)
}

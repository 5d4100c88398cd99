/** Failure-carrying datatypes shared by every module of the model.
    - Option<T>: a Python `None` / JavaScript `null` or a present value.
    - Result<T, E>: a returned value or a raised error (an exception, an HTTP error status). */
module Wrappers {

  datatype Option<+T> = None | Some(value: T) {

    /** The value, or `default` when absent (Python `d if x is None else x`, JavaScript `x ?? d`). */
    function GetOr(default: T): T {
      match this
      case Some(v) => v
      case None => default
    }
  }

  datatype Result<+T, +E> = Ok(value: T) | Err(error: E)
}

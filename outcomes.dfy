/** Wrappers for optional values, error results and Python calls that may raise. */
module Outcomes {

  /** A value that may be absent (Python's `None`). */
  datatype Option<+T> = None | Some(value: T) {
    function GetOr(default: T): T {
      match this
      case Some(v) => v
      case None => default
    }
  }

  /** The result of an operation with a typed error. */
  datatype Result<+T, +E> = Ok(value: T) | Err(error: E)

  /** A call into code outside the model: it either returns a value or raises. */
  datatype Try<+T> = Returned(value: T) | Raised
}

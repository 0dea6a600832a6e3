/** Failure-carrying datatypes shared by the rest of the model. */
module Wrappers {

  /** A value that may be missing: a form field that was not submitted, an absent session key. */
  datatype Option<+T> = None | Some(value: T) {

    /** The carried value, or `default` when there is none (Python's `x or default`, `get(k, default)`). */
    function GetOr(default: T): T {
      match this
      case Some(v) => v
      case None => default
    }
  }

  /** The outcome of one request: a value, or the error the route reports. */
  datatype Result<+T, +E> = Ok(value: T) | Err(error: E)
}

/** The two failure-carrying types used throughout the model. */
module Wrappers {

  datatype Option<+T> = None | Some(value: T) {
    function GetOr(default: T): T {
      match this
      case Some(v) => v
      case None => default
    }
  }

  /** Stands for Go's pair of a value and an error. */
  datatype Result<+T, +E> = Ok(value: T) | Err(error: E)
}

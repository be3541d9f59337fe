/** Failure-carrying values for the places where the Python code raises or returns None. */
module Wrappers {

  datatype Option<+T> = None | Some(value: T) {
    function GetOr(default: T): T {
      match this
      case Some(v) => v
      case None => default
    }
  }

  /** `Err` stands for an exception the Python code lets escape from the operation. */
  datatype Result<+T, +E> = Ok(value: T) | Err(error: E)
}

/** Option and Outcome datatypes shared by the modules of this project. */
module Wrappers {

  /** A value that may be absent: a dictionary key that is not set, a search that found nothing. */
  datatype Option<+T> = None | Some(value: T) {
    function GetOr(default: T): T {
      match this
      case None => default
      case Some(v) => v
    }
  }

  /** Either a value or an error, for code that returns or raises. */
  datatype Result<+T, +E> = Ok(value: T) | Err(error: E)

  /** Success, or the first failure met: code that returns True or raises. */
  datatype Outcome<+E> = Pass | Fail(error: E)
}

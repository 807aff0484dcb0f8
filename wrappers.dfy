/** Option and Result values used for PHP's nullable values and thrown errors. */
module Wrappers {

  /** A PHP value that may be `null` (or an array key that may be missing). */
  datatype Option<+T> = None | Some(value: T) {
    function GetOr(default: T): T {
      match this
      case Some(v) => v
      case None => default
    }
  }

  /** A computation that either returns a value or throws. */
  datatype Result<+T, +E> = Ok(value: T) | Err(error: E)
}

/** Option and Result types used for absent values and recoverable errors. */
module Wrappers {

  /** A value that may be absent: Rust's `Option<T>`. */
  datatype Option<+T> = None | Some(value: T)

  /** Either a value or an error: Rust's `Result<T, E>`. */
  datatype Result<+T, +E> = Ok(value: T) | Err(error: E) {

    /** The value on success, or `default` on failure: Rust's `unwrap_or_else(|_| default)`. */
    function UnwrapOr(default: T): (r: T)
      ensures Ok? ==> r == value
      ensures Err? ==> r == default
    {
      match this
      case Ok(v) => v
      case Err(_) => default
    }
  }
}

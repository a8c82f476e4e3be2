/** Failure-carrying return types with the same success and error cases
    as Rust's `Option` and `Result`. */
module Wrappers {

  /** Rust's `Option<T>`: a value or nothing. */
  datatype Option<+T> = None | Some(value: T)

  /** Rust's `Result<T, E>`: a value or an error payload. */
  datatype Result<+T, +E> = Ok(value: T) | Err(error: E)
}

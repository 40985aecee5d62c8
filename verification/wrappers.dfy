/** Failure-carrying result types shared by the whole model. */
module Wrappers {

  /** A value that may be absent (Rust `Option`). */
  datatype Option<+T> = None | Some(value: T)

  /** A value or an error (Rust `Result`). */
  datatype Result<+T, +E> = Ok(value: T) | Err(error: E)
}

/** Failure-carrying result types shared by the whole model. */
module Wrappers {

  datatype Option<+T> = None | Some(value: T)

  /** A value or the error that stopped its computation (Rust's `Result<T, E>`). */
  datatype Result<+T, +E> = Ok(value: T) | Err(error: E)

  /** Success or failure without a value (Rust's `Result<(), E>`). */
  datatype Outcome<+E> = Pass | Fail(error: E)
}

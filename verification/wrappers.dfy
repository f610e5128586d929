/** Failure-carrying result types shared by every module of the model. */
module Wrappers {

  /** A value that may be absent (Rust `Option`, or a JavaScript `undefined`). */
  datatype Option<+T> = None | Some(value: T)

  /** A computation that either succeeds with a value or fails with an error
      (Rust `Result`, and also a Rust panic where the model names its cause). */
  datatype Result<+T, +E> = Ok(value: T) | Err(error: E)
}

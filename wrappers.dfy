/** Option, Result and Outcome, the shapes Rust's `Option<T>`, `Result<T, E>`
    and `Result<(), E>` take in this model. */
module Wrappers {

  datatype Option<+T> = None | Some(value: T)

  datatype Result<+T, +E> = Success(value: T) | Failure(error: E)

  /** A `Result<(), E>`: success carries nothing. */
  datatype Outcome<+E> = Pass | Fail(error: E)
}

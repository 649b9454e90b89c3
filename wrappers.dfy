/** Option and Result, the two wrapper types the model shares across modules. */
module Wrappers {

  datatype Option<+T> = None | Some(value: T)

  /** A value or the error that prevented it, like Rust's `Result<T, E>`. */
  datatype Result<+T, +E> = Ok(value: T) | Err(error: E)
}

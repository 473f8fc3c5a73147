/** Option, Result and Outcome: Rust's `Option<T>`, `Result<T, E>` and `Result<(), E>`. */
module Basics {

  datatype Option<T> = None | Some(value: T)

  datatype Result<T, E> = Ok(value: T) | Err(error: E)

  /** A `Result<(), E>`: the command either finished or failed with `error`. */
  datatype Outcome<E> = Pass | Fail(error: E)
}

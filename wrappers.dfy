/** Option and I/O result types shared by the supervisor model. */
module Wrappers {

  /** Rust's `Option<T>`. */
  datatype Option<+T> = None | Some(value: T)

  /** Rust's `io::Result<T>`: the error carries nothing the supervisor looks at,
      since every error it meets is unwrapped into a panic. */
  datatype IoResult<+T> = Ok(value: T) | Err
}

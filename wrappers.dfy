/** Option and Result types shared by the modules: `None` stands for Go's nil
    error (or an absent optional value); `Result` for a value-or-error return. */
module Wrappers {
  datatype Option<+T> = None | Some(value: T)

  datatype Result<+T, +E> = Ok(value: T) | Err(error: E)
}

// Option and Result, used wherever the renderer returns `Option<T>` or
// `Result<T, E>` instead of panicking.
module Wrappers {
  datatype Option<T> = None | Some(value: T)

  datatype Result<T, E> = Ok(value: T) | Err(error: E)
}

/** Option and Result: the model's stand-ins for JavaScript's `undefined`/`null` and thrown errors. */
module Wrappers {
  datatype Option<T> = None | Some(value: T)

  datatype Result<T, E> = Ok(value: T) | Err(error: E)
}

/** Option and Result types shared by the modules of this model. */
module Wrappers {

  datatype Option<+T> = None | Some(value: T)

  /** Either a value or an error; stands for Go's `(value, error)` return pairs. */
  datatype Result<+T, +E> = Ok(value: T) | Err(error: E)
}

/** Option and Result values shared by every module of the model. */
module Wrappers {

  datatype Option<+T> = None | Some(value: T)

  /** A computation that either produced a value or failed with an error value. */
  datatype Result<+T, +E> = Ok(value: T) | Err(error: E)
}

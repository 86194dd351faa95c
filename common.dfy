/** Option and Result, the failure-carrying wrappers used throughout the model. */
module Common {

  datatype Option<+T> = None | Some(value: T)

  /** A computation that either produced a value or raised the given error. */
  datatype Result<+T, +E> = Ok(value: T) | Err(error: E)
}

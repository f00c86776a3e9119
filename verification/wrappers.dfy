/** Failure-compatible helper datatypes shared by every module of the model. */
module Wrappers {

  /** An optional value: a surface that may not exist yet, a position not recorded yet. */
  datatype Option<+T> = None | Some(value: T)

  /** The outcome of an operation that the source lets fail with an exception. */
  datatype Result<+T, +E> = Ok(value: T) | Err(error: E)
}

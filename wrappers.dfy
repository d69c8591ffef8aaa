/** Failure-carrying result types shared by the modules of this model. */
module Wrappers {

  datatype Option<+T> = None | Some(value: T)

  /** The outcome of an operation that may throw or return an error code. */
  datatype Result<+T, +E> = Ok(value: T) | Err(error: E)
}

/** Optional values and error-carrying results, shared by every module of the model. */
module Wrappers {

  /** A value that may be absent: Python's None, JavaScript's null. */
  datatype Option<+T> = None | Some(value: T)

  /** The outcome of an operation that either produces a value or reports an error. */
  datatype Result<+T, +E> = Ok(value: T) | Err(error: E)
}

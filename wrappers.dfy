/** Option and Result, the two failure-carrying wrappers used by the model. */
module Wrappers {

  datatype Option<+T> = None | Some(value: T)

  /** The outcome of a call that may throw: a value, or the message of the exception. */
  datatype Result<+R, +E> = Success(value: R) | Failure(error: E)
}

/** Option and Result, the two failure-carrying datatypes the model uses. */
module Wrappers {

  /** A value that may be absent, as PHP's `null`. */
  datatype Option<+T> = None | Some(value: T)

  /** The outcome of a call that may throw: a value, or the thrown error. */
  datatype Result<+T, +E> = Success(value: T) | Failure(error: E)
}

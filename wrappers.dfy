/** Option and Result, the two failure-carrying shapes used throughout the model. */
module Wrappers {

  /** A value that may be missing: JavaScript's `undefined` / `null`. */
  datatype Option<+T> = None | Some(value: T)

  /** The outcome of a handler or a validator: a value or an error. */
  datatype Result<+R, +E> = Success(value: R) | Failure(error: E)
}

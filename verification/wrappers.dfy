/** Failure-carrying result types shared by the model. */
module Wrappers {

  /** A value that may be absent, as Rust's `Option`. */
  datatype Option<+T> = None | Some(value: T)

  /** The outcome of a dispatchable call: the new value, or the error it reports. */
  datatype Result<+T, +E> = Success(value: T) | Failure(error: E)
}

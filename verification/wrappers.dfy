/** Failure-carrying result types shared by the other modules. */
module Wrappers {

  /** A value that may be absent; the model's stand-in for Python's `None`. */
  datatype Option<+T> = None | Some(value: T)

  /** Either a computed value or the error that aborted the computation. */
  datatype Result<+R, +E> = Success(value: R) | Failure(error: E)
}

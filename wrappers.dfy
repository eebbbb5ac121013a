/** Failure-carrying results shared by every module: an operation of the
    source that raises an exception returns `Failure(message)` here. */
module Wrappers {

  datatype Option<+T> = None | Some(value: T)

  datatype Result<+T, +E> = Success(value: T) | Failure(error: E)

  /** A validator that either passes or fails with a message. */
  datatype Outcome<+E> = Pass | Fail(error: E)
}

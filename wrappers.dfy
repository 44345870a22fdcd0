/** `Option`, `Result` and `Outcome`: a value that may be missing, a value or
    the failure that replaced it, and a pass or the failure that stopped it. */
module Wrappers {

  datatype Option<+T> = None | Some(value: T)

  datatype Result<+T, +E> = Success(value: T) | Failure(error: E)

  /** An operation that either passes or fails with an error, carrying no value. */
  datatype Outcome<+E> = Pass | Fail(error: E)
}

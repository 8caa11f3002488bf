/** Failure-carrying values used in place of PHP's NULL returns and thrown exceptions. */
module Wrappers {

  datatype Option<+T> = None | Some(value: T)

  /** A call that either yields a value or throws the exception described by `error`. */
  datatype Result<+T, +E> = Success(value: T) | Failure(error: E)

  /** A call that yields nothing useful, but may throw. */
  datatype Outcome<+E> = Pass | Fail(error: E)
}

/** Failure-compatible result types: `Option` stands for a Java reference that
    may be null, `Result` and `Outcome` for a call that may throw. */
module Wrappers {

  datatype Option<+T> = None | Some(value: T)

  datatype Result<+R, +E> = Success(value: R) | Failure(error: E)

  /** The outcome of a `void` call that may throw. */
  datatype Outcome<+E> = Pass | Fail(error: E)
}

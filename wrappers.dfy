/** Failure-carrying values used in place of Python's exceptions and None. */
module Wrappers {

  /** A value that may be missing (Python's `x | None`). */
  datatype Option<+T> = None | Some(value: T)

  /** A computed value, or the error that was raised instead. */
  datatype Result<+T, +E> = Success(value: T) | Failure(error: E)

  /** The outcome of an operation that returns nothing: it passed, or it raised `error`. */
  datatype Outcome<+E> = Pass | Fail(error: E)
}

/** Failure-carrying values used throughout the model in place of Python's
    exceptions and `None`. */
module Wrappers {

  /** `None` or a value, as Python code returns `None` for "nothing found". */
  datatype Option<+T> = None | Some(value: T)

  /** The value of a computation, or the exception it raised. */
  datatype Result<+T, +E> = Success(value: T) | Failure(error: E)

  /** Completion of a computation without a value, or the exception it raised. */
  datatype Outcome<+E> = Pass | Fail(error: E)
}

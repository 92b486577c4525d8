/** Option and Result: the success-or-failure values used where the source raises or returns None. */
module Wrappers {

  /** `None` stands for Python's `None`, or for a step that raised. */
  datatype Option<+T> = None | Some(value: T)

  /** A computation that either produced a value or stopped with an error. */
  datatype Result<+R, +E> = Success(value: R) | Failure(error: E)
}

/** Failure-compatible wrappers used for the source's null references and exceptions. */
module Wrappers {

  /** A value that may be absent (a .NET reference that may be null). */
  datatype Option<+T> = None | Some(value: T)

  /** A computation that produced a value or raised an error. */
  datatype Result<+R, +E> = Success(value: R) | Failure(error: E)

  /** A computation that produced no value and either completed or raised an error. */
  datatype Outcome<+E> = Pass | Fail(error: E)
}

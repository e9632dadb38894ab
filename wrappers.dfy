/** The optional values used for the source's `None` results and raised errors. */
module Wrappers {
  datatype Option<+T> = None | Some(value: T)

  /** A computation that returns a value or raises the named exception. */
  datatype Result<+T> = Success(value: T) | Failure(error: string)
}

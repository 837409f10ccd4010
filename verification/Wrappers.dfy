module Wrappers {
  datatype Option<+T> = None | Some(value: T)

  /** A value, or the exception that was thrown. */
  datatype Result<+T, +E> = Success(value: T) | Failure(error: E)
}

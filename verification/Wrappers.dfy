/** The two result shapes the modules below share. */
module Wrappers {

  /** A value the source writes as `Optional[...]`. */
  datatype Option<+T> = None | Some(value: T)

  /** A value, or the exception the source raises instead. */
  datatype Result<+T, +E> = Success(value: T) | Failure(error: E)
}

/** Optional values and results with an error, used for the nullable columns,
    the caller-supplied parse results and the validation outcome. */
module Wrappers {

  /** A value that may be absent (SQL NULL, Python None). */
  datatype Option<+T> = None | Some(value: T)

  /** A computation that either succeeds with a value or fails with an error. */
  datatype Result<+T, +E> = Success(value: T) | Failure(error: E)
}

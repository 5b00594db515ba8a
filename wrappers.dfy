/** Option and Result, used for Python's `None` and for the exception raised on an index with no lines. */
module Wrappers {
  datatype Option<+T> = None | Some(value: T)

  datatype Result<+R, +E> = Success(value: R) | Failure(error: E)
}

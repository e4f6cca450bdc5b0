/** Optional values and results with an error, shared by every module of the model. */
module Wrappers {

  /** Python's `None` or a value. */
  datatype Option<+T> = None | Some(value: T)

  /** A value, or the exception a Python operation would raise instead. */
  datatype Result<+T, +E> = Success(value: T) | Failure(error: E)
}

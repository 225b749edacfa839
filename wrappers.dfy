/** Optional values and results, shared by every module of the model. */
module Wrappers {

  /** A value that may be absent: Python's `Optional[...]` / `None`. */
  datatype Option<+T> = None | Some(value: T)

  /** The outcome of an operation that can fail with an error value. */
  datatype Result<+T, +E> = Success(value: T) | Failure(error: E)
}

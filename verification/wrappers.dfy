/** Optional values and results with an error, as the rest of the model uses them. */
module Wrappers {

  /** Python's `Optional[T]`: a value or `None`. */
  datatype Option<+T> = None | Some(value: T)

  /** The outcome of an operation that either returns a value or raises an exception. */
  datatype Result<+T, +E> = Success(value: T) | Failure(error: E)
}

/** Optional values and results with an error, used by the category model. */
module Wrappers {

  /** A value that may be absent: the model's stand-in for a null reference
      or a failed `TryGetValue`. */
  datatype Option<+T> = None | Some(value: T)

  /** The outcome of an operation that can raise an exception. */
  datatype Result<+T, +E> = Success(value: T) | Failure(error: E)
}

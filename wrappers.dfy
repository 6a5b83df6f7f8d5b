/** Optional values and results that carry an error instead of raising it. */
module Wrappers {

  /** A value that may be absent: the model's stand-in for a C# `null`. */
  datatype Option<+T> = None | Some(value: T)

  /** The outcome of an operation that the source would abort with an exception. */
  datatype Result<+T, +E> = Success(value: T) | Failure(error: E)
}

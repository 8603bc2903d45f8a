/** Optional values: JavaScript's `undefined`/`null` and Python's `None`. */
module Wrappers {
  datatype Option<T> = None | Some(value: T)

  /** A value or the text of the exception raised instead. */
  datatype Result<T, E> = Success(value: T) | Failure(error: E)
}

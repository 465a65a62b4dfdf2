/** Optional values and fallible results, shared by the other modules. */
module Wrappers {

  /** A value that may be absent: a lookup that found nothing, a date that did not parse. */
  datatype Option<+T> = None | Some(value: T)

  /** The outcome of an operation that may throw: a value, or the message of the error thrown. */
  datatype Result<+T, +E> = Success(value: T) | Failure(error: E)
}

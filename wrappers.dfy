/** Optional values and success-or-error results, used for absent fields and error paths. */
module Wrappers {

  /** A value that may be absent: a null field, a failed coercion, a missing key. */
  datatype Option<+T> = None | Some(value: T)

  /** The outcome of a stage that can refuse its input. */
  datatype Result<+T, +E> = Success(value: T) | Failure(error: E)
}

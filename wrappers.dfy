/** Optional values and success-or-error results, standing in for
    java.util.Optional and for exceptions thrown by the service. */
module Wrappers {

  /** java.util.Optional: either empty or holding a value. */
  datatype Option<+T> = None | Some(value: T)

  /** The outcome of an operation that may throw: a value, or the exception it raised. */
  datatype Result<+R, +E> = Success(value: R) | Failure(error: E)
}

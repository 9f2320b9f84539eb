/** Failure-carrying result type used for the constructors' argument checks. */
module Wrappers {

  /** Either the constructed value or the reason the arguments were refused. */
  datatype Result<+T, +E> = Success(value: T) | Failure(error: E)
}

/** Failure-carrying result of a store read: the value read, or the message of the
    exception the read raised. */
module Wrappers {

  datatype Result<+T, +E> = Success(value: T) | Failure(error: E)
}

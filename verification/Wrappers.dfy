/** Option and Result: the absent value of a nullable field or an empty
    lookup, and the outcome of an operation that may fail with a typed error
    instead of throwing. */
module Wrappers {

  datatype Option<+T> = None | Some(value: T)

  datatype Result<+R, +E> = Success(value: R) | Failure(error: E)
}

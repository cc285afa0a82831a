/** Option and Result, the failure-carrying values the rest of the model returns
    instead of raising Python exceptions. */
module Wrappers {

  datatype Option<+T> = None | Some(value: T)

  datatype Result<+R, +E> = Success(value: R) | Failure(error: E)
}

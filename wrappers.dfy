/** Option and Result, the failure-carrying values the model returns where
    the Go code returns `nil` or an `error`. */
module Wrappers {

  datatype Option<+T> = None | Some(value: T)

  datatype Result<+R, +E> = Success(value: R) | Failure(error: E)
}

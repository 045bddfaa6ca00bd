/** Option and Result, used for the places where the handler gets "nothing"
    back from a service or stops on an exception. */
module Wrappers {
  datatype Option<+T> = None | Some(value: T)

  datatype Result<+R, +E> = Success(value: R) | Failure(error: E)
}

/** Option and Result, the two failure-carrying shapes the services use:
    an absent dictionary key and a raised Python exception. */
module Wrappers {

  datatype Option<+T> = None | Some(value: T)

  datatype Result<+R, +E> = Success(value: R) | Failure(error: E)
}

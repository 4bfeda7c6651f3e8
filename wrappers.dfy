/** Option and Result, as used by the export stream model for "no block" and for the
    wrapper's fatal conditions. */
module Wrappers {

  datatype Option<+T> = None | Some(value: T)

  datatype Result<+R, +E> = Success(value: R) | Failure(error: E)
}

/** Option and Result, the two failure-carrying datatypes the model uses:
    Option stands for Python's `None`-or-value, Result for a call that may raise. */
module Wrappers {

  datatype Option<+T> = None | Some(value: T)

  datatype Result<+R, +E> = Success(value: R) | Failure(error: E)
}

/** Option and Result, the two failure-carrying datatypes the model uses. */
module Wrappers {

  /** A value that may be absent: Python's `None` versus a present value. */
  datatype Option<+T> = None | Some(value: T)

  /** Either a successful value or the exception a Python call raises. */
  datatype Result<+R, +E> = Success(value: R) | Failure(error: E)
}

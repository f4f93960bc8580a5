/** Failure-carrying values shared by the other modules. */
module Wrappers {

  /** A value that may be absent: Python's `None` versus a present value. */
  datatype Option<+T> = None | Some(value: T)

  /** A value or the error that stopped the computation producing it. */
  datatype Result<+R, +E> = Success(value: R) | Failure(error: E)
}

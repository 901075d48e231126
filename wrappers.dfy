/** Failure-compatible result types shared by the model's modules. */
module Wrappers {

  /** A value that may be missing; used for a floating-point NaN. */
  datatype Option<+T> = None | Some(value: T)

  /** The outcome of an operation that raises an exception in the source. */
  datatype Result<+R, +E> = Success(value: R) | Failure(error: E)
}

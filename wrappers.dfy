/** Option and Result datatypes used throughout the model. */
module Wrappers {

  /** An optional value; in the route model `None` also stands for JavaScript's `undefined`. */
  datatype Option<+T> = None | Some(value: T)

  /** The outcome of an operation that may throw. */
  datatype Result<+R, +E> = Success(value: R) | Failure(error: E)
}

/** Nullable values and error returns shared by the dataset and plot models. */
module Wrappers {

  /** A value that may be missing: a null cell of a data frame. */
  datatype Option<+T> = None | Some(value: T)

  /** The outcome of an operation that may raise. */
  datatype Result<+R, +E> = Success(value: R) | Failure(error: E)
}

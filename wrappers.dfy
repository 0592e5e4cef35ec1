/** Option and Result values used by every module of the model. */
module Wrappers {

  datatype Option<+T> = None | Some(value: T)

  /** A computation that either produces a value or fails with an error, the
      way the scripts either return or raise. */
  datatype Result<+T, +E> = Success(value: T) | Failure(error: E)
}

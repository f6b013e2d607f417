/** Failure-carrying values shared by every module of the model. */
module Wrappers {

  /** An optional value: Go's `(value, ok)` pairs and nil results. */
  datatype Option<+T> = None | Some(value: T)

  /** A value or an error: Go's `(value, error)` pairs. */
  datatype Result<+R, +E> = Success(value: R) | Failure(error: E)
}

/** Failure-carrying values shared by every module of the model. */
module Results {

  /** A value that may be absent (a Go nil pointer, a missing match). */
  datatype Option<+T> = None | Some(value: T)

  /** The `(value, err)` pair of a Go function: exactly one of the two is meaningful. */
  datatype Result<+T, +E> = Success(value: T) | Failure(error: E)
}

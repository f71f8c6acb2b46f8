/** `Option` and `Result`, shared by the log processor and the notifier. */
module Results {

  /** A value that may be absent: a missing JSON key, a missing table item, an error not thrown. */
  datatype Option<+T> = None | Some(value: T)

  /** The outcome of a call that either produces a value or raises an error. */
  datatype Result<+T, +E> = Success(value: T) | Failure(error: E)
}

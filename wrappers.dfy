/** The outcome of an operation that either returns a value or throws. */
module Wrappers {

  /** An optional argument: None stands for an omitted (undefined) one. */
  datatype Option<+T> = None | Some(value: T)

  /** Success carries the returned value; Failure carries what was thrown. */
  datatype Result<+T, +E> = Success(value: T) | Failure(error: E)
}

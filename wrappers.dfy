/** Absence and failure as values, standing in for java.util.Optional and for a thrown exception. */
module Wrappers {

  /** java.util.Optional: either empty or holding one value. */
  datatype Option<+T> = None | Some(value: T)

  /** The outcome of an operation that may throw. */
  datatype Result<+T, +E> = Success(value: T) | Failure(error: E)
}

/** The optional and error-carrying values the other modules return. */
module Wrappers {

  /** A value that may be missing: the model of TypeScript's `T | null`. */
  datatype Option<+T> = None | Some(value: T)

  /** Either a value or the error an operation raises instead of returning. */
  datatype Result<+R, +E> = Success(value: R) | Failure(error: E)
}

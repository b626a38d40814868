/** The shapes that Go's `(value, error)` pairs take in this model. */
module Wrappers {

  datatype Option<+T> = None | Some(value: T)

  datatype Result<+T, +E> = Success(value: T) | Failure(error: E)

  /** An operation that returns only an `error`: `Pass` is `nil`. */
  datatype Outcome<+E> = Pass | Fail(error: E)
}

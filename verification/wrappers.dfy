/** Failure-carrying values used where the matcher returns an error or a
    collaborator call can fail. */
module Wrappers {

  /** A value that may be missing (a failed lookup or balance query). */
  datatype Option<T> = None | Some(value: T)

  /** A value or an error, as in Go's `(value, error)` pair. */
  datatype Result<T, E> = Success(value: T) | Failure(error: E)
}

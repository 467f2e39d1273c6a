/** Optional values, value-or-error results and pass/fail outcomes, standing for Go's
    `(T, error)` and bare `error` returns. */
module Wrappers {

  datatype Option<+T> = None | Some(value: T)

  datatype Result<+T, +E> = Success(value: T) | Failure(error: E)

  /** A Go function that returns only an `error`: nil is `Pass`. */
  datatype Outcome<+E> = Pass | Fail(error: E)
}

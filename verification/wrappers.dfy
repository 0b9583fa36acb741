/** Failure-compatible wrappers shared by the launcher model: an optional value
    (a Go `*string` that may be nil) and a success-or-failure result (Go's panics and
    error returns). */
module Wrappers {

  /** A value that may be absent, as a Go `*string` that may be nil. */
  datatype Option<+T> = None | Some(value: T)

  /** Either a value or a failure description. */
  datatype Result<+T, +E> = Success(value: T) | Failure(error: E)
}

/** Failure-carrying result types shared by every component of the model. */
module Outcomes {

  /** A value that may be absent: Go's nil pointer, or a nil `error`. */
  datatype Option<+T> = None | Some(value: T)

  /** A successful value or an error, Go's `(T, error)` return pair. */
  datatype Result<+T, +E> = Ok(value: T) | Err(error: E)
}

/** The errors a Go `context.Context` reports from `Err()` once it is done. */
module Context {

  datatype Error = Canceled | DeadlineExceeded
}

/** Option and Result types shared by the modules of this model. */
module Wrappers {

  /** A value that may be absent: Go's `nil` pointer, a missing map entry or a failed step. */
  datatype Option<+T> = None | Some(value: T)

  /** The outcome of a Go function returning `(T, error)`; the error is kept as its message text. */
  datatype Result<+T> = Ok(value: T) | Err(error: string)
}

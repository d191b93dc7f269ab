/** Failure-carrying values used in place of Go's `(T, error)` pairs. */
module Outcomes {

  datatype Option<+T> = None | Some(value: T)

  /** A Go result: either a value or an error carrying its message. */
  datatype Result<+T> = Ok(value: T) | Err(msg: string)
}

/** Option and Result values used for the Go `(value, error)` returns and
    for "maybe missing" lookups. */
module Outcomes {

  datatype Option<+T> = None | Some(value: T)

  /** A Go `(T, error)` pair: exactly one of the two is meaningful. */
  datatype Result<+T, +E> = Ok(value: T) | Err(error: E)
}

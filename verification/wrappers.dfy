/** Option and Result values used throughout the model in place of Go's
    `(value, ok)` and `(value, err)` return pairs. */
module Wrappers {

  /** A value that may be absent: Go's `(v, true)` / `(nil, false)`. */
  datatype Option<+T> = None | Some(value: T)

  /** A value or an error: Go's `(v, nil)` / `(zero, err)`. */
  datatype Result<+T, +E> = Ok(value: T) | Err(error: E)
}

/** Option and Result, used wherever the Go code returns a nil pointer, an `ok` flag or an `error`. */
module Wrappers {

  datatype Option<+T> = None | Some(value: T)

  datatype Result<+T, +E> = Ok(value: T) | Err(error: E)
}

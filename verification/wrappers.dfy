/** Failure-carrying values used across the model: `Option` for a result that may
    be absent (Python's `None`), `Result` for an operation that raises. */
module Wrappers {

  datatype Option<+T> = None | Some(value: T)

  datatype Result<+T, +E> = Ok(value: T) | Err(error: E)
}

/** Failure-compatible wrappers: a missing JSON key is a `None`, a raised
    exception an `Err`. */
module Wrappers {

  datatype Option<+T> = None | Some(value: T)

  datatype Result<+T, +E> = Ok(value: T) | Err(error: E)
}

/** Failure-carrying results, standing for the exceptions and error returns of the sources. */
module Wrappers {
  datatype Option<+T> = None | Some(value: T)

  datatype Result<+T, +E> = Ok(value: T) | Err(error: E)
}

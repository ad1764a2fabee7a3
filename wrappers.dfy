/** Option and Result, for absent values and for failures that the source raises. */
module Wrappers {

  datatype Option<+T> = None | Some(value: T)

  /** `Err` carries the error text a failed call reports. */
  datatype Result<+T, +E> = Ok(value: T) | Err(error: E)
}

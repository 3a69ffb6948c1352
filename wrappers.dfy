/** Option and Result, the two failure-carrying datatypes the rest of the model uses. */
module Wrappers {

  /** A value that may be absent (a dictionary lookup without a hit, a config key not set). */
  datatype Option<+T> = None | Some(value: T)

  /** Either a value or the error a raising Python call would have reported. */
  datatype Result<+R, +E> = Success(value: R) | Failure(error: E)
}

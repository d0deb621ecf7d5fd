/** Option and Result, the two failure-carrying datatypes the decoder uses. */
module Wrappers {

  /** A value that may be absent (JavaScript's `undefined`, or the NaN of an out-of-range read). */
  datatype Option<+T> = None | Some(value: T)

  /** Either a value or one of the decoder's thrown errors. */
  datatype Result<+R, +E> = Success(value: R) | Failure(error: E)
}

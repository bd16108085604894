/** Option and Result, the failure-carrying datatypes used throughout the model. */
module Wrappers {

  datatype Option<+T> = None | Some(value: T)

  datatype Result<+R, +E> = Success(value: R) | Failure(error: E)
}

/** Octets, as read from a file or produced by an encoder. */
module Bytes {

  type Byte = b: int | 0 <= b < 256
}

/** Failure-carrying datatypes shared by every module of the model. */
module Wrappers {

  /** A value that may be absent: Python's `None` against a present value. */
  datatype Option<+T> = None | Some(value: T)

  /** The outcome of an operation that can raise: a returned value or the raised error. */
  datatype Result<+T, +E> = Ok(value: T) | Err(error: E)
}

/** Raw contents of a stored object. */
module Blobs {
  type Bytes = seq<bv8>
}

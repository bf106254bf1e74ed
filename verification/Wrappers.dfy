/** Option and Result, used where the Python code returns None or raises, and bytes. */
module Wrappers {

  datatype Option<+T> = None | Some(value: T)

  datatype Result<+T, +E> = Success(value: T) | Failure(error: E)

  type Byte = x: int | 0 <= x < 256

  type Bytes = seq<Byte>
}

/** Small shared helpers: the optional value and the success/failure result. */
module Wrappers {

  /** A value that may be absent: a JSON `null`/`undefined`, or a fetch that returned nothing. */
  datatype Option<+T> = None | Some(value: T)

  /** The outcome of an operation that can fail with an error message. */
  datatype Result<+T, +E> = Success(value: T) | Failure(error: E)

  function Max(a: int, b: int): int {
    if a >= b then a else b
  }
}

/** The shapes every module shares: a byte, an optional value, the pass/fail
    status a Go function reports through its `error` result, and a result
    that carries either a value or an error. */
module Wrappers {

  /** One byte on the wire. */
  type Byte = bv8

  datatype Option<+T> = None | Some(value: T)

  /** `Pass` is a nil `error`; `Fail(e)` is a non-nil one of kind `e`. */
  datatype Outcome<+E> = Pass | Fail(error: E)

  datatype Result<+R, +E> = Success(value: R) | Failure(error: E)
}

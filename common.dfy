/** Small failure-carrying datatypes shared by the other modules. */
module Common {

  /** A value that may be absent: Python's `None` versus a present value. */
  datatype Option<+T> = None | Some(value: T)

  /** The result of an operation that either succeeds with a value or raises an error. */
  datatype Result<+R, +E> = Success(value: R) | Failure(error: E)

  /** The result of an operation that returns nothing on success but may raise an error. */
  datatype Outcome<+E> = Pass | Fail(error: E)
}

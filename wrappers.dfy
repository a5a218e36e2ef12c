/** Small failure-carrying datatypes shared by the other modules. */
module Wrappers {

  /** A value that may be absent (Python's `None`). */
  datatype Option<+T> = None | Some(value: T)

  /** Either a value or an early error result. */
  datatype Result<+R, +E> = Success(value: R) | Failure(error: E)

  /** What a Python call does: it returns a value, or it raises an exception
      whose `str()` is `message`. */
  datatype Outcome<+T> = Returns(value: T) | Raises(message: string)

  /** A Python statement that returns nothing useful: it completes or raises. */
  datatype Step = Completes | Fails(message: string)
}

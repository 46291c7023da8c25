/** Option and Result, used where the source returns None or raises. */
module Wrappers {

  /** `None` stands for Python's None and for a pandas NaN produced by an
      aggregate over an empty selection. */
  datatype Option<+T> = None | Some(value: T)

  /** `Failure` stands for an exception the source lets escape. */
  datatype Result<+T, +E> = Success(value: T) | Failure(error: E)
}

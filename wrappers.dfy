/** The failure-carrying datatypes the model uses in place of Python's `None` and exceptions. */
module Wrappers {

  /** `None` stands for Python's `None` (and, for response texts, for a pandas NaN). */
  datatype Option<+T> = None | Some(value: T)

  /** The outcome of an operation that may raise: `Err` carries what the exception reports. */
  datatype Result<+T, +E> = Ok(value: T) | Err(error: E)
}

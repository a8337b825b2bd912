/** Failure-compatible wrappers shared by the whole model. */
module Wrappers {

  /** Python's `Optional[T]`: `None` or a present value. */
  datatype Option<+T> = None | Some(value: T)

  /** The outcome of an operation that may raise: a value or the error it raises. */
  datatype Result<+T, +E> = Ok(value: T) | Err(error: E)

  /** One key of a JSON-shaped dictionary: the key is absent, or present with a value.
      `GetOr` is Python's `dict.get(key, default)`. */
  datatype Field<+T> = Absent | Present(value: T) {
    function GetOr(default: T): T {
      if Present? then value else default
    }
  }
}

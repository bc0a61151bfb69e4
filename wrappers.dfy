/** Optional values and results with an error, as the Python code uses `None` and exceptions. */
module Wrappers {

  /** A value that may be absent (Python's `None`). */
  datatype Option<+T> = None | Some(value: T)

  /** Either a value or the error the Python code would raise instead of returning. */
  datatype Result<+T, +E> = Ok(value: T) | Err(error: E)
}

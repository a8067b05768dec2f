/** Optional values and results with an error, used where the scripts return
    `None` or raise. */
module Outcomes {

  /** A value that may be absent (Python's `None`). */
  datatype Option<+T> = None | Some(value: T)

  /** A value, or the error that aborts the computation. */
  datatype Result<+T, +E> = Ok(value: T) | Err(error: E)
}

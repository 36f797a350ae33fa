/** Option and Result, used for every error path of the loader. */
module Wrappers {

  datatype Option<+T> = None | Some(value: T)

  /** Either a value or the error the Python code would raise. */
  datatype Result<+T, +E> = Ok(value: T) | Err(error: E)
}

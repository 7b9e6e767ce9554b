/** The two wrappers every module uses: Python's `None`-or-value and return-or-raise. */
module Wrappers {

  datatype Option<+T> = None | Some(value: T)

  datatype Result<+T, +E> = Ok(value: T) | Err(error: E)
}

/** Option and Result, the two outcome shapes the model uses in place of
    Python's `None` return and raised exceptions. */
module Wrappers {

  datatype Option<+T> = None | Some(value: T)

  datatype Result<+R, +E> = Ok(value: R) | Err(error: E)
}

/** Option and Result, used for lookups that may miss and for calls that throw in the original. */
module Wrappers {

  datatype Option<+T> = None | Some(value: T)

  datatype Result<+R, +E> = Ok(value: R) | Err(error: E)
}

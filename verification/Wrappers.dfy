/** Optional values and results, used wherever the SDK returns `Option` or `Result`. */
module Wrappers {

  datatype Option<+T> = None | Some(value: T)

  datatype Result<+T, +E> = Ok(value: T) | Err(error: E)

  type byte = b: nat | b < 256
}

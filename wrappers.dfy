/** Optional values and results used by the decoders. */
module Wrappers {

  /** A value that may be missing. */
  datatype Option<+T> = None | Some(value: T)

  /** Either a value or an error, never both. */
  datatype Result<+T, +E> = Ok(value: T) | Err(error: E)
}

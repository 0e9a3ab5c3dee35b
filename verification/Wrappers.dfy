/** Optional values and results that may be errors. */
module Wrappers {

  datatype Option<+T> = None | Some(value: T)

  /** A value, or the error the original returns or throws. */
  datatype Result<+T> = Ok(value: T) | Err(error: string)
}

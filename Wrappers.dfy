/** Optional values and results with an error, as the template engine's
    `undefined` and thrown errors are modelled. */
module Wrappers {

  datatype Option<+T> = None | Some(value: T)

  datatype Result<+T, +E> = Ok(value: T) | Err(error: E)
}

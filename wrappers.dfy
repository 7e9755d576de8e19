/** Optional values, results and the Python exception kinds the modelled code raises. */
module Wrappers {

  datatype Option<+T> = None | Some(value: T)

  /** Python's built-in exceptions that the modelled functions raise or catch. */
  datatype PyError = KeyError | IndexError | TypeError | ValueError

  /** The outcome of a Python call: a returned value or a raised exception. */
  datatype Result<+T, +E> = Ok(value: T) | Err(error: E)
}

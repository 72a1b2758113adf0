/** Option and Result values standing in for Python's `None` and raised exceptions. */
module Wrappers {

  datatype Option<+T> = None | Some(value: T)

  /** The Python exceptions the modelled code can raise. */
  datatype Error =
    | ValueError(message: string)
    | IndexError
    | FileNotFoundError(path: string)

  datatype Result<+T> = Ok(value: T) | Err(error: Error)
}

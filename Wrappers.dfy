/** Option and Result: the model's stand-ins for Python's None and for raised exceptions. */
module Wrappers {

  datatype Option<+T> = None | Some(value: T)

  /** A Python call either returns a value or raises; the error carries the exception's kind. */
  datatype Result<+R> = Ok(value: R) | Err(error: Error)

  /** A check that returns nothing when it passes and raises otherwise. */
  datatype Outcome = Pass | Fail(error: Error)

  /** The exceptions the modelled functions raise. */
  datatype Error =
    | ValueError(msg: string)
    | KeyError(key: string)
    | TypeError(msg: string)
}

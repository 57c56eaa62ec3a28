/** Option and Result, the two shapes in which the modelled Python code
    reports "no value" (None) and "raised an exception". */
module Wrappers {

  datatype Option<+T> = None | Some(value: T)

  /** `Err` carries the message of the exception the Python code raises. */
  datatype Result<+T> = Ok(value: T) | Err(message: string)
}

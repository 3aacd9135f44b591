/** Option and Result values, standing for .NET's nullable references and thrown exceptions. */
module Wrappers {

  /** `None` plays the part of a null reference. */
  datatype Option<+T> = None | Some(value: T)

  /** `Err` plays the part of an exception that the caller catches. */
  datatype Result<+T, +E> = Ok(value: T) | Err(error: E)
}

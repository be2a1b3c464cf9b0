/** Error and optional-value types shared by the driver's modules. */
module Errors {

  /** The causes for which the driver raises `ValueError`. */
  datatype Error =
    | BadHexLength   // a colour string whose part after the leading '#'s is not 6 characters long
    | BadHexDigit    // a two-character colour channel that `int(_, 16)` rejects
    | BadRotation    // a rotation that is not 0, 90, 180 or 270 modulo 360

  datatype Result<+T> = Ok(value: T) | Err(error: Error)

  datatype Option<+T> = None | Some(value: T)
}

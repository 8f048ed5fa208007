/** Small value wrappers shared by every module of the model. */
module Wrappers {

  /** A value that may be absent (JavaScript `undefined` / `null`). */
  datatype Option<+T> = None | Some(value: T)

  /** The outcome of a JavaScript numeric conversion: `NaN`, or a number. */
  datatype Parsed<+T> = NaN | Num(value: T)

  /** An operation that either yields a value or throws. */
  datatype Result<+T, +E> = Ok(value: T) | Err(error: E)
}

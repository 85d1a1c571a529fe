/** Failure-carrying values shared by the models. */
module Wrappers {

  datatype Option<+T> = None | Some(value: T)

  datatype Result<+T, +E> = Ok(value: T) | Err(error: E)

  /** The failures the modelled operations report. */
  datatype StoreError =
    | BlockOutOfBounds
    | BlockCrcMismatch
    | InvalidUtf8
    | KeyTooLong
    | ValueTooLong

  /** The largest 32-bit word. */
  const U32_MAX: nat := 0xffff_ffff
}

/**
 * Error kinds and the result/option wrappers shared by every component.
 * Mirrors `util::err::Errors`: every fallible operation of the star tracker
 * returns either a value or one of these error kinds.
 */
module Errors {

  datatype Error = OutOfBounds | InvalidSize | InvalidValue | OutOfBoundsX | OutOfBoundsY | NoMatch | NaN

  datatype Result<T> = Ok(value: T) | Err(error: Error)
  {
    predicate IsOk() { Ok? }
  }

  datatype Option<T> = None | Some(value: T)

  /** The largest value of a 64-bit `usize`. */
  const USIZE_MAX: nat := 0xFFFF_FFFF_FFFF_FFFF

  /** Values an 8-bit pixel (`Byte`) can hold. */
  type Byte = x: int | 0 <= x < 256
}

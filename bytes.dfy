/** Values shared by every component of the model. */
module Bytes {
  /** One byte of the scanned blob, read as an unsigned value. */
  newtype byte = x: int | 0 <= x < 256

  /** A value that may be absent (Kotlin's nullable types). */
  datatype Option<+T> = None | Some(value: T)
  {
    /** Kotlin's `?: d`. */
    function GetOr(d: T): T
    {
      match this
      case Some(v) => v
      case None => d
    }
  }
}

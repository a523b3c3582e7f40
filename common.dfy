/** Small value types shared by the modules of the event manager model. */
module Common {

  datatype Option<+T> = None | Some(value: T)

  /** The outcome of an operation that throws in the source: `Failure` names the exception. */
  datatype Result<+T, +E> = Success(value: T) | Failure(error: E)

  /** Java's `int`. */
  newtype int32 = x: int | -0x8000_0000 <= x < 0x8000_0000

  const MinInt32: int := -0x8000_0000
  const MaxInt32: int := 0x7FFF_FFFF
}

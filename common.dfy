/** Shared vocabulary of the execution-state store: bytes, the failure-carrying
    result types and the error kinds the loader raises. */
module Common {

  newtype byte = b: int | 0 <= b < 256

  datatype Option<+T> = None | Some(value: T) {
    function GetOr(default: T): T {
      match this
      case Some(v) => v
      case None => default
    }
  }

  /** The ways an operation of the loader can fail. Every SQLException,
      IOException and runtime exception of the source maps to one of these. */
  datatype Error =
    | IdNotCreated            // LAST_INSERT_ID() gave -1
    | DecodeError             // a stored blob could not be inflated or parsed
    | IndexOutOfBounds        // an array slice outside its buffer
    | MaxRerunMissing         // the max(rerun_time) query returned no row
    | UnknownFlag(flag: string)

  datatype Result<+T> = Success(value: T) | Failure(error: Error)

  datatype Outcome = Pass | Fail(error: Error)

  const TwoTo32: int := 0x1_0000_0000
  const MinInt32: int := -0x8000_0000
  const MaxInt32: int := 0x7FFF_FFFF

  predicate IsInt32(x: int) {
    MinInt32 <= x <= MaxInt32
  }

  /** Java's narrowing cast `(int) x` of a long: keep the low 32 bits, read
      them as two's complement. */
  function Int32(x: int): (r: int)
    ensures IsInt32(r)
    ensures (r - x) % TwoTo32 == 0
    ensures IsInt32(x) ==> r == x
  {
    var low := x % TwoTo32;
    if low <= MaxInt32 then low else low - TwoTo32
  }
}

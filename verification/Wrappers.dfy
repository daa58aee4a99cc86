/** Option and Result, and the integer width shared by every component. */
module Wrappers {

  datatype Option<+T> = None | Some(value: T) {
    /** The value held, or `default`. */
    function GetOr(default: T): T {
      match this
      case Some(v) => v
      case None => default
    }
  }

  datatype Result<+T, +E> = Success(value: T) | Failure(error: E)

  const U64_MAX: int := 0xFFFF_FFFF_FFFF_FFFF

  type u64 = x: int | 0 <= x <= U64_MAX

  function Max(a: int, b: int): int {
    if a < b then b else a
  }

  function Min(a: int, b: int): int {
    if a < b then a else b
  }

  function MaxReal(a: real, b: real): real {
    if a < b then b else a
  }

  /** `u64::saturating_add`. */
  function SatAdd(a: u64, b: u64): u64 {
    Min(a + b, U64_MAX)
  }

  /** `u64::saturating_sub`. */
  function SatSub(a: u64, b: u64): u64 {
    Max(a - b, 0)
  }

  /** `u64::saturating_mul`. */
  function SatMul(a: u64, b: u64): (r: u64)
    ensures r <= a * b
  {
    assert 0 <= a * b;
    Min(a * b, U64_MAX)
  }
}

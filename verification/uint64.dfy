/**
 * Rust's `u64`, and the two ways its `+`, `-` and `*` behave: with overflow
 * checks on (a debug build panics, which aborts the call) the result is
 * either exact or absent; with overflow checks off (a release build) it
 * wraps modulo 2^64.
 */
module UInt64 {
  import opened Wrappers

  const MAX: int := 0xFFFF_FFFF_FFFF_FFFF
  const MODULUS: int := 0x1_0000_0000_0000_0000

  type uint64 = x: int | 0 <= x <= 0xFFFF_FFFF_FFFF_FFFF

  /** `a + b` when it fits, None where a checked build panics. */
  function CheckedAdd(a: uint64, b: uint64): (r: Option<uint64>)
    ensures r.Some? <==> a + b <= MAX
    ensures r.Some? ==> r.value - b == a
  {
    if a + b <= MAX then Some(a + b) else None
  }

  /** `a - b` when it does not go below zero, None where a checked build panics. */
  function CheckedSub(a: uint64, b: uint64): (r: Option<uint64>)
    ensures r.Some? <==> b <= a
    ensures r.Some? ==> r.value + b == a
  {
    if b <= a then Some(a - b) else None
  }

  /** `a * b` when it fits, None where a checked build panics. */
  function CheckedMul(a: uint64, b: uint64): (r: Option<uint64>)
    ensures r.Some? <==> a * b <= MAX
    ensures r.Some? ==> r.value == a * b
  {
    if a * b <= MAX then Some(a * b) else None
  }

  /** `a + b` with overflow checks off: agrees with the exact sum below 2^64, loses 2^64 above. */
  function WrappingAdd(a: uint64, b: uint64): (r: uint64)
    ensures a + b <= MAX ==> r == a + b
    ensures a + b > MAX ==> r == a + b - MODULUS
  {
    (a + b) % MODULUS
  }

  /** `a - b` with overflow checks off: agrees with the exact difference at or above zero, gains 2^64 below. */
  function WrappingSub(a: uint64, b: uint64): (r: uint64)
    ensures b <= a ==> r == a - b
    ensures b > a ==> r == a - b + MODULUS
  {
    (a - b) % MODULUS
  }

  /** `a * b` with overflow checks off: the product reduced modulo 2^64. */
  function WrappingMul(a: uint64, b: uint64): (r: uint64)
    ensures a * b <= MAX ==> r == a * b
    ensures (r - a * b) % MODULUS == 0
  {
    (a * b) % MODULUS
  }
}

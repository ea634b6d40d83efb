/**
 * Rust's fixed-width integers and the two `as` casts the queries perform:
 * `u64 as i32` (keep the low 32 bits, read them as two's complement) and
 * `i32 as u64` (sign extension).
 */
module Casts {

  const TWO_32: int := 0x1_0000_0000
  const TWO_64: int := 0x1_0000_0000_0000_0000

  type U64 = x: int | 0 <= x < 0x1_0000_0000_0000_0000
  type I32 = x: int | -0x8000_0000 <= x < 0x8000_0000

  /** `x as i32` for an `x: u64`: the unique `i32` congruent to `x` modulo 2^32. */
  function U64ToI32(x: U64): (r: I32)
    ensures (x - r) % TWO_32 == 0
    ensures x < 0x8000_0000 ==> r == x
  {
    var low := x % TWO_32;
    if low < 0x8000_0000 then low else low - TWO_32
  }

  /** `i as u64` for an `i: i32`: the unique `u64` congruent to `i` modulo 2^64. */
  function I32ToU64(i: I32): (r: U64)
    ensures (r - i) % TWO_64 == 0
    ensures 0 <= i ==> r == i
    ensures i < 0 ==> r >= TWO_64 - 0x8000_0000
  {
    if 0 <= i then i else i + TWO_64
  }

  /** The truncating cast is fully determined by its congruence and range. */
  lemma U64ToI32Unique(x: U64, r: I32)
    requires (x - r) % TWO_32 == 0
    ensures r == U64ToI32(x)
  {
    var t := U64ToI32(x);
    assert ((x - r) - (x - t)) % TWO_32 == 0;
    assert (t - r) % TWO_32 == 0;
    assert -TWO_32 < t - r < TWO_32;
  }

  /** Sign-extending and then truncating gives back the original `i32`. */
  lemma SignExtendThenTruncate(i: I32)
    ensures U64ToI32(I32ToU64(i)) == i
  {
    var x := I32ToU64(i);
    assert (x - i) % TWO_32 == 0 by {
      if i < 0 {
        assert x - i == TWO_64;
      }
    }
    U64ToI32Unique(x, i);
  }
}

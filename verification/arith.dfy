/**
  Integer helpers shared by the time computations: Rust's truncating
  division, the signed 64-bit range, and Rust's saturating `as i64` cast.

  Dafny's `/` on `int` is Euclidean (for a positive divisor it rounds down),
  while Rust's `/` on `i64` rounds toward zero; the two differ exactly when
  the dividend is negative and not a multiple of the divisor.
 */
module Arith {

  const I64_MIN: int := -0x8000_0000_0000_0000
  const I64_MAX: int := 0x7FFF_FFFF_FFFF_FFFF

  /** Nanoseconds in a microsecond, the two resolutions the program converts between. */
  const NANOS_PER_MICRO: int := 1000

  /** True when `x` is representable as an `i64`. */
  predicate InI64(x: int) {
    I64_MIN <= x <= I64_MAX
  }

  function Abs(x: int): (r: nat)
    ensures r == x || r == -x
  {
    if x < 0 then -x else x
  }

  /** Rust's `a / d` for a positive divisor: the quotient rounded toward zero. */
  function TruncDiv(a: int, d: int): (q: int)
    requires d > 0
    // the remainder is smaller than the divisor and carries the sign of the dividend
    ensures Abs(a - q * d) < d
    ensures a >= 0 ==> 0 <= a - q * d
    ensures a <= 0 ==> a - q * d <= 0
  {
    if a >= 0 then a / d else -((-a) / d)
  }

  /** Truncation is odd: it commutes with negation (Euclidean division does not). */
  lemma TruncDivNeg(a: int, d: int)
    requires d > 0
    ensures TruncDiv(-a, d) == -TruncDiv(a, d)
  {
  }

  /** On a non-negative dividend truncation and Euclidean division agree. */
  lemma TruncDivNonNeg(a: int, d: int)
    requires d > 0 && a >= 0
    ensures TruncDiv(a, d) == a / d
  {
  }

  /** Rust's `f64 as i64` on a value that is already an integer: saturates at the range ends. */
  function SatI64(x: int): (r: int)
    ensures InI64(r)
    ensures InI64(x) ==> r == x
    ensures x > I64_MAX ==> r == I64_MAX
    ensures x < I64_MIN ==> r == I64_MIN
  {
    if x > I64_MAX then I64_MAX else if x < I64_MIN then I64_MIN else x
  }

  /** Rust's `as u64` on a signed value: reduction modulo 2^64 (two's complement reinterpretation). */
  function AsU64(x: int): (r: nat)
    ensures r < 0x1_0000_0000_0000_0000
    ensures (r - x) % 0x1_0000_0000_0000_0000 == 0
    ensures 0 <= x < 0x1_0000_0000_0000_0000 ==> r == x
  {
    x % 0x1_0000_0000_0000_0000
  }

  lemma MulAtLeast(k: int, d: int)
    requires k >= 1 && d > 0
    ensures k * d >= d
  {
  }

  /** Division with remainder has only one answer: `q * d + r` leaves remainder `r`. */
  lemma ModUnique(a: int, d: int, q: int, r: int)
    requires d > 0 && 0 <= r < d && a == q * d + r
    ensures a % d == r
  {
    var q', r' := a / d, a % d;
    assert (q - q') * d == r' - r;
    if q > q' {
      MulAtLeast(q - q', d);
    } else if q' > q {
      MulAtLeast(q' - q, d);
    }
  }
}

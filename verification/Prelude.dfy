/** What every module shares: optional values and Go's 64-bit integers. */
module Prelude {
  datatype Option<+T> = None | Some(value: T)

  const MAX_INT64: int := 0x7FFF_FFFF_FFFF_FFFF

  /** Go's int64 arithmetic. */
  function Wrap64(x: int): int {
    (x + 0x8000_0000_0000_0000) % 0x1_0000_0000_0000_0000 - 0x8000_0000_0000_0000
  }

  /** Wrapping gives the one int64 that differs from the number by a multiple of 2^64. */
  lemma WrapRange(x: int)
    ensures -0x8000_0000_0000_0000 <= Wrap64(x) <= 0x7FFF_FFFF_FFFF_FFFF
    ensures (x - Wrap64(x)) % 0x1_0000_0000_0000_0000 == 0
  {
  }

  lemma WrapSmall(x: int)
    requires -MAX_INT64 - 1 <= x <= MAX_INT64
    ensures Wrap64(x) == x
  {
  }

  lemma WrapOver(x: int)
    requires MAX_INT64 < x <= 2 * MAX_INT64 + 1
    ensures Wrap64(x) < 0
  {
  }

  /** Go's integer division, which truncates towards zero. */
  function TruncDiv(a: int, b: int): int
    requires b != 0
  {
    if a >= 0 then a / b else -(-a / b)
  }

  /** The remainder is smaller than the divisor and has the sign of the dividend. */
  lemma TruncDivMeans(a: int, b: int)
    requires b != 0
    ensures var r := a - TruncDiv(a, b) * b;
            (if a >= 0 then 0 <= r else r <= 0) && -Abs(b) < r < Abs(b)
  {
  }

  function Abs(x: int): int {
    if x < 0 then -x else x
  }
}

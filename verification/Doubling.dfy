/** Repeated doubling up to a maximum: the shape of every exponential backoff here. */
module Doubling {
  function Pow2(k: nat): (p: nat)
    ensures p >= 1
  {
    if k == 0 then 1 else 2 * Pow2(k - 1)
  }

  function Min(a: int, b: int): int {
    if a <= b then a else b
  }

  lemma MinDoubles(x: int, p: nat, max: int)
    requires x > 0 && max > 0
    ensures Min(2 * Min(x * p, max), max) == Min(x * (2 * p), max)
  {
    assert x * (2 * p) == 2 * (x * p);
  }
}

/**
 The retrier's delays: each is the one before it times a multiplier, capped, and
 moved by a random jitter. Products are real numbers; conversions and sums are
 Go's, with what they do beyond int64.
 */
module Delays {
  import opened Doubling
  import opened Prelude

  /** Durations are whole nanoseconds; the multiplier and the jitter fraction are reals. */
  datatype Config = Config(maxAttempts: nat, initialDelay: int, maxDelay: int, multiplier: real, jitter: real)

  /** What NewRetrier makes of its argument. */
  function Normalized(maxAttempts: int, initialDelay: int, maxDelay: int, multiplier: real, jitter: real): (c: Config)
    requires initialDelay <= MAX_INT64 && maxDelay <= MAX_INT64
    ensures Sane(c)
    ensures c.maxAttempts == if maxAttempts > 0 then maxAttempts else 0
    ensures initialDelay > 0 ==> c.initialDelay == initialDelay
    ensures maxDelay > 0 ==> c.maxDelay == maxDelay
    ensures multiplier > 1.0 ==> c.multiplier == multiplier
    ensures 0.0 <= jitter <= 1.0 ==> c.jitter == jitter
    ensures jitter < 0.0 ==> c.jitter == 0.0
    ensures jitter > 1.0 ==> c.jitter == 1.0
    ensures initialDelay <= 0 && maxDelay <= 0 && multiplier <= 1.0 ==>
              c.initialDelay == 100_000_000 && c.maxDelay == 30_000_000_000 && c.multiplier == 2.0
  {
    Config(
      if maxAttempts < 0 then 0 else maxAttempts,
      if initialDelay <= 0 then 100_000_000 else initialDelay,
      if maxDelay <= 0 then 30_000_000_000 else maxDelay,
      if multiplier <= 1.0 then 2.0 else multiplier,
      if jitter < 0.0 then 0.0 else if jitter > 1.0 then 1.0 else jitter)
  }

  predicate Sane(c: Config) {
    && 0 < c.initialDelay <= MAX_INT64 && 0 < c.maxDelay <= MAX_INT64
    && c.multiplier > 1.0 && 0.0 <= c.jitter <= 1.0
  }

  /**
   What is not determined about one delay: the random fraction in [0, 1) and sign
   of its jitter, and the int64 that a conversion of a product beyond int64 gives,
   which Go leaves to the implementation.
   */
  datatype Draw = Draw(fraction: real, subtract: bool, converted: int)

  predicate Possible(d: Draw) {
    0.0 <= d.fraction < 1.0 && -MAX_INT64 - 1 <= d.converted <= MAX_INT64
  }

  // ---- products under a name, so that proofs can do without nonlinear arithmetic ----

  function Scale(a: real, b: real): real {
    a * b
  }

  lemma ScaleKeepsOrder(a: real, b: real, x: real)
    requires 0.0 <= a <= b && 0.0 <= x
    ensures 0.0 <= Scale(a, x) <= Scale(b, x)
    ensures a < b && 0.0 < x ==> Scale(a, x) < Scale(b, x)
  {
    hide Scale;
    NonNegative(a, x);
    NonNegative(b - a, x);
    Minus(b, a, x);
  }

  lemma NonNegative(a: real, b: real)
    requires 0.0 <= a && 0.0 <= b
    ensures 0.0 <= Scale(a, b)
    ensures 0.0 < a && 0.0 < b ==> 0.0 < Scale(a, b)
  {
  }

  lemma Minus(a: real, b: real, x: real)
    ensures Scale(a - b, x) == Scale(a, x) - Scale(b, x)
  {
  }

  lemma ScaleFacts(a: real, x: real)
    ensures Scale(1.0, x) == x && Scale(0.0, x) == 0.0 && Scale(a, x) == Scale(x, a) == a * x
  {
  }

  lemma ScaleAssoc(f: real, x: real, j: real)
    ensures Scale(Scale(f, x), j) == Scale(f, Scale(x, j))
  {
  }

  lemma ScaleDivides(n: real, q: real)
    requires q > 0.0
    ensures Scale(n / q, q) == n && (0.0 <= n < q ==> 0.0 <= n / q < 1.0)
  {
    var f := n / q;
    assert Scale(f, q) == n;
    hide Scale;
    ScaleFacts(f, q);
    if 1.0 <= f {
      ScaleKeepsOrder(1.0, f, q);
    } else if f < 0.0 {
      NonNegative(-f, q);
      Minus(0.0, f, q);
      ScaleFacts(0.0, q);
    }
  }

  // ---- one delay ----

  const INT64_END: real := 9223372036854775808.0

  /** time.Duration of a float64 within int64 truncates towards zero. */
  function Trunc(x: real): int {
    if x >= 0.0 then x.Floor else -(-x).Floor
  }

  function Product(c: Config, current: int): real {
    Scale(current as real, c.multiplier)
  }

  function Cap(c: Config, grown: int): int {
    if grown > c.maxDelay then c.maxDelay else grown
  }

  function Capped(c: Config, current: int, d: Draw): int {
    var product := Product(c, current);
    Cap(c, if -INT64_END <= product < INT64_END then Trunc(product) else d.converted)
  }

  function Jittered(capped: int, jitter: real, d: Draw): int {
    if jitter > 0.0 then
      var j := Trunc(Scale(Scale(d.fraction, capped as real), jitter));
      Wrap64(if d.subtract then capped - j else capped + j)
    else capped
  }

  function CalculateDelay(c: Config, current: int, d: Draw): int {
    Jittered(Capped(c, current, d), c.jitter, d)
  }

  /** MaxDelay * (1 + Jitter). */
  function Longest(c: Config): real {
    c.maxDelay as real * (1.0 + c.jitter)
  }

  predicate Within(c: Config, delay: int) {
    0 <= delay && delay as real <= Longest(c)
  }

  /** The largest whole jitter below a fraction `jitter` of a delay. */
  function MaxJitter(capped: int, jitter: real): int {
    var q := Scale(capped as real, jitter);
    if q <= 0.0 then 0 else -(-q).Floor - 1
  }

  lemma MaxJitterRange(capped: int, jitter: real)
    requires capped >= 0 && 0.0 <= jitter <= 1.0
    ensures var q := Scale(capped as real, jitter);
            && 0.0 <= q <= capped as real && 0 <= MaxJitter(capped, jitter) <= capped
            && MaxJitter(capped, jitter) as real <= q
            && (q > 0.0 ==> MaxJitter(capped, jitter) as real < q)
  {
    hide Scale;
    ScaleFacts(jitter, capped as real);
    ScaleKeepsOrder(jitter, 1.0, capped as real);
  }

  /** No draw gives more jitter than that. */
  lemma JitterAtMost(capped: int, jitter: real, f: real)
    requires capped >= 0 && 0.0 <= jitter <= 1.0 && 0.0 <= f < 1.0
    ensures 0 <= Trunc(Scale(Scale(f, capped as real), jitter)) <= MaxJitter(capped, jitter)
  {
    hide Scale;
    var q := Scale(capped as real, jitter);
    MaxJitterRange(capped, jitter);
    ScaleAssoc(f, capped as real, jitter);
    ScaleFacts(f, q);
    ScaleKeepsOrder(f, 1.0, q);
  }

  /** Some draw gives exactly that. */
  lemma JitterReaches(capped: int, jitter: real) returns (f: real)
    requires capped >= 0 && 0.0 <= jitter <= 1.0
    ensures 0.0 <= f < 1.0 && Trunc(Scale(Scale(f, capped as real), jitter)) == MaxJitter(capped, jitter)
  {
    hide Scale;
    var q, n := Scale(capped as real, jitter), MaxJitter(capped, jitter);
    MaxJitterRange(capped, jitter);
    f := if q > 0.0 then n as real / q else 0.0;
    if q > 0.0 {
      ScaleDivides(n as real, q);
    }
    ScaleAssoc(f, capped as real, jitter);
    ScaleFacts(f, q);
  }

  /** The sum of a delay and any jitter it may get is an int64. */
  predicate JitterFits(capped: int, jitter: real) {
    capped + MaxJitter(capped, jitter) <= MAX_INT64
  }

  lemma JitterMoves(capped: int, jitter: real, d: Draw)
    requires 0 <= capped <= MAX_INT64 && 0.0 <= jitter <= 1.0 && Possible(d) && JitterFits(capped, jitter)
    ensures capped - MaxJitter(capped, jitter) <= Jittered(capped, jitter, d) <= capped + MaxJitter(capped, jitter)
  {
    hide Scale, MaxJitter, Trunc, Wrap64;
    MaxJitterRange(capped, jitter);
    JitterAtMost(capped, jitter, d.fraction);
    var j := Trunc(Scale(Scale(d.fraction, capped as real), jitter));
    WrapSmall(capped - j);
    WrapSmall(capped + j);
  }

  lemma CappedInRange(c: Config, current: int, d: Draw)
    requires Sane(c) && current >= 0 && Product(c, current) < INT64_END
    ensures Capped(c, current, d) == Cap(c, Trunc(Product(c, current))) && 0 <= Capped(c, current, d) <= c.maxDelay
  {
    hide Scale;
    ScaleFacts(0.0, c.multiplier);
    ScaleKeepsOrder(0.0, current as real, c.multiplier);
  }

  lemma AtMostLongest(c: Config, x: int)
    requires Sane(c) && 0 <= x <= c.maxDelay
    ensures x as real + Scale(x as real, c.jitter) <= Longest(c)
  {
    ScaleKeepsOrder(x as real, c.maxDelay as real, c.jitter);
    Expanded(c.maxDelay as real, c.jitter);
    ScaleFacts(c.maxDelay as real, c.jitter);
    hide Scale;
  }

  /**
   While nothing overflows, jitter moves a delay by less than its fraction, and a
   computed delay lies between 0 and MaxDelay * (1 + Jitter).
   */
  lemma DelayBounded(c: Config, current: int, d: Draw)
    requires Sane(c) && current >= 0 && Possible(d)
    requires Product(c, current) < INT64_END && JitterFits(Cap(c, Trunc(Product(c, current))), c.jitter)
    ensures var x, next := Cap(c, Trunc(Product(c, current))), CalculateDelay(c, current, d);
            && x as real - Scale(x as real, c.jitter) <= next as real <= x as real + Scale(x as real, c.jitter)
            && Within(c, next)
  {
    hide Capped, Jittered, Scale, MaxJitter, Product, Trunc, Longest;
    CappedInRange(c, current, d);
    var x := Capped(c, current, d);
    JitterMoves(x, c.jitter, d);
    MaxJitterRange(x, c.jitter);
    AtMostLongest(c, x);
  }

  lemma Expanded(x: real, j: real)
    ensures x * (1.0 + j) == x + x * j
  {
  }

  /**
   A delay computed from a given one is within those bounds, whatever is drawn and
   however the conversion overflows, if and only if the product is below 2^63 and
   the capped product has room for its jitter.
   */
  lemma DelayBoundedIff(c: Config, current: int)
    requires Sane(c) && current >= 0
    ensures (forall d :: Possible(d) ==> Within(c, CalculateDelay(c, current, d))) <==>
            Product(c, current) < INT64_END && JitterFits(Cap(c, Trunc(Product(c, current))), c.jitter)
  {
    if Product(c, current) >= INT64_END {
      var d := Draw(0.0, false, -MAX_INT64 - 1);
      ConversionOverflows(c, current, d);
      assert Possible(d) && !Within(c, CalculateDelay(c, current, d));
    } else if !JitterFits(Cap(c, Trunc(Product(c, current))), c.jitter) {
      var d := JitterOverflows(c, current);
      assert Possible(d) && !Within(c, CalculateDelay(c, current, d));
    } else {
      forall d | Possible(d) ensures Within(c, CalculateDelay(c, current, d)) {
        DelayBounded(c, current, d);
      }
    }
  }

  lemma ConversionOverflows(c: Config, current: int, d: Draw)
    requires Sane(c) && Product(c, current) >= INT64_END && d == Draw(0.0, false, -MAX_INT64 - 1)
    ensures CalculateDelay(c, current, d) < 0
  {
    hide Scale, Product, Wrap64;
    assert Capped(c, current, d) == -MAX_INT64 - 1;
    ScaleFacts(0.0, (-MAX_INT64 - 1) as real);
    ScaleFacts(0.0, c.jitter);
    WrapSmall(-MAX_INT64 - 1);
  }

  lemma JitterOverflows(c: Config, current: int) returns (d: Draw)
    requires Sane(c) && current >= 0
    ensures Possible(d)
    ensures Product(c, current) < INT64_END && !JitterFits(Cap(c, Trunc(Product(c, current))), c.jitter) ==>
              CalculateDelay(c, current, d) < 0
  {
    d := Draw(0.0, false, 0);
    if Product(c, current) < INT64_END && !JitterFits(Cap(c, Trunc(Product(c, current))), c.jitter) {
      var x := Cap(c, Trunc(Product(c, current)));
      CappedInRange(c, current, d);
      MaxJitterRange(x, c.jitter);
      var f := JitterReaches(x, c.jitter);
      d := Draw(f, false, 0);
      CappedInRange(c, current, d);
      NoJitter(x, c.jitter);
      hide Scale, Capped, Product, Trunc, Wrap64, MaxJitter;
      WrapOver(x + MaxJitter(x, c.jitter));
    }
  }

  lemma NoJitter(x: int, jitter: real)
    requires 0.0 <= jitter && MaxJitter(x, jitter) > 0
    ensures jitter > 0.0
  {
    ScaleFacts(0.0, x as real);
  }

  /**
   Before jitter a delay is the product rounded down, capped; jitter moves it
   down or up as drawn, by the drawn fraction of its share rounded down.
   */
  lemma DelayIs(c: Config, current: int, d: Draw)
    requires Sane(c) && current >= 0 && Possible(d)
    requires Product(c, current) < INT64_END && JitterFits(Cap(c, Trunc(Product(c, current))), c.jitter)
    ensures var x := Min(Scale(current as real, c.multiplier).Floor, c.maxDelay);
            var j := Scale(Scale(d.fraction, x as real), c.jitter).Floor;
            CalculateDelay(c, current, d) == if d.subtract then x - j else x + j
  {
    hide Scale;
    CappedInRange(c, current, d);
    var x := Capped(c, current, d);
    ScaleFacts(0.0, c.multiplier);
    ScaleKeepsOrder(0.0, current as real, c.multiplier);
    assert x == Min(Scale(current as real, c.multiplier).Floor, c.maxDelay);
    hide Capped, Product;
    JitteredIs(x, c.jitter, d);
    hide Jittered;
  }

  lemma JitteredIs(x: int, jitter: real, d: Draw)
    requires 0 <= x <= MAX_INT64 && 0.0 <= jitter <= 1.0 && Possible(d) && JitterFits(x, jitter)
    ensures var j := Scale(Scale(d.fraction, x as real), jitter).Floor;
            Jittered(x, jitter, d) == if d.subtract then x - j else x + j
  {
    hide Scale, MaxJitter, Wrap64;
    var p := Scale(Scale(d.fraction, x as real), jitter);
    ScaleFacts(0.0, x as real);
    ScaleKeepsOrder(0.0, d.fraction, x as real);
    ScaleFacts(0.0, jitter);
    ScaleKeepsOrder(0.0, Scale(d.fraction, x as real), jitter);
    ScaleFacts(jitter, Scale(d.fraction, x as real));
    ScaleFacts(0.0, Scale(d.fraction, x as real));
    assert 0.0 <= p && (jitter == 0.0 ==> p == 0.0);
    JitterAtMost(x, jitter, d.fraction);
    MaxJitterRange(x, jitter);
    WrapSmall(x - Trunc(p));
    WrapSmall(x + Trunc(p));
  }

  // ---- the delays of a run ----

  /** The delay after each failed attempt, from the second one on computed from the delay before it. */
  function DelayAt(c: Config, draws: nat -> Draw, k: nat): int {
    if k == 0 then c.initialDelay else CalculateDelay(c, DelayAt(c, draws, k - 1), draws(k))
  }

  /** A configuration under which nothing can overflow. */
  predicate Safe(c: Config) {
    && Longest(c) <= MAX_INT64 as real
    && Product(c, c.initialDelay) < INT64_END && Scale(Longest(c), c.multiplier) < INT64_END
  }

  lemma SafeStep(c: Config, current: int)
    requires Sane(c) && Safe(c) && (current == c.initialDelay || Within(c, current))
    ensures current >= 0 && Product(c, current) < INT64_END && JitterFits(Cap(c, Trunc(Product(c, current))), c.jitter)
  {
    hide Scale, MaxJitter, Trunc, Longest;
    if Within(c, current) {
      ScaleKeepsOrder(current as real, Longest(c), c.multiplier);
    }
    CappedInRange(c, current, Draw(0.0, false, 0));
    var x := Cap(c, Trunc(Product(c, current)));
    MaxJitterRange(x, c.jitter);
    AtMostLongest(c, x);
  }

  /** Under a safe configuration every delay of a run after the first is within the bounds, whatever is drawn. */
  lemma {:induction false} EveryDelayBounded(c: Config, draws: nat -> Draw, k: nat)
    requires Sane(c) && Safe(c) && forall i :: Possible(draws(i))
    ensures DelayAt(c, draws, k) >= 0 && (k > 0 ==> Within(c, DelayAt(c, draws, k)))
  {
    if k > 0 {
      hide CalculateDelay, Safe, Within, Product, JitterFits, Trunc;
      EveryDelayBounded(c, draws, k - 1);
      SafeStep(c, DelayAt(c, draws, k - 1));
      DelayBounded(c, DelayAt(c, draws, k - 1), draws(k));
    }
  }

  /** The connection manager's own settings are safe unless doubling the first interval overflows. */
  lemma ManagerSafeIff(maxTries: int, interval: int)
    requires interval <= MAX_INT64
    ensures var c := Normalized(maxTries, interval, 300_000_000_000, 2.0, 0.1);
            Safe(c) <==> 2 * c.initialDelay <= MAX_INT64
  {
    var c := Normalized(maxTries, interval, 300_000_000_000, 2.0, 0.1);
    assert Product(c, c.initialDelay) == (2 * c.initialDelay) as real;
  }

  /** Without jitter and with multiplier two, the k-th delay after the first is min(initial * 2^k, max). */
  lemma {:induction false} DelayClosedForm(c: Config, draws: nat -> Draw, k: nat)
    requires Sane(c) && Safe(c) && c.multiplier == 2.0 && c.jitter == 0.0 && k > 0
    ensures DelayAt(c, draws, k) == Min(c.initialDelay * Pow2(k), c.maxDelay)
  {
    hide CalculateDelay, Safe;
    if k > 1 {
      DelayClosedForm(c, draws, k - 1);
      MinDoubles(c.initialDelay, Pow2(k - 1), c.maxDelay);
      MinPositive(c.initialDelay, Pow2(k - 1), c.maxDelay);
    } else {
      assert Pow2(1) == 2 && DelayAt(c, draws, 0) == c.initialDelay;
    }
    DoubledAndCapped(c, DelayAt(c, draws, k - 1), draws(k));
  }

  lemma MinPositive(x: int, p: nat, max: int)
    requires x > 0 && p >= 1 && max > 0
    ensures 0 <= Min(x * p, max) <= max
  {
    assert x * p > 0;
  }

  lemma DoubledAndCapped(c: Config, current: int, d: Draw)
    requires Sane(c) && Safe(c) && c.multiplier == 2.0 && c.jitter == 0.0
    requires current == c.initialDelay || 0 <= current <= c.maxDelay
    ensures CalculateDelay(c, current, d) == Min(2 * current, c.maxDelay)
  {
    assert Product(c, current) == (2 * current) as real;
    assert Product(c, c.initialDelay) == (2 * c.initialDelay) as real;
    assert Trunc((2 * current) as real) == 2 * current;
    hide Wrap64;
  }
}

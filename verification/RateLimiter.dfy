/** The token-bucket rate limiter, and how much it can grant over a whole run and within any window of it. */
module RateLimiter {
  import opened Prelude

  datatype Config = Config(rate: int, interval: int)

  datatype Bucket = Bucket(tokens: int, last: int)

  /** Whole intervals since the last refill, times the rate, in int64 arithmetic. */
  function ToAdd(c: Config, b: Bucket, now: int): int
    requires c.interval != 0
  {
    Wrap64(TruncDiv(now - b.last, c.interval) * c.rate)
  }

  function Refill(c: Config, b: Bucket, now: int): Bucket
    requires c.interval != 0
  {
    var add := ToAdd(c, b, now);
    if add <= 0 then b
    else
      var sum := Wrap64(b.tokens + add);
      Bucket(if sum > c.rate then c.rate else sum, now)
  }

  function AfterAllowN(c: Config, b: Bucket, now: int, n: int): (Bucket, bool)
    requires c.interval != 0
  {
    var r := Refill(c, b, now);
    if r.tokens < n then (r, false) else (r.(tokens := Wrap64(r.tokens - n)), true)
  }

  class TokenBucket {
    const config: Config
    var tokens: int
    var lastTime: int

    function View(): Bucket
      reads this
    {
      Bucket(tokens, lastTime)
    }

    constructor (rate: int, interval: int, now: int)
      ensures config == Config(rate, interval) && View() == Bucket(rate, now)
    {
      config := Config(rate, interval);
      tokens := rate;
      lastTime := now;
    }

    method AllowN(now: int, n: int) returns (ok: bool)
      requires config.interval != 0
      modifies this
      ensures (View(), ok) == AfterAllowN(config, old(View()), now, n)
    {
      var elapsed := now - lastTime;
      var tokensToAdd := Wrap64(TruncDiv(elapsed, config.interval) * config.rate);
      if tokensToAdd > 0 {
        var newTokens := Wrap64(tokens + tokensToAdd);
        if newTokens > config.rate {
          newTokens := config.rate;
        }
        tokens := newTokens;
        lastTime := now;
      }
      if tokens < n {
        return false;
      }
      tokens := Wrap64(tokens - n);
      ok := true;
    }
  }

  // ---- whole runs ----

  datatype Request = Request(now: int, n: int)

  /** Where a run stands: the bucket, the total granted and the number of refills. */
  datatype Tally = Tally(bucket: Bucket, granted: int, refills: int)

  function After(c: Config, start: int, reqs: seq<Request>): Tally
    requires c.interval > 0
  {
    if reqs == [] then Tally(Bucket(c.rate, start), 0, 0)
    else Next(c, After(c, start, reqs[..|reqs| - 1]), reqs[|reqs| - 1])
  }

  function Next(c: Config, t: Tally, r: Request): Tally
    requires c.interval > 0
  {
    var (bucket, ok) := AfterAllowN(c, t.bucket, r.now, r.n);
    Tally(bucket, t.granted + (if ok then r.n else 0),
          t.refills + if ToAdd(c, t.bucket, r.now) > 0 then 1 else 0)
  }

  function Clock(start: int, reqs: seq<Request>): int {
    if reqs == [] then start else reqs[|reqs| - 1].now
  }

  /** Requests ask for nonnegative amounts on a clock that does not run backwards. */
  ghost predicate Fair(start: int, reqs: seq<Request>) {
    reqs == [] ||
    var before, r := reqs[..|reqs| - 1], reqs[|reqs| - 1];
    Fair(start, before) && r.n >= 0 && r.now >= Clock(start, before)
  }

  predicate Sensible(c: Config) {
    c.interval > 0 && 0 <= c.rate <= MAX_INT64
  }

  function Positive(x: int): int {
    if x > 0 then x else 0
  }

  lemma MulMonotone(a: int, b: int, x: int)
    requires a <= b && x >= 0
    ensures a * x <= b * x && x * a <= x * b
  {
  }

  lemma Distribute(x: int, a: int, b: int)
    ensures (a + b) * x == a * x + b * x && x * (a + b) == x * a + b * x
  {
  }

  lemma RefillNeedsInterval(c: Config, b: Bucket, now: int)
    requires c.interval > 0 && now >= b.last
    ensures ToAdd(c, b, now) > 0 ==> now - b.last >= c.interval
  {
    assert (now - b.last) / c.interval == 0 ==> ToAdd(c, b, now) == 0;
  }

  /** One request: a refill makes room for at most `rate` more grants and moves the last refill on by an interval. */
  lemma OneRequest(c: Config, t: Tally, r: Request)
    requires Sensible(c) && r.n >= 0 && r.now >= t.bucket.last && t.bucket.tokens <= c.rate
    ensures var u := Next(c, t, r);
            && u.bucket.tokens <= c.rate
            && t.bucket.last <= u.bucket.last <= r.now
            && (u.refills == t.refills ==>
                  && u.bucket.last == t.bucket.last
                  && u.granted + Positive(u.bucket.tokens) <= t.granted + Positive(t.bucket.tokens))
            && (u.refills != t.refills ==>
                  && u.refills == t.refills + 1 && u.bucket.last == r.now >= t.bucket.last + c.interval
                  && u.granted + Positive(u.bucket.tokens) <= t.granted + c.rate)
  {
    var b := Refill(c, t.bucket, r.now);
    RefillNeedsInterval(c, t.bucket, r.now);
    if b.tokens >= r.n {
      WrapSmall(b.tokens - r.n);
    }
    hide ToAdd, Wrap64;
  }

  /** What holds of every run from its creation on. */
  ghost predicate Bounded(c: Config, start: int, now: int, t: Tally) {
    && t.bucket.tokens <= c.rate
    && t.bucket.last <= now
    && 0 <= t.refills && t.refills * c.interval <= t.bucket.last - start
    && t.granted + Positive(t.bucket.tokens) <= c.rate * (1 + t.refills)
  }

  lemma BoundedStep(c: Config, start: int, now: int, t: Tally, r: Request)
    requires Sensible(c) && Bounded(c, start, now, t) && r.n >= 0 && r.now >= now
    ensures Bounded(c, start, r.now, Next(c, t, r))
  {
    OneRequest(c, t, r);
    var u := Next(c, t, r);
    hide Next;
    MulMonotone(1, 1 + t.refills, c.rate);
    Distribute(c.interval, t.refills, 1);
    Distribute(c.rate, 1 + t.refills, 1);
  }

  lemma {:induction false} SinceCreation(c: Config, start: int, reqs: seq<Request>)
    requires Sensible(c) && Fair(start, reqs)
    ensures Bounded(c, start, Clock(start, reqs), After(c, start, reqs))
  {
    if reqs != [] {
      hide Next, Bounded;
      var before := reqs[..|reqs| - 1];
      SinceCreation(c, start, before);
      BoundedStep(c, start, Clock(start, before), After(c, start, before), reqs[|reqs| - 1]);
    }
  }

  /** If k intervals fit into a time span then k is at most the whole part of their ratio. */
  lemma WholeIntervals(k: int, interval: int, span: int)
    requires interval > 0 && k * interval <= span
    ensures k <= span / interval
  {
    var q := span / interval;
    assert span < (q + 1) * interval;
    assert k >= q + 1 ==> k * interval >= (q + 1) * interval by {
      if k >= q + 1 {
        MulMonotone(q + 1, k, interval);
      }
    }
  }

  /** The total granted by time T after creation is at most rate * (1 + floor(T / interval)). */
  lemma TotalBound(c: Config, start: int, reqs: seq<Request>)
    requires Sensible(c) && Fair(start, reqs)
    ensures After(c, start, reqs).granted <= c.rate * (1 + (Clock(start, reqs) - start) / c.interval)
  {
    SinceCreation(c, start, reqs);
    var t := After(c, start, reqs);
    hide After;
    var span := Clock(start, reqs) - start;
    WholeIntervals(t.refills, c.interval, span);
    MulMonotone(1 + t.refills, 1 + span / c.interval, c.rate);
  }

  lemma {:induction false} FairPrefix(start: int, reqs: seq<Request>, i: nat)
    requires Fair(start, reqs) && i < |reqs|
    ensures Fair(start, reqs[..i]) && Clock(start, reqs[..i]) <= reqs[i].now <= Clock(start, reqs)
  {
    var before := reqs[..|reqs| - 1];
    if i < |before| {
      assert before[..i] == reqs[..i];
      FairPrefix(start, before, i);
    } else {
      assert before == reqs[..i];
    }
  }

  /** From request i, made at `first`, on: refills after the first one are an interval apart. */
  ghost predicate BoundedSince(c: Config, first: int, s: Tally, t: Tally) {
    var k := t.refills - s.refills;
    && k >= 0
    && t.granted + Positive(t.bucket.tokens) <= s.granted + c.rate * (1 + k)
    && (k > 0 ==> (k - 1) * c.interval <= t.bucket.last - first)
  }

  lemma SinceStep(c: Config, first: int, s: Tally, t: Tally, r: Request)
    requires Sensible(c) && BoundedSince(c, first, s, t)
    requires r.n >= 0 && r.now >= first && r.now >= t.bucket.last && t.bucket.tokens <= c.rate
    ensures BoundedSince(c, first, s, Next(c, t, r))
  {
    OneRequest(c, t, r);
    var u := Next(c, t, r);
    hide Next;
    var k := t.refills - s.refills;
    MulMonotone(1, 1 + k, c.rate);
    Distribute(c.rate, 1 + k, 1);
    Distribute(c.interval, k - 1, 1);
  }

  lemma SinceItself(c: Config, first: int, s: Tally)
    requires Sensible(c) && s.bucket.tokens <= c.rate
    ensures BoundedSince(c, first, s, s)
  {
  }

  lemma {:induction false} SinceRequest(c: Config, start: int, reqs: seq<Request>, i: nat)
    requires Sensible(c) && Fair(start, reqs) && i < |reqs|
    ensures BoundedSince(c, reqs[i].now, After(c, start, reqs[..i]), After(c, start, reqs))
  {
    hide Next;
    var n := |reqs| - 1;
    var before := reqs[..n];
    var s, t := After(c, start, reqs[..i]), After(c, start, before);
    SinceCreation(c, start, before);
    if i < n {
      assert before[..i] == reqs[..i];
      SinceRequest(c, start, before, i);
      FairPrefix(start, reqs, i);
    } else {
      assert before == reqs[..i];
      SinceItself(c, reqs[i].now, s);
    }
    hide BoundedSince;
    SinceStep(c, reqs[i].now, s, t, reqs[n]);
  }

  /** Within any window of length T, at most rate * (2 + floor(T / interval)) is granted. */
  lemma WindowBound(c: Config, start: int, reqs: seq<Request>, i: nat)
    requires Sensible(c) && Fair(start, reqs) && i < |reqs|
    ensures After(c, start, reqs).granted - After(c, start, reqs[..i]).granted <=
            c.rate * (2 + (reqs[|reqs| - 1].now - reqs[i].now) / c.interval)
  {
    SinceRequest(c, start, reqs, i);
    SinceCreation(c, start, reqs);
    FairPrefix(start, reqs, i);
    var s, t := After(c, start, reqs[..i]), After(c, start, reqs);
    hide After, Fair;
    WindowArithmetic(c, t.refills - s.refills, reqs[|reqs| - 1].now - reqs[i].now);
  }

  lemma WindowArithmetic(c: Config, k: int, span: int)
    requires Sensible(c) && span >= 0 && (k > 0 ==> (k - 1) * c.interval <= span)
    ensures c.rate * (1 + k) <= c.rate * (2 + span / c.interval)
  {
    if k > 0 {
      WholeIntervals(k - 1, c.interval, span);
    }
    MulMonotone(1 + k, 2 + span / c.interval, c.rate);
  }

  // ---- the range of the token count ----

  /** The refill about to be made does not overflow the token count. */
  predicate Room(c: Config, b: Bucket, now: int)
    requires c.interval > 0
  {
    b.tokens + ToAdd(c, b, now) <= MAX_INT64
  }

  lemma RangeStep(c: Config, b: Bucket, now: int, n: int)
    requires Sensible(c) && n >= 0 && 0 <= b.tokens <= c.rate
    ensures 0 <= AfterAllowN(c, b, now, n).0.tokens <= c.rate <==> Room(c, b, now)
  {
    hide Wrap64;
    var add := ToAdd(c, b, now);
    WrapRange(TruncDiv(now - b.last, c.interval) * c.rate);
    assert add <= MAX_INT64;
    hide ToAdd;
    if b.tokens + add > MAX_INT64 {
      WrapOver(b.tokens + add);
    } else if add > 0 {
      WrapSmall(b.tokens + add);
    }
    var r := Refill(c, b, now);
    assert 0 <= r.tokens <= c.rate <==> Room(c, b, now);
    hide Refill, Room;
    if n <= r.tokens {
      assert r.tokens <= MAX_INT64;
      WrapSmall(r.tokens - n);
    }
  }

  ghost predicate InRangeAt(c: Config, start: int, reqs: seq<Request>, i: nat)
    requires c.interval > 0 && i <= |reqs|
  {
    0 <= After(c, start, reqs[..i]).bucket.tokens <= c.rate
  }

  ghost predicate RoomAt(c: Config, start: int, reqs: seq<Request>, i: nat)
    requires c.interval > 0 && i < |reqs|
  {
    Room(c, After(c, start, reqs[..i]).bucket, reqs[i].now)
  }

  lemma RangeSnoc(c: Config, start: int, reqs: seq<Request>)
    requires Sensible(c) && Fair(start, reqs) && reqs != []
    ensures var n := |reqs| - 1;
            && (forall i :: 0 <= i <= n ==> InRangeAt(c, start, reqs, i) == InRangeAt(c, start, reqs[..n], i))
            && (forall i :: 0 <= i < n ==> RoomAt(c, start, reqs, i) == RoomAt(c, start, reqs[..n], i))
            && (InRangeAt(c, start, reqs, n) ==> InRangeAt(c, start, reqs, n + 1) == RoomAt(c, start, reqs, n))
  {
    hide Room, AfterAllowN;
    var n := |reqs| - 1;
    assert forall i :: 0 <= i <= n ==> reqs[..n][..i] == reqs[..i];
    assert reqs[..n + 1] == reqs;
    var b := After(c, start, reqs[..n]).bucket;
    if 0 <= b.tokens <= c.rate {
      RangeStep(c, b, reqs[n].now, reqs[n].n);
    }
  }

  /** The token count lies in 0..rate throughout a run if and only if no refill of the run overflows it. */
  lemma {:induction false} TokensInRangeIff(c: Config, start: int, reqs: seq<Request>)
    requires Sensible(c) && Fair(start, reqs)
    ensures (forall i :: 0 <= i <= |reqs| ==> InRangeAt(c, start, reqs, i)) <==>
            (forall i :: 0 <= i < |reqs| ==> RoomAt(c, start, reqs, i))
  {
    if reqs != [] {
      hide InRangeAt, RoomAt;
      TokensInRangeIff(c, start, reqs[..|reqs| - 1]);
      RangeSnoc(c, start, reqs);
    }
  }

  // ---- the bucket is a fixed-window counter ----

  /** A reference limiter: at most `rate` per window, a new window once an interval has passed since the last began. */
  datatype Window = Window(began: int, spent: int)

  function Current(c: Config, w: Window, now: int): Window {
    if now - w.began >= c.interval then Window(now, 0) else w
  }

  function Spend(c: Config, w: Window, r: Request): Window {
    var v := Current(c, w, r.now);
    if v.spent + r.n <= c.rate then v.(spent := v.spent + r.n) else v
  }

  function WindowAfter(c: Config, start: int, reqs: seq<Request>): Window {
    if reqs == [] then Window(start, 0)
    else Spend(c, WindowAfter(c, start, reqs[..|reqs| - 1]), reqs[|reqs| - 1])
  }

  function BucketOf(c: Config, w: Window): Bucket {
    Bucket(c.rate - w.spent, w.began)
  }

  /** A refill is worth at least one whole interval, hence the whole bucket. */
  lemma RefillFills(c: Config, b: Bucket, now: int)
    requires Sensible(c) && c.rate > 0 && 0 <= b.tokens <= c.rate && now >= b.last
    requires ((now - b.last) / c.interval + 1) * c.rate <= MAX_INT64
    ensures Refill(c, b, now) == if now - b.last >= c.interval then Bucket(c.rate, now) else b
  {
    hide Wrap64;
    var k := (now - b.last) / c.interval;
    assert 0 <= k && (k >= 1 <==> now - b.last >= c.interval);
    var add := k * c.rate;
    Distribute(c.rate, k, 1);
    MulMonotone(0, k, c.rate);
    WrapSmall(add);
    assert add == ToAdd(c, b, now);
    hide ToAdd;
    if k >= 1 {
      MulMonotone(1, k, c.rate);
      WrapSmall(b.tokens + add);
    }
  }

  lemma SameStep(c: Config, w: Window, r: Request)
    requires Sensible(c) && c.rate > 0 && 0 <= w.spent <= c.rate && r.now >= w.began && r.n >= 0
    requires ((r.now - w.began) / c.interval + 1) * c.rate <= MAX_INT64
    ensures AfterAllowN(c, BucketOf(c, w), r.now, r.n).0 == BucketOf(c, Spend(c, w, r))
    ensures AfterAllowN(c, BucketOf(c, w), r.now, r.n).1 <==> Current(c, w, r.now).spent + r.n <= c.rate
    ensures 0 <= Spend(c, w, r).spent <= c.rate && w.began <= Spend(c, w, r).began <= r.now
  {
    RefillFills(c, BucketOf(c, w), r.now);
    var b := Refill(c, BucketOf(c, w), r.now);
    hide Refill, Wrap64;
    if b.tokens >= r.n {
      WrapSmall(b.tokens - r.n);
    }
  }

  lemma SpanFits(c: Config, span: int, whole: int)
    requires Sensible(c) && 0 <= span <= whole && (whole / c.interval + 1) * c.rate <= MAX_INT64
    ensures (span / c.interval + 1) * c.rate <= MAX_INT64
  {
    assert span / c.interval * c.interval <= whole;
    WholeIntervals(span / c.interval, c.interval, whole);
    MulMonotone(span / c.interval + 1, whole / c.interval + 1, c.rate);
  }

  /**
   As long as the tokens of the whole run fit an int64, the token bucket is
   exactly the fixed-window counter: same grants, and tokens are what the window
   has left.
   */
  lemma {:induction false} BucketIsWindow(c: Config, start: int, reqs: seq<Request>)
    requires Sensible(c) && c.rate > 0 && Fair(start, reqs)
    requires ((Clock(start, reqs) - start) / c.interval + 1) * c.rate <= MAX_INT64
    ensures var w := WindowAfter(c, start, reqs);
            && After(c, start, reqs).bucket == BucketOf(c, w)
            && 0 <= w.spent <= c.rate && start <= w.began <= Clock(start, reqs)
  {
    if reqs != [] {
      hide Spend, AfterAllowN, BucketOf;
      var before, r := reqs[..|reqs| - 1], reqs[|reqs| - 1];
      FairClock(start, before);
      SpanFits(c, Clock(start, before) - start, r.now - start);
      BucketIsWindow(c, start, before);
      var w := WindowAfter(c, start, before);
      SpanFits(c, r.now - w.began, r.now - start);
      SameStep(c, w, r);
    }
  }

  lemma {:induction false} FairClock(start: int, reqs: seq<Request>)
    requires Fair(start, reqs)
    ensures start <= Clock(start, reqs)
  {
    if reqs != [] {
      FairClock(start, reqs[..|reqs| - 1]);
    }
  }

  /** So the next request is granted if and only if the window it falls into has that much left. */
  lemma GrantedIff(c: Config, start: int, reqs: seq<Request>, r: Request)
    requires Sensible(c) && c.rate > 0 && Fair(start, reqs + [r])
    requires ((r.now - start) / c.interval + 1) * c.rate <= MAX_INT64
    ensures AfterAllowN(c, After(c, start, reqs).bucket, r.now, r.n).1 <==>
            Current(c, WindowAfter(c, start, reqs), r.now).spent + r.n <= c.rate
  {
    assert (reqs + [r])[..|reqs|] == reqs;
    FairClock(start, reqs);
    SpanFits(c, Clock(start, reqs) - start, r.now - start);
    BucketIsWindow(c, start, reqs);
    var w := WindowAfter(c, start, reqs);
    SpanFits(c, r.now - w.began, r.now - start);
    SameStep(c, w, r);
  }

  // ---- requests outside the usual ----

  /** A clock that has not moved a whole interval past the last refill, or has moved back, refills nothing. */
  lemma NoRefill(c: Config, b: Bucket, now: int)
    requires Sensible(c) && now - b.last < c.interval && TruncDiv(now - b.last, c.interval) * c.rate >= -MAX_INT64
    ensures Refill(c, b, now) == b
  {
    var q := TruncDiv(now - b.last, c.interval);
    TruncDivMeans(now - b.last, c.interval);
    assert q <= 0 by {
      if q >= 1 {
        MulMonotone(1, q, c.interval);
      }
    }
    MulMonotone(q, 0, c.rate);
    WrapSmall(q * c.rate);
    hide Wrap64, TruncDiv;
  }

  /** A request for a negative number of tokens is granted when there are tokens, and adds that many. */
  lemma NegativeRequest(c: Config, b: Bucket, now: int, n: int)
    requires c.interval != 0 && n < 0
    requires var t := Refill(c, b, now).tokens; 0 <= t <= MAX_INT64 && t - n <= MAX_INT64
    ensures AfterAllowN(c, b, now, n) == (Refill(c, b, now).(tokens := Refill(c, b, now).tokens - n), true)
  {
    hide Refill, Wrap64;
    WrapSmall(Refill(c, b, now).tokens - n);
  }
}

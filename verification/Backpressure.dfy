/**
 The adaptive backpressure controller: watermarks pause and resume the flow, and
 a paused flow yields for exponentially growing times.
 */
module Backpressure {
  import opened Prelude
  import opened Doubling

  datatype Config = Config(yieldMin: int, yieldMax: int)

  /** Durations in nanoseconds; pauseCount and totalPause are the statistics. */
  datatype State = State(
    low: int, high: int, level: int, paused: bool, yieldCurrent: int, pauseCount: int, totalPause: int)

  datatype Op = Pausing | Resuming | Yielding | Level(level: int) | Marks(low: int, high: int) | Resetting

  /** The next yield time: doubled in int64 arithmetic, then capped. */
  function Backoff(c: Config, y: int): int {
    if Wrap64(y * 2) > c.yieldMax then c.yieldMax else Wrap64(y * 2)
  }

  function Resumed(c: Config, s: State): State {
    s.(paused := false, yieldCurrent := c.yieldMin)
  }

  function Next(c: Config, s: State, op: Op): State {
    match op
    case Pausing => s.(paused := true)
    case Resuming => Resumed(c, s)
    case Resetting => Resumed(c, s)
    case Marks(low, high) => s.(low := low, high := high)
    case Level(level) =>
      var t := s.(level := level);
      if level >= s.high then t.(paused := true) else if level <= s.low then Resumed(c, t) else t
    case Yielding =>
      if !s.paused then s
      else s.(yieldCurrent := Backoff(c, s.yieldCurrent), pauseCount := s.pauseCount + 1,
              totalPause := s.totalPause + s.yieldCurrent)
  }

  class AdaptiveController {
    const config: Config
    var low: int
    var high: int
    var level: int
    var paused: bool
    var yieldCurrent: int
    var pauseCount: int
    var totalPause: int

    function View(): State
      reads this
    {
      State(low, high, level, paused, yieldCurrent, pauseCount, totalPause)
    }

    constructor (high: int, low: int, yieldMin: int, yieldMax: int)
      ensures config.yieldMin == (if yieldMin <= 0 then 50_000 else yieldMin)
      ensures config.yieldMax == (if yieldMax <= 0 then 10_000_000 else yieldMax)
      ensures View() == State(if low <= 0 then 0x8_0000 else low, if high <= 0 then 0x10_0000 else high,
                              0, false, config.yieldMin, 0, 0)
    {
      config := Config(if yieldMin <= 0 then 50_000 else yieldMin, if yieldMax <= 0 then 10_000_000 else yieldMax);
      this.low := if low <= 0 then 0x8_0000 else low;
      this.high := if high <= 0 then 0x10_0000 else high;
      level, paused, pauseCount, totalPause := 0, false, 0, 0;
      yieldCurrent := if yieldMin <= 0 then 50_000 else yieldMin;
    }

    method Pause()
      modifies this
      ensures View() == Next(config, old(View()), Pausing)
    {
      paused := true;
    }

    method Resume()
      modifies this
      ensures View() == Next(config, old(View()), Resuming)
    {
      paused := false;
      yieldCurrent := config.yieldMin;
    }

    /** Reports whether it yielded and for how long it slept. */
    method CheckAndYield() returns (yielded: bool, slept: int)
      modifies this
      ensures View() == Next(config, old(View()), Yielding)
      ensures yielded == old(paused) && slept == if yielded then old(yieldCurrent) else 0
    {
      if !paused {
        return false, 0;
      }
      var yieldTime := yieldCurrent;
      var newYield := Wrap64(yieldTime * 2);
      if newYield > config.yieldMax {
        newYield := config.yieldMax;
      }
      yieldCurrent := newYield;
      pauseCount := pauseCount + 1;
      totalPause := totalPause + yieldTime;
      return true, yieldTime;
    }

    method UpdateLevel(l: int)
      modifies this
      ensures View() == Next(config, old(View()), Level(l))
    {
      level := l;
      if l >= high {
        paused := true;
      } else if l <= low {
        paused := false;
        yieldCurrent := config.yieldMin;
      }
    }

    method SetWatermarks(low: int, high: int)
      modifies this
      ensures View() == Next(config, old(View()), Marks(low, high))
    {
      this.low := low;
      this.high := high;
    }

    method Reset()
      modifies this
      ensures View() == Next(config, old(View()), Resetting)
    {
      yieldCurrent := config.yieldMin;
      paused := false;
    }
  }

  // ---- whole runs ----

  ghost predicate Run(c: Config, states: seq<State>, ops: seq<Op>) {
    && |states| == |ops| + 1
    && !states[0].paused && states[0].yieldCurrent == c.yieldMin
    && states[0].pauseCount == 0 && states[0].totalPause == 0
    && forall i :: 0 <= i < |ops| ==> states[i + 1] == Next(c, states[i], ops[i])
  }

  /** Operation op, under the watermarks in force, pauses or resumes the flow whatever it was before. */
  predicate Pauses(s: State, op: Op) {
    op.Pausing? || (op.Level? && op.level >= s.high)
  }

  predicate Resumes(s: State, op: Op) {
    op.Resuming? || op.Resetting? || (op.Level? && op.level < s.high && op.level <= s.low)
  }

  lemma OneStep(c: Config, s: State, op: Op)
    ensures Next(c, s, op).paused == if Pauses(s, op) then true else if Resumes(s, op) then false else s.paused
    ensures !(Pauses(s, op) && Resumes(s, op))
  {
  }

  /** The flow is paused exactly when some operation paused it and none has resumed it since. */
  lemma {:induction false} PausedIff(c: Config, states: seq<State>, ops: seq<Op>, n: nat)
    requires Run(c, states, ops) && n <= |ops|
    ensures states[n].paused <==>
            exists i :: 0 <= i < n && Pauses(states[i], ops[i]) && forall j :: i < j < n ==> !Resumes(states[j], ops[j])
  {
    if n > 0 {
      PausedIff(c, states, ops, n - 1);
      assert states[n] == Next(c, states[n - 1], ops[n - 1]);
      OneStep(c, states[n - 1], ops[n - 1]);
      hide Next, Pauses, Resumes;
    }
  }

  /** Watermarks that never change stay in force. */
  lemma {:induction false} MarksStay(c: Config, states: seq<State>, ops: seq<Op>, n: nat)
    requires Run(c, states, ops) && n <= |ops| && forall i :: 0 <= i < n ==> !ops[i].Marks?
    ensures states[n].low == states[0].low && states[n].high == states[0].high
  {
    if n > 0 {
      MarksStay(c, states, ops, n - 1);
      assert states[n] == Next(c, states[n - 1], ops[n - 1]);
    }
  }

  /**
   Under level updates and yields alone, the flow is paused exactly when the
   latest level outside the open interval (low, high) was at or above high.
   */
  lemma LatestLevelDecides(c: Config, states: seq<State>, ops: seq<Op>, n: nat)
    requires Run(c, states, ops) && n <= |ops| && states[0].low < states[0].high
    requires forall i :: 0 <= i < n ==> ops[i].Level? || ops[i].Yielding?
    ensures var low, high := states[0].low, states[0].high;
            states[n].paused <==>
            exists i :: 0 <= i < n && ops[i].Level? && ops[i].level >= high &&
                        forall j :: i < j < n && ops[j].Level? ==> low < ops[j].level
  {
    PausedIff(c, states, ops, n);
    forall i | 0 <= i < n ensures states[i].low == states[0].low && states[i].high == states[0].high {
      MarksStay(c, states, ops, i);
    }
  }

  // ---- how long a paused flow sleeps ----

  /** How many yields have slept since the flow was last resumed, before operation n. */
  function YieldsThisPause(states: seq<State>, ops: seq<Op>, n: nat): nat
    requires |states| == |ops| + 1 && n <= |ops|
  {
    if n == 0 then 0
    else if Resumes(states[n - 1], ops[n - 1]) then 0
    else YieldsThisPause(states, ops, n - 1) + if ops[n - 1].Yielding? && states[n - 1].paused then 1 else 0
  }

  /** The yield time after k doublings. */
  function Chain(c: Config, k: nat): int {
    if k == 0 then c.yieldMin else Backoff(c, Chain(c, k - 1))
  }

  /** A flow that is not paused has its yield at the minimum; a paused one has doubled it once per yield. */
  lemma {:induction false} YieldFollowsChain(c: Config, states: seq<State>, ops: seq<Op>, n: nat)
    requires Run(c, states, ops) && n <= |ops|
    ensures !states[n].paused ==> states[n].yieldCurrent == c.yieldMin && YieldsThisPause(states, ops, n) == 0
    ensures states[n].yieldCurrent == Chain(c, YieldsThisPause(states, ops, n))
  {
    if n > 0 {
      YieldFollowsChain(c, states, ops, n - 1);
      assert states[n] == Next(c, states[n - 1], ops[n - 1]);
      hide Backoff;
    }
  }

  function ClosedForm(c: Config, k: nat): int {
    Min(c.yieldMin * Pow2(k), c.yieldMax)
  }

  predicate Positive(c: Config) {
    0 < c.yieldMin <= MAX_INT64 && 0 < c.yieldMax <= MAX_INT64
  }

  lemma BackoffNoWrap(c: Config, y: int)
    requires 0 < 2 * y <= MAX_INT64
    ensures Backoff(c, y) == Min(2 * y, c.yieldMax)
  {
    assert Wrap64(y * 2) == y * 2;
  }

  lemma BackoffWraps(c: Config, y: int)
    requires Positive(c) && y <= MAX_INT64 < 2 * y
    ensures Backoff(c, y) < 0
  {
    assert Wrap64(y * 2) == y * 2 - 0x1_0000_0000_0000_0000;
  }

  lemma ClosedFormPositive(c: Config, k: nat)
    requires Positive(c)
    ensures 0 < ClosedForm(c, k) <= c.yieldMax
  {
    assert c.yieldMin * Pow2(k) > 0;
  }

  /** Doubling follows the closed form as long as no product exceeds an int64. */
  lemma {:induction false} ChainClosed(c: Config, k: nat)
    requires Positive(c) && c.yieldMin <= c.yieldMax && 2 * c.yieldMax <= MAX_INT64
    ensures Chain(c, k) == ClosedForm(c, k)
  {
    if k > 0 {
      ChainClosed(c, k - 1);
      ClosedFormPositive(c, k - 1);
      BackoffNoWrap(c, Chain(c, k - 1));
      MinDoubles(c.yieldMin, Pow2(k - 1), c.yieldMax);
      hide Backoff;
    }
  }

  /** With a larger maximum some doubling wraps to a negative yield. */
  lemma {:induction false} ChainWraps(c: Config, k: nat) returns (n: nat)
    requires Positive(c) && c.yieldMin <= c.yieldMax && 2 * c.yieldMax > MAX_INT64
    requires Chain(c, k) == ClosedForm(c, k)
    ensures Chain(c, n) < 0
    decreases MAX_INT64 - Chain(c, k)
  {
    ClosedFormPositive(c, k);
    var y := Chain(c, k);
    if 2 * y > MAX_INT64 {
      BackoffWraps(c, y);
      n := k + 1;
    } else {
      BackoffNoWrap(c, y);
      MinDoubles(c.yieldMin, Pow2(k), c.yieldMax);
      n := ChainWraps(c, k + 1);
    }
  }

  /**
   The k-th yield of every pause sleeps min(yieldMin * 2^(k-1), yieldMax) if and
   only if yieldMin <= yieldMax and twice yieldMax is an int64.
   */
  lemma ClosedFormIff(c: Config)
    requires Positive(c)
    ensures (forall k: nat :: Chain(c, k) == ClosedForm(c, k)) <==>
            c.yieldMin <= c.yieldMax && 2 * c.yieldMax <= MAX_INT64
  {
    if c.yieldMin > c.yieldMax {
      assert Pow2(0) == 1;
      assert Chain(c, 0) != ClosedForm(c, 0);
    } else if 2 * c.yieldMax <= MAX_INT64 {
      forall k: nat ensures Chain(c, k) == ClosedForm(c, k) {
        ChainClosed(c, k);
      }
    } else {
      assert Pow2(0) == 1;
      assert Chain(c, 0) == ClosedForm(c, 0);
      var n := ChainWraps(c, 0);
      ClosedFormPositive(c, n);
    }
  }

  /** Without a product beyond int64 every yield time is positive and at most the larger of the two settings. */
  lemma {:induction false} ChainPositive(c: Config, k: nat)
    requires Positive(c) && 2 * c.yieldMin <= MAX_INT64 && 2 * c.yieldMax <= MAX_INT64
    ensures 0 < Chain(c, k) && (Chain(c, k) <= c.yieldMin || Chain(c, k) <= c.yieldMax)
  {
    if k > 0 {
      ChainPositive(c, k - 1);
      BackoffNoWrap(c, Chain(c, k - 1));
      hide Backoff;
    }
  }

  /** Some yield time of a long enough pause is negative if and only if doubling one of the two settings overflows. */
  lemma NegativeYieldIff(c: Config)
    requires Positive(c)
    ensures (exists k: nat :: Chain(c, k) < 0) <==> 2 * c.yieldMin > MAX_INT64 || 2 * c.yieldMax > MAX_INT64
  {
    if 2 * c.yieldMin > MAX_INT64 {
      BackoffWraps(c, c.yieldMin);
      assert Chain(c, 0) == c.yieldMin;
      assert Chain(c, 1) < 0;
    } else if 2 * c.yieldMax > MAX_INT64 {
      assert Pow2(0) == 1;
      assert Chain(c, 0) == ClosedForm(c, 0);
      var n := ChainWraps(c, 0);
    } else {
      forall k: nat ensures Chain(c, k) >= 0 {
        ChainPositive(c, k);
      }
    }
  }

  /** In a run, the yield that follows k others of the same pause sleeps min(yieldMin * 2^k, yieldMax). */
  lemma KthYieldSleeps(c: Config, states: seq<State>, ops: seq<Op>, n: nat)
    requires Positive(c) && c.yieldMin <= c.yieldMax && 2 * c.yieldMax <= MAX_INT64
    requires Run(c, states, ops) && n < |ops| && ops[n].Yielding? && states[n].paused
    ensures Slept(states[n], ops[n]) == ClosedForm(c, YieldsThisPause(states, ops, n))
  {
    YieldFollowsChain(c, states, ops, n);
    ChainClosed(c, YieldsThisPause(states, ops, n));
  }

  // ---- statistics ----

  predicate Sleeps(s: State, op: Op) {
    op.Yielding? && s.paused
  }

  /** How long an operation sleeps. */
  function Slept(s: State, op: Op): int {
    if Sleeps(s, op) then s.yieldCurrent else 0
  }

  /** The sleeps of the first n operations, added up. */
  function TotalSlept(states: seq<State>, ops: seq<Op>, n: nat): int
    requires |states| == |ops| + 1 && n <= |ops|
  {
    if n == 0 then 0 else TotalSlept(states, ops, n - 1) + Slept(states[n - 1], ops[n - 1])
  }

  /** How many of the first n operations slept. */
  function SleepCount(states: seq<State>, ops: seq<Op>, n: nat): nat
    requires |states| == |ops| + 1 && n <= |ops|
  {
    if n == 0 then 0 else SleepCount(states, ops, n - 1) + if Sleeps(states[n - 1], ops[n - 1]) then 1 else 0
  }

  /** The statistics are the number and the sum of all sleeps. */
  lemma {:induction false} StatisticsAddUp(c: Config, states: seq<State>, ops: seq<Op>, n: nat)
    requires Run(c, states, ops) && n <= |ops|
    ensures states[n].totalPause == TotalSlept(states, ops, n)
    ensures states[n].pauseCount == SleepCount(states, ops, n)
  {
    if n > 0 {
      StatisticsAddUp(c, states, ops, n - 1);
      assert states[n] == Next(c, states[n - 1], ops[n - 1]);
      hide Backoff;
    }
  }

  /** The watermarks in force are those set last, or the initial ones; the level is the one reported last. */
  lemma {:induction false} MarksInForce(c: Config, states: seq<State>, ops: seq<Op>, i: nat, n: nat)
    requires Run(c, states, ops) && i < n <= |ops|
    ensures ops[i].Marks? && (forall j :: i < j < n ==> !ops[j].Marks?) ==>
              states[n].low == ops[i].low && states[n].high == ops[i].high
    ensures ops[i].Level? && (forall j :: i < j < n ==> !ops[j].Level?) ==> states[n].level == ops[i].level
  {
    assert states[n] == Next(c, states[n - 1], ops[n - 1]);
    if i < n - 1 {
      MarksInForce(c, states, ops, i, n - 1);
    }
    hide Backoff;
  }
}

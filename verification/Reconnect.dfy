/**
 Reconnection: the retrier's attempt loop with its exponential delays, and the
 client's connect loop around it. Dialling is an oracle that says which dial of
 the whole run succeeds.
 */
module Reconnect {
  import opened Delays
  import opened Prelude

  // ---- one run of the retrier ----

  datatype Outcome = Connected | Failed(retryable: bool)

  datatype Stop = Success | Fatal | Exhausted | Stopped

  /** How a run of the retrier ends: the dials made, the waits begun and the context checks made by then. */
  datatype Series = Series(end: Stop, dials: nat, waits: nat, clock: nat)

  function More(s: Series): Series {
    Series(s.end, s.dials + 1, s.waits + 1, s.clock)
  }

  /**
   The attempt loop. Cancellation is counted in looks at the context, one before
   each attempt and one during each wait: look number `cancel` and all later ones
   find it done, and `clock` looks have been made so far. Zero attempts means no limit.
   */
  function Tries(m: nat, dial: nat -> Outcome, cancel: nat, attempt: nat, from: nat, clock: nat): (s: Series)
    ensures s.clock > clock
    decreases if clock < cancel then cancel - clock else 0
  {
    if clock >= cancel then Series(Stopped, 0, 0, clock + 1)
    else if m > 0 && attempt >= m then Series(Exhausted, 0, 0, clock + 1)
    else match dial(from)
      case Connected => Series(Success, 1, 0, clock + 1)
      case Failed(retryable) =>
        if !retryable then Series(Fatal, 1, 0, clock + 1)
        else if clock + 1 >= cancel then Series(Stopped, 1, 1, clock + 2)
        else More(Tries(m, dial, cancel, attempt + 1, from + 1, clock + 2))
  }

  /**
   What that amounts to: all dials but the last are retryable failures; success
   and a fatal error are decided by the last one; a limit of m attempts is used
   up exactly; the run is stopped if and only if it looked at a cancelled
   context; every retryable failure begins a wait, the last one included.
   */
  lemma {:induction false} TriesMeans(m: nat, dial: nat -> Outcome, cancel: nat, attempt: nat, from: nat, clock: nat)
    requires m > 0 ==> attempt <= m
    ensures var s := Tries(m, dial, cancel, attempt, from, clock);
            && (forall k :: from <= k < from + s.dials - 1 ==> dial(k) == Failed(true))
            && (s.end == Success <==> s.dials > 0 && dial(from + s.dials - 1) == Connected)
            && (s.end == Fatal <==> s.dials > 0 && dial(from + s.dials - 1) == Failed(false))
            && (m > 0 ==> s.dials <= m - attempt)
            && (s.end == Exhausted ==> m > 0 && s.dials == m - attempt)
            && (s.end == Stopped <==> s.clock > cancel)
            && s.waits == (if s.end == Success || s.end == Fatal then s.dials - 1 else s.dials)
            && s.clock <= clock + 2 * s.dials + 1
    decreases if clock < cancel then cancel - clock else 0
  {
    if clock + 1 < cancel && !(m > 0 && attempt >= m) && dial(from) == Failed(true) {
      TriesMeans(m, dial, cancel, attempt + 1, from + 1, clock + 2);
    }
  }

  /** The delay that follows those already waited. */
  function NextDelay(c: Config, draws: nat -> Draw, delays: seq<int>): (d: int)
    requires delays != [] ==> delays[|delays| - 1] == DelayAt(c, draws, |delays| - 1)
    ensures d == DelayAt(c, draws, |delays|)
  {
    if delays == [] then c.initialDelay else CalculateDelay(c, delays[|delays| - 1], draws(|delays|))
  }

  /** DoWithResult: result, dials and context checks as specified, and the exact sequence of delays. */
  method Do(c: Config, dial: nat -> Outcome, draws: nat -> Draw, cancel: nat, from: nat, clock: nat)
    returns (s: Series, delays: seq<int>)
    ensures s == Tries(c.maxAttempts, dial, cancel, 0, from, clock)
    ensures |delays| == s.waits && forall k :: 0 <= k < |delays| ==> delays[k] == DelayAt(c, draws, k)
  {
    hide DelayAt, NextDelay;
    var attempt: nat, now: nat := 0, clock;
    delays := [];
    ghost var whole := Tries(c.maxAttempts, dial, cancel, 0, from, clock);
    while true
      invariant |delays| == attempt
      invariant forall k :: 0 <= k < attempt ==> delays[k] == DelayAt(c, draws, k)
      invariant var rest := Tries(c.maxAttempts, dial, cancel, attempt, from + attempt, now);
                whole == Series(rest.end, attempt + rest.dials, attempt + rest.waits, rest.clock)
      decreases if now < cancel then cancel - now else 0
    {
      if now >= cancel {
        return Series(Stopped, attempt, attempt, now + 1), delays;
      }
      if c.maxAttempts > 0 && attempt >= c.maxAttempts {
        return Series(Exhausted, attempt, attempt, now + 1), delays;
      }
      var outcome := dial(from + attempt);
      if outcome == Connected {
        return Series(Success, attempt + 1, attempt, now + 1), delays;
      }
      if !outcome.retryable {
        return Series(Fatal, attempt + 1, attempt, now + 1), delays;
      }
      var delay := NextDelay(c, draws, delays);
      delays := delays + [delay];
      if now + 1 >= cancel {
        return Series(Stopped, attempt + 1, attempt + 1, now + 2), delays;
      }
      attempt, now := attempt + 1, now + 2;
    }
  }

  // ---- the connect loop ----

  /**
   Who answers: the outcome of each dial, all of whose errors are retryable,
   whether each round finds cached 0-RTT state, and when the context is cancelled.
   */
  datatype Env = Env(dial: nat -> bool, cached: nat -> bool, cancel: nat)

  function Answers(env: Env): nat -> Outcome {
    (k: nat) => if env.dial(k) then Connected else Failed(true)
  }

  /** One round: with cached state a 0-RTT series first, and a regular series if that fails. */
  function Round(m: nat, env: Env, round: nat, from: nat, clock: nat): (t: Series)
    ensures t.clock > clock
  {
    var t := Tries(m, Answers(env), env.cancel, 0, from, clock);
    if env.cached(round) && t.end != Success then
      var u := Tries(m, Answers(env), env.cancel, 0, from + t.dials, t.clock);
      Series(u.end, t.dials + u.dials, t.waits + u.waits, u.clock)
    else t
  }

  /** A cancelled loop may have been connected and waiting for a reconnection request. */
  datatype End = GaveUp | Canceled(connected: bool)

  /**
   How the loop ended, which rounds succeeded, how many dials it made and how many
   looks at the context had been made by then; a round cut short is not listed.
   */
  datatype Result = Result(end: End, rounds: seq<bool>, dials: nat, clock: nat)

  /** The connect loop from a given round, dial, look at the context and count of failed rounds on. */
  function Loop(m: nat, env: Env, round: nat, from: nat, clock: nat, tries: nat): Result
    decreases if clock < env.cancel then env.cancel - clock else 0
  {
    if clock >= env.cancel then Result(Canceled(false), [], 0, clock + 1)
    else
      var t := Round(m, env, round, from, clock + 1);
      if t.end == Success && t.clock >= env.cancel then Result(Canceled(true), [true], t.dials, t.clock + 1)
      else if t.end == Success then Then(true, t.dials, Loop(m, env, round + 1, from + t.dials, t.clock + 1, 0))
      else if t.clock >= env.cancel then Result(Canceled(false), [], t.dials, t.clock + 1)
      else if m > 0 && tries >= m then Result(GaveUp, [false], t.dials, t.clock + 1)
      else Then(false, t.dials, Loop(m, env, round + 1, from + t.dials, t.clock + 1, tries + 1))
  }

  function Then(ok: bool, dials: nat, rest: Result): Result {
    Result(rest.end, [ok] + rest.rounds, dials + rest.dials, rest.clock)
  }

  class ConnectionManager {
    const retry: Config
    var connected: bool

    constructor (maxReconnectTries: int, reconnectInterval: int)
      requires reconnectInterval <= MAX_INT64
      ensures retry == Normalized(maxReconnectTries, reconnectInterval, 300_000_000_000, 2.0, 0.1) && !connected
    {
      retry := Normalized(maxReconnectTries, reconnectInterval, 300_000_000_000, 2.0, 0.1);
      connected := false;
    }

    /** One round of the loop: a 0-RTT series if there is cached state, and a regular one unless that succeeded. */
    method DialRound(env: Env, draws: nat -> Draw, round: nat, from: nat, clock: nat) returns (t: Series)
      ensures t == Round(retry.maxAttempts, env, round, from, clock)
    {
      var first, _ := Do(retry, Answers(env), draws, env.cancel, from, clock);
      t := first;
      if env.cached(round) && t.end != Success {
        var u, _ := Do(retry, Answers(env), draws, env.cancel, from + t.dials, t.clock);
        t := Series(u.end, t.dials + u.dials, t.waits + u.waits, u.clock);
      }
    }

    /** MaxReconnectTries limits the attempts of a series as well as the failed rounds in a row; zero limits neither. */
    method RunConnectLoop(env: Env, draws: nat -> Draw) returns (r: Result)
      requires !connected
      modifies this
      ensures r == Loop(retry.maxAttempts, env, 0, 0, 0, 0)
      ensures connected <==> r.end == Canceled(true)
    {
      hide Round, Loop;
      var m := retry.maxAttempts;
      var tries: nat, round: nat, dials: nat, clock: nat := 0, 0, 0, 0;
      var rounds: seq<bool> := [];
      ghost var rest := Loop(m, env, 0, 0, 0, 0);
      while true
        invariant !connected && rest == Loop(m, env, round, dials, clock, tries)
        invariant Loop(m, env, 0, 0, 0, 0) == Prefixed(rounds, dials, rest)
        decreases if clock < env.cancel then env.cancel - clock else 0
      {
        LoopStep(m, env, round, dials, clock, tries);
        if clock >= env.cancel {
          return Result(Canceled(false), rounds, dials, clock + 1);
        }
        var t := DialRound(env, draws, round, dials, clock + 1);
        ThenPrefixed(rounds, dials, t.end == Success, t.dials);
        dials := dials + t.dials;
        if t.end != Success {
          if t.clock >= env.cancel {
            return Result(Canceled(false), rounds, dials, t.clock + 1);
          }
          rounds := rounds + [false];
          if m > 0 && tries >= m {
            return Result(GaveUp, rounds, dials, t.clock + 1);
          }
          tries := tries + 1;
        } else {
          rounds := rounds + [true];
          tries := 0;
          connected := true;
          if t.clock >= env.cancel {
            return Result(Canceled(true), rounds, dials, t.clock + 1);
          }
          connected := false;
        }
        round, clock := round + 1, t.clock + 1;
        rest := Loop(m, env, round, dials, clock, tries);
      }
    }
  }

  /** A result with the rounds and dials that came before it. */
  function Prefixed(rounds: seq<bool>, dials: nat, rest: Result): Result {
    Result(rest.end, rounds + rest.rounds, dials + rest.dials, rest.clock)
  }

  lemma ThenPrefixed(rounds: seq<bool>, dials: nat, ok: bool, more: nat)
    ensures forall rest: Result ::
              Prefixed(rounds, dials, Then(ok, more, rest)) == Prefixed(rounds + [ok], dials + more, rest)
  {
    assert forall rest: Result :: rounds + ([ok] + rest.rounds) == (rounds + [ok]) + rest.rounds;
  }

  /** One turn of the loop: what it makes of its round `t` and of the `rest` of the run. */
  function Turn(m: nat, cancel: nat, clock: nat, tries: nat, t: Series, rest: Result): Result {
    if clock >= cancel then Result(Canceled(false), [], 0, clock + 1)
    else if t.end == Success then
      if t.clock >= cancel then Result(Canceled(true), [true], t.dials, t.clock + 1) else Then(true, t.dials, rest)
    else if t.clock >= cancel then Result(Canceled(false), [], t.dials, t.clock + 1)
    else if m > 0 && tries >= m then Result(GaveUp, [false], t.dials, t.clock + 1)
    else Then(false, t.dials, rest)
  }

  function NextTries(tries: nat, t: Series): nat {
    if t.end == Success then 0 else tries + 1
  }

  lemma LoopStep(m: nat, env: Env, round: nat, from: nat, clock: nat, tries: nat)
    ensures var t := Round(m, env, round, from, clock + 1);
            var rest := Loop(m, env, round + 1, from + t.dials, t.clock + 1, NextTries(tries, t));
            Loop(m, env, round, from, clock, tries) == Turn(m, env.cancel, clock, tries, t, rest)
  {
  }

  // ---- what the loop amounts to ----

  function CachedRounds(cached: nat -> bool, round: nat, n: nat): (k: nat)
    ensures k <= n
    decreases n
  {
    if n == 0 then 0 else (if cached(round) then 1 else 0) + CachedRounds(cached, round + 1, n - 1)
  }

  function PerRound(m: nat, cached: bool): nat {
    if cached then m + m else m
  }

  ghost predicate NothingConnects(env: Env) {
    forall k :: !env.dial(k)
  }

  /** A round of failures makes its full number of dials unless it is stopped. */
  lemma FailedRound(m: nat, env: Env, round: nat, from: nat, clock: nat)
    requires m > 0 && NothingConnects(env)
    ensures var t := Round(m, env, round, from, clock);
            && t.end != Success && t.dials <= PerRound(m, env.cached(round))
            && (t.clock <= env.cancel ==> t.dials == PerRound(m, env.cached(round)))
            && t.clock <= clock + 4 * m + 2
  {
    var t := Tries(m, Answers(env), env.cancel, 0, from, clock);
    TriesMeans(m, Answers(env), env.cancel, 0, from, clock);
    TriesMeans(m, Answers(env), env.cancel, 0, from + t.dials, t.clock);
    hide Tries;
  }

  /** The dials of n rounds of failures. */
  function FullDials(m: nat, cached: nat -> bool, round: nat, n: nat): nat
    decreases n
  {
    if n == 0 then 0 else PerRound(m, cached(round)) + FullDials(m, cached, round + 1, n - 1)
  }

  /** At most this many looks at the context are made in n rounds of failures. */
  function Looks(m: nat, n: nat): nat {
    if n == 0 then 0 else 4 * m + 4 + Looks(m, n - 1)
  }

  lemma {:induction false} FullDialsAre(m: nat, cached: nat -> bool, round: nat, n: nat)
    ensures FullDials(m, cached, round, n) == m * (n + CachedRounds(cached, round, n))
    decreases n
  {
    if n > 0 {
      FullDialsAre(m, cached, round + 1, n - 1);
      var k := CachedRounds(cached, round + 1, n - 1);
      Times(m, n - 1 + k, if cached(round) then 2 else 1);
    }
  }

  lemma {:induction false} LooksAre(m: nat, n: nat)
    ensures Looks(m, n) == n * (4 * m + 4)
  {
    if n > 0 {
      LooksAre(m, n - 1);
      Times(4 * m + 4, n - 1, 1);
    }
  }

  lemma Times(m: nat, n: nat, k: nat)
    ensures m * (n + k) == m * n + m * k && m * 1 == m && m * 2 == m + m && (k <= n ==> m * k <= m * n)
  {
  }

  lemma Unfolded(m: nat, cached: nat -> bool, round: nat, n: nat)
    requires n > 0
    ensures FullDials(m, cached, round, n) == PerRound(m, cached(round)) + FullDials(m, cached, round + 1, n - 1)
    ensures Looks(m, n) == 4 * m + 4 + Looks(m, n - 1)
    ensures n == 1 ==> FullDials(m, cached, round + 1, n - 1) == 0
  {
  }

  lemma FailedTries(tries: nat, t: Series)
    requires t.end != Success
    ensures NextTries(tries, t) == tries + 1
  {
  }

  ghost predicate FailBound(r: Result, n: nat, full: nat, cancel: nat, latest: nat) {
    && r.dials <= full
    && (r.end == GaveUp ==> |r.rounds| == n && r.dials == full)
    && (r.end != GaveUp ==> r.end == Canceled(false) && cancel < latest)
  }

  lemma FailTurn(m: nat, cancel: nat, clock: nat, tries: nat, t: Series, rest: Result,
                 here: nat, later: nat, looks: nat)
    requires m > 0 && tries <= m && t.end != Success && t.clock <= clock + 4 * m + 3
    requires t.dials <= here && (t.clock <= cancel ==> t.dials == here)
    requires tries < m ==> FailBound(rest, m - tries, later, cancel, t.clock + 1 + looks)
    requires tries == m ==> later == 0
    ensures FailBound(Turn(m, cancel, clock, tries, t, rest), m + 1 - tries, here + later,
                      cancel, clock + 4 * m + 4 + looks)
  {
  }

  /**
   When every dial fails, a loop that is not cancelled gives up after exactly
   m + 1 rounds and m dials per round, m more per round with cached state; one
   that is cancelled has made no more.
   */
  lemma {:induction false} FailureRun(m: nat, env: Env, round: nat, from: nat, clock: nat, tries: nat)
    requires m > 0 && tries <= m && NothingConnects(env)
    ensures var n := m + 1 - tries;
            FailBound(Loop(m, env, round, from, clock, tries), n, FullDials(m, env.cached, round, n),
                      env.cancel, clock + Looks(m, n))
    decreases m - tries
  {
    hide *;
    FailedRound(m, env, round, from, clock + 1);
    LoopStep(m, env, round, from, clock, tries);
    Unfolded(m, env.cached, round, m + 1 - tries);
    var t := Round(m, env, round, from, clock + 1);
    var rest := Loop(m, env, round + 1, from + t.dials, t.clock + 1, NextTries(tries, t));
    FailedTries(tries, t);
    if tries < m {
      FailureRun(m, env, round + 1, from + t.dials, t.clock + 1, tries + 1);
    }
    FailTurn(m, env.cancel, clock, tries, t, rest, PerRound(m, env.cached(round)),
             FullDials(m, env.cached, round + 1, m - tries), Looks(m, m - tries));
  }

  /**
   With MaxReconnectTries = m and every dial failing: exactly m + 1 rounds unless
   cancelled before that, exactly m(m + 1) dials without cached state, and never
   more than 2m(m + 1), cancelled or not.
   */
  lemma ReconnectBound(m: nat, env: Env)
    requires m > 0 && NothingConnects(env)
    ensures var r := Loop(m, env, 0, 0, 0, 0);
            && (env.cancel >= (m + 1) * (4 * m + 4) ==> r.end == GaveUp)
            && (r.end == GaveUp ==> |r.rounds| == m + 1)
            && (r.end == GaveUp && (forall i :: !env.cached(i)) ==> r.dials == m * (m + 1))
            && r.dials <= 2 * m * (m + 1)
  {
    FailureRun(m, env, 0, 0, 0, 0);
    FullDialsAre(m, env.cached, 0, m + 1);
    LooksAre(m, m + 1);
    var k := CachedRounds(env.cached, 0, m + 1);
    if forall i :: !env.cached(i) {
      NeverCached(env.cached, 0, m + 1);
    }
    hide Loop, CachedRounds, FullDials, Looks;
    Times(m, m + 1, k);
    Doubled(m, m + 1);
  }

  lemma Doubled(m: nat, n: nat)
    ensures 2 * m * n == m * n + m * n
  {
  }

  lemma {:induction false} NeverCached(cached: nat -> bool, round: nat, n: nat)
    requires forall i :: !cached(i)
    ensures CachedRounds(cached, round, n) == 0
    decreases n
  {
    if n > 0 {
      NeverCached(cached, round + 1, n - 1);
    }
  }

  /** How many rounds in a row have failed just before round i, when `before` had failed at the start. */
  function FailedInARow(before: nat, rounds: seq<bool>, i: nat): nat
    requires i <= |rounds|
  {
    if i == 0 then before else if rounds[i - 1] then 0 else FailedInARow(before, rounds, i - 1) + 1
  }

  lemma {:induction false} FailedShift(before: nat, ok: bool, rest: seq<bool>, i: nat)
    requires i <= |rest|
    ensures FailedInARow(before, [ok] + rest, i + 1) == FailedInARow(if ok then 0 else before + 1, rest, i)
  {
    if i > 0 {
      FailedShift(before, ok, rest, i - 1);
    }
  }

  /** The streak stays within the limit before every round, and exceeds it at the end exactly when the loop gives up. */
  ghost predicate StreakRight(m: nat, tries: nat, r: Result) {
    && (m > 0 ==> forall i :: 0 <= i < |r.rounds| ==> FailedInARow(tries, r.rounds, i) <= m)
    && (r.end == GaveUp <==> m > 0 && FailedInARow(tries, r.rounds, |r.rounds|) == m + 1)
    && (r.end == Canceled(true) ==> FailedInARow(tries, r.rounds, |r.rounds|) == 0)
  }

  lemma StreakThen(m: nat, tries: nat, ok: bool, dials: nat, rest: Result)
    requires m > 0 ==> tries <= m
    requires StreakRight(m, if ok then 0 else tries + 1, rest)
    ensures StreakRight(m, tries, Then(ok, dials, rest))
  {
    var r, failed := Then(ok, dials, rest), if ok then 0 else tries + 1;
    forall i | 0 <= i <= |rest.rounds|
      ensures FailedInARow(tries, r.rounds, i + 1) == FailedInARow(failed, rest.rounds, i)
    {
      FailedShift(tries, ok, rest.rounds, i);
    }
    forall i | 0 <= i < |r.rounds| && m > 0 ensures FailedInARow(tries, r.rounds, i) <= m {
      if i > 0 {
        assert FailedInARow(tries, r.rounds, (i - 1) + 1) == FailedInARow(failed, rest.rounds, i - 1);
      }
    }
  }

  lemma LastRound(m: nat, tries: nat, r: Result)
    requires m > 0 ==> tries <= m
    requires || (r.end == Canceled(false) && r.rounds == []) || (r.end == Canceled(true) && r.rounds == [true])
             || (r.end == GaveUp && r.rounds == [false] && m > 0 && tries == m)
    ensures StreakRight(m, tries, r)
  {
    assert r.rounds != [] ==>
        FailedInARow(tries, r.rounds, 1) == if r.rounds[0] then 0 else FailedInARow(tries, r.rounds, 0) + 1;
  }

  lemma StreakTurn(m: nat, cancel: nat, clock: nat, tries: nat, t: Series, rest: Result)
    requires m > 0 ==> tries <= m
    requires clock < cancel && (m > 0 ==> NextTries(tries, t) <= m) ==> StreakRight(m, NextTries(tries, t), rest)
    ensures StreakRight(m, tries, Turn(m, cancel, clock, tries, t, rest))
  {
    hide StreakRight;
    var ok := t.end == Success;
    if clock < cancel && t.clock < cancel && (ok || m == 0 || tries < m) {
      StreakThen(m, tries, ok, t.dials, rest);
    } else {
      LastRound(m, tries, Turn(m, cancel, clock, tries, t, rest));
    }
  }

  /**
   In every run, whatever the dials do and whenever it is cancelled: at most m
   rounds in a row have failed before any round begins, and the loop gives up if
   and only if it ends with m + 1 failures in a row. Without a limit it never does.
   */
  lemma {:induction false} GivesUpAtFirstStreak(m: nat, env: Env, round: nat, from: nat, clock: nat, tries: nat)
    requires m > 0 ==> tries <= m
    ensures StreakRight(m, tries, Loop(m, env, round, from, clock, tries))
    decreases if clock < env.cancel then env.cancel - clock else 0
  {
    LoopStep(m, env, round, from, clock, tries);
    hide Round, Loop, StreakRight, Turn;
    var t := Round(m, env, round, from, clock + 1);
    var failed := NextTries(tries, t);
    if clock < env.cancel && (m > 0 ==> failed <= m) {
      GivesUpAtFirstStreak(m, env, round + 1, from + t.dials, t.clock + 1, failed);
    }
    StreakTurn(m, env.cancel, clock, tries, t, Loop(m, env, round + 1, from + t.dials, t.clock + 1, failed));
  }

  // ---- rounds succeed exactly when a dial connects ----

  /** How many of n dials from number `from` on connect. */
  function Connects(dial: nat -> bool, from: nat, n: nat): nat {
    if n == 0 then 0 else Connects(dial, from, n - 1) + if dial(from + n - 1) then 1 else 0
  }

  function Successes(rounds: seq<bool>): nat {
    if rounds == [] then 0 else (if rounds[0] then 1 else 0) + Successes(rounds[1..])
  }

  lemma {:induction false} ConnectsAdd(dial: nat -> bool, from: nat, a: nat, b: nat)
    ensures Connects(dial, from, a + b) == Connects(dial, from, a) + Connects(dial, from + a, b)
  {
    if b > 0 {
      ConnectsAdd(dial, from, a, b - 1);
    }
  }

  lemma {:induction false} NoneConnect(dial: nat -> bool, from: nat, n: nat)
    requires forall k :: from <= k < from + n ==> !dial(k)
    ensures Connects(dial, from, n) == 0
  {
    if n > 0 {
      NoneConnect(dial, from, n - 1);
    }
  }

  /** What a stretch of dials, ended by `ok`, has to do with the dials that connect. */
  ghost predicate Ended(dial: nat -> bool, from: nat, n: nat, ok: bool) {
    && (ok <==> n > 0 && dial(from + n - 1))
    && Connects(dial, from, n) == if ok then 1 else 0
  }

  lemma SeriesEnds(m: nat, env: Env, from: nat, clock: nat)
    ensures var t := Tries(m, Answers(env), env.cancel, 0, from, clock);
            Ended(env.dial, from, t.dials, t.end == Success)
  {
    var t := Tries(m, Answers(env), env.cancel, 0, from, clock);
    TriesMeans(m, Answers(env), env.cancel, 0, from, clock);
    hide Tries;
    if t.dials > 0 {
      forall k | from <= k < from + (t.dials - 1) ensures !env.dial(k) {
        assert Answers(env)(k) == Failed(true);
      }
      NoneConnect(env.dial, from, t.dials - 1);
    }
  }

  /** A round succeeds if and only if its last dial connected, and no other dial of it does. */
  lemma RoundEnds(m: nat, env: Env, round: nat, from: nat, clock: nat)
    ensures var t := Round(m, env, round, from, clock);
            Ended(env.dial, from, t.dials, t.end == Success)
  {
    hide Tries;
    var t := Tries(m, Answers(env), env.cancel, 0, from, clock);
    SeriesEnds(m, env, from, clock);
    if env.cached(round) && t.end != Success {
      var u := Tries(m, Answers(env), env.cancel, 0, from + t.dials, t.clock);
      SeriesEnds(m, env, from + t.dials, t.clock);
      ConnectsAdd(env.dial, from, t.dials, u.dials);
    }
  }

  ghost predicate RoundsRight(dial: nat -> bool, from: nat, r: Result) {
    && Successes(r.rounds) == Connects(dial, from, r.dials)
    && (r.end == Canceled(true) ==> r.dials > 0 && dial(from + r.dials - 1))
  }

  lemma RoundsTurn(m: nat, env: Env, clock: nat, tries: nat, from: nat, t: Series, rest: Result)
    requires clock < env.cancel ==> Ended(env.dial, from, t.dials, t.end == Success)
    requires clock < env.cancel ==> RoundsRight(env.dial, from + t.dials, rest)
    ensures RoundsRight(env.dial, from, Turn(m, env.cancel, clock, tries, t, rest))
  {
    ConnectsAdd(env.dial, from, t.dials, rest.dials);
    assert ([true] + rest.rounds)[1..] == rest.rounds && ([false] + rest.rounds)[1..] == rest.rounds;
    assert Connects(env.dial, from, 0) == 0 && Successes([]) == 0;
    assert [true][1..] == [] && [false][1..] == [];
    hide Connects;
  }

  /**
   In every run the rounds that succeeded are as many as the dials that
   connected, and a loop cancelled while connected connected with its last dial.
   */
  lemma {:induction false} RoundsAreConnections(m: nat, env: Env, round: nat, from: nat, clock: nat, tries: nat)
    ensures RoundsRight(env.dial, from, Loop(m, env, round, from, clock, tries))
    decreases if clock < env.cancel then env.cancel - clock else 0
  {
    hide *;
    LoopStep(m, env, round, from, clock, tries);
    RoundEnds(m, env, round, from, clock + 1);
    var t := Round(m, env, round, from, clock + 1);
    var rest := Loop(m, env, round + 1, from + t.dials, t.clock + 1, NextTries(tries, t));
    if clock < env.cancel {
      RoundsAreConnections(m, env, round + 1, from + t.dials, t.clock + 1, NextTries(tries, t));
    }
    RoundsTurn(m, env, clock, tries, from, t, rest);
  }

  /** The loop ends as cancelled if and only if it has looked at a cancelled context. */
  lemma {:induction false} CanceledIff(m: nat, env: Env, round: nat, from: nat, clock: nat, tries: nat)
    ensures var r := Loop(m, env, round, from, clock, tries); r.end.Canceled? <==> r.clock > env.cancel
    decreases if clock < env.cancel then env.cancel - clock else 0
  {
    LoopStep(m, env, round, from, clock, tries);
    hide Round, Loop;
    var t := Round(m, env, round, from, clock + 1);
    if clock < env.cancel {
      CanceledIff(m, env, round + 1, from + t.dials, t.clock + 1, NextTries(tries, t));
    }
  }
}

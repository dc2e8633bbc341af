/** The circuit breaker: its sequential behaviour over whole runs, and its state changes under every interleaving. */
module Breaker {
  datatype Status = Closed | Open | HalfOpen

  datatype Config = Config(failureThreshold: int, successThreshold: int, timeout: int, maxRequests: int)

  /** NewBreaker replaces values that are not positive by its defaults. */
  function Normalized(c: Config): (r: Config)
    ensures Usable(r)
    ensures r.failureThreshold == if c.failureThreshold > 0 then c.failureThreshold else 5
    ensures r.successThreshold == if c.successThreshold > 0 then c.successThreshold else 3
    ensures r.timeout == if c.timeout > 0 then c.timeout else 30_000_000_000
    ensures r.maxRequests == if c.maxRequests > 0 then c.maxRequests else 1
  {
    Config(if c.failureThreshold <= 0 then 5 else c.failureThreshold,
           if c.successThreshold <= 0 then 3 else c.successThreshold,
           if c.timeout <= 0 then 30_000_000_000 else c.timeout,
           if c.maxRequests <= 0 then 1 else c.maxRequests)
  }

  predicate Usable(c: Config) {
    c.failureThreshold > 0 && c.successThreshold > 0 && c.timeout > 0 && c.maxRequests > 0
  }

  datatype State = State(status: Status, failures: int, successes: int, requests: int, lastFailure: int)

  datatype Verdict = Admitted | CircuitOpen | TooManyRequests

  function Transition(s: State, to: Status): State {
    if s.status == to then s else State(to, 0, 0, 0, s.lastFailure)
  }

  function Allowed(c: Config, s: State, now: int): (State, Verdict) {
    match s.status
    case Closed => (s, Admitted)
    case Open =>
      if now - s.lastFailure > c.timeout then (Transition(s, HalfOpen), Admitted) else (s, CircuitOpen)
    case HalfOpen =>
      (s.(requests := s.requests + 1), if s.requests + 1 > c.maxRequests then TooManyRequests else Admitted)
  }

  function AfterSuccess(c: Config, s: State): State {
    match s.status
    case Closed => s.(failures := 0)
    case Open => s
    case HalfOpen =>
      var counted := s.(successes := s.successes + 1);
      if counted.successes >= c.successThreshold then Transition(counted, Closed) else counted
  }

  function AfterFailure(c: Config, s: State, now: int): State {
    var stamped := s.(lastFailure := now);
    match s.status
    case Closed =>
      var counted := stamped.(failures := s.failures + 1);
      if counted.failures >= c.failureThreshold then Transition(counted, Open) else counted
    case Open => stamped
    case HalfOpen => Transition(stamped, Open)
  }

  /** One Execute: when it is called, how the protected function ends, and when a failure is recorded. */
  datatype Call = Call(now: int, ok: bool, done: int)

  function Record(c: Config, s: State, call: Call): State {
    if call.ok then AfterSuccess(c, s) else AfterFailure(c, s, call.done)
  }

  function Executed(c: Config, s: State, call: Call): (State, Verdict) {
    var (t, verdict) := Allowed(c, s, call.now);
    if verdict.Admitted? then (Record(c, t, call), Admitted) else (t, verdict)
  }

  class CircuitBreaker {
    const config: Config
    var status: Status
    var failures: int
    var successes: int
    var requests: int
    var lastFailure: int

    function View(): State
      reads this
    {
      State(status, failures, successes, requests, lastFailure)
    }

    constructor (c: Config)
      ensures config == Normalized(c) && View() == State(Closed, 0, 0, 0, 0)
    {
      config := Normalized(c);
      status := Closed;
      failures, successes, requests, lastFailure := 0, 0, 0, 0;
    }

    method MoveTo(to: Status)
      modifies this
      ensures View() == Transition(old(View()), to)
    {
      if status != to {
        status := to;
        failures := 0;
        successes := 0;
        requests := 0;
      }
    }

    method Allow(now: int) returns (v: Verdict)
      modifies this
      ensures (View(), v) == Allowed(config, old(View()), now)
    {
      if status == Closed {
        return Admitted;
      }
      if status == Open {
        if now - lastFailure > config.timeout {
          MoveTo(HalfOpen);
          return Admitted;
        }
        return CircuitOpen;
      }
      requests := requests + 1;
      v := if requests > config.maxRequests then TooManyRequests else Admitted;
    }

    method RecordSuccess()
      modifies this
      ensures View() == AfterSuccess(config, old(View()))
    {
      if status == Closed {
        failures := 0;
      } else if status == HalfOpen {
        successes := successes + 1;
        if successes >= config.successThreshold {
          MoveTo(Closed);
        }
      }
    }

    method RecordFailure(now: int)
      modifies this
      ensures View() == AfterFailure(config, old(View()), now)
    {
      lastFailure := now;
      if status == Closed {
        failures := failures + 1;
        if failures >= config.failureThreshold {
          MoveTo(Open);
        }
      } else if status == HalfOpen {
        MoveTo(Open);
      }
    }

    method Execute(call: Call) returns (v: Verdict)
      modifies this
      ensures (View(), v) == Executed(config, old(View()), call)
    {
      v := Allow(call.now);
      if v.Admitted? {
        if call.ok {
          RecordSuccess();
        } else {
          RecordFailure(call.done);
        }
      }
    }

    method Reset()
      modifies this
      ensures View() == Transition(old(View()), Closed)
    {
      MoveTo(Closed);
    }
  }

  // ---- sequential runs of Execute ----

  function After(c: Config, s: State, calls: seq<Call>): State {
    if calls == [] then s else Executed(c, After(c, s, calls[..|calls| - 1]), calls[|calls| - 1]).0
  }

  function Fresh(): State {
    State(Closed, 0, 0, 0, 0)
  }

  /** The outcomes of the calls admitted since the breaker entered its present status, from the history alone. */
  function Recent(c: Config, calls: seq<Call>): seq<bool> {
    if calls == [] then []
    else
      var before := calls[..|calls| - 1];
      NextRecent(c, After(c, Fresh(), before), Recent(c, before), calls[|calls| - 1])
  }

  function NextRecent(c: Config, s: State, recent: seq<bool>, call: Call): seq<bool> {
    var (entered, verdict) := Allowed(c, s, call.now);
    var earlier := if entered.status == s.status then recent else [];
    if !verdict.Admitted? then earlier
    else if Record(c, entered, call).status != entered.status then []
    else earlier + [call.ok]
  }

  /** How many consecutive failures a list of outcomes ends with. */
  function Streak(outcomes: seq<bool>): nat {
    if outcomes == [] || outcomes[|outcomes| - 1] then 0 else 1 + Streak(outcomes[..|outcomes| - 1])
  }

  /** What each status says about the recent outcomes. */
  ghost predicate HistoryInv(c: Config, s: State, recent: seq<bool>) {
    match s.status
    case Closed => s.failures == Streak(recent) < c.failureThreshold && s.successes == 0 && s.requests == 0
    case Open => recent == []
    case HalfOpen =>
      && (forall i :: 0 <= i < |recent| ==> recent[i])
      && s.successes == |recent| < c.successThreshold
      && s.requests >= 0
      && |recent| == 1 + if s.requests <= c.maxRequests then s.requests else c.maxRequests
  }

  lemma StreakSnoc(outcomes: seq<bool>, ok: bool)
    ensures Streak(outcomes + [ok]) == if ok then 0 else Streak(outcomes) + 1
  {
    assert (outcomes + [ok])[..|outcomes|] == outcomes;
  }

  lemma ClosedStep(c: Config, s: State, recent: seq<bool>, call: Call)
    requires Usable(c) && s.status.Closed? && HistoryInv(c, s, recent)
    ensures HistoryInv(c, Executed(c, s, call).0, NextRecent(c, s, recent, call))
  {
    StreakSnoc(recent, call.ok);
    hide Streak;
  }

  lemma OpenStep(c: Config, s: State, recent: seq<bool>, call: Call)
    requires Usable(c) && s.status.Open? && HistoryInv(c, s, recent)
    ensures HistoryInv(c, Executed(c, s, call).0, NextRecent(c, s, recent, call))
  {
    assert Streak([]) == 0;
    hide Streak;
  }

  lemma HalfOpenStep(c: Config, s: State, recent: seq<bool>, call: Call)
    requires Usable(c) && s.status.HalfOpen? && HistoryInv(c, s, recent)
    ensures HistoryInv(c, Executed(c, s, call).0, NextRecent(c, s, recent, call))
  {
    assert Streak([]) == 0;
    hide Streak;
  }

  lemma HistoryStep(c: Config, s: State, recent: seq<bool>, call: Call)
    requires Usable(c) && HistoryInv(c, s, recent)
    ensures HistoryInv(c, Executed(c, s, call).0, NextRecent(c, s, recent, call))
  {
    hide HistoryInv, Executed, NextRecent;
    match s.status
    case Closed => ClosedStep(c, s, recent, call);
    case Open => OpenStep(c, s, recent, call);
    case HalfOpen => HalfOpenStep(c, s, recent, call);
  }

  lemma {:induction false} History(c: Config, calls: seq<Call>)
    requires Usable(c)
    ensures HistoryInv(c, After(c, Fresh(), calls), Recent(c, calls))
  {
    hide HistoryInv, Executed, NextRecent;
    if calls == [] {
      assert HistoryInv(c, Fresh(), []) by { FreshHistory(c); }
    } else {
      var before := calls[..|calls| - 1];
      History(c, before);
      HistoryStep(c, After(c, Fresh(), before), Recent(c, before), calls[|calls| - 1]);
    }
  }

  lemma FreshHistory(c: Config)
    requires Usable(c)
    ensures HistoryInv(c, Fresh(), [])
  {
  }

  /**
   While closed, the failure counter is the current streak of consecutive
   failures, and a call opens the breaker exactly when it makes that streak
   reach the threshold.
   */
  lemma OpensAtThreshold(c: Config, calls: seq<Call>, call: Call)
    requires Usable(c) && After(c, Fresh(), calls).status.Closed?
    ensures After(c, Fresh(), calls).failures == Streak(Recent(c, calls))
    ensures After(c, Fresh(), calls + [call]).status.Open? <==>
            Streak(Recent(c, calls) + [call.ok]) == c.failureThreshold
  {
    History(c, calls);
    StreakSnoc(Recent(c, calls), call.ok);
    assert (calls + [call])[..|calls|] == calls;
  }

  /** When the last admitted call that failed was recorded, from the history alone; 0 before the first. */
  function LastFailed(c: Config, calls: seq<Call>): int {
    if calls == [] then 0
    else
      var before, call := calls[..|calls| - 1], calls[|calls| - 1];
      if Allowed(c, After(c, Fresh(), before), call.now).1.Admitted? && !call.ok then call.done
      else LastFailed(c, before)
  }

  lemma {:induction false} StampIsLastFailed(c: Config, calls: seq<Call>)
    ensures After(c, Fresh(), calls).lastFailure == LastFailed(c, calls)
  {
    if calls != [] {
      StampIsLastFailed(c, calls[..|calls| - 1]);
    }
  }

  /** An open breaker rejects a call if and only if the timeout since the last recorded failure has not passed. */
  lemma OpenRejectsIff(c: Config, calls: seq<Call>, call: Call)
    requires After(c, Fresh(), calls).status.Open?
    ensures Executed(c, After(c, Fresh(), calls), call).1 ==
            if call.now - LastFailed(c, calls) <= c.timeout then CircuitOpen else Admitted
  {
    StampIsLastFailed(c, calls);
  }

  /**
   One half-open episode admits at most MaxRequests + 1 calls, the one that ends it
   included: while it lasts its calls were successes, and a further call is
   admitted only while there were at most MaxRequests of them.
   */
  lemma EpisodeBound(c: Config, calls: seq<Call>, call: Call)
    requires Usable(c) && After(c, Fresh(), calls).status.HalfOpen?
    ensures 1 <= |Recent(c, calls)| <= c.maxRequests + 1
    ensures forall i :: 0 <= i < |Recent(c, calls)| ==> Recent(c, calls)[i]
    ensures Executed(c, After(c, Fresh(), calls), call).1.Admitted? <==> |Recent(c, calls)| <= c.maxRequests
  {
    History(c, calls);
    hide Recent, After;
  }

  // ---- recovery ----

  /** A half-open or open state some run reaches. */
  ghost predicate Tripped(c: Config, s: State) {
    exists recent :: !s.status.Closed? && HistoryInv(c, s, recent)
  }

  lemma RunTripped(c: Config, calls: seq<Call>)
    requires Usable(c) && !After(c, Fresh(), calls).status.Closed?
    ensures Tripped(c, After(c, Fresh(), calls))
  {
    History(c, calls);
  }

  /** With too high a success threshold a tripped breaker stays tripped, whatever is executed. */
  lemma {:induction false} NeverCloses(c: Config, s: State, calls: seq<Call>)
    requires Usable(c) && Tripped(c, s) && c.successThreshold > c.maxRequests + 1
    ensures Tripped(c, After(c, s, calls))
  {
    if calls != [] {
      NeverCloses(c, s, calls[..|calls| - 1]);
      TrippedStep(c, After(c, s, calls[..|calls| - 1]), calls[|calls| - 1]);
    }
  }

  lemma TrippedStep(c: Config, s: State, call: Call)
    requires Usable(c) && Tripped(c, s) && c.successThreshold > c.maxRequests + 1
    ensures Tripped(c, Executed(c, s, call).0)
  {
    var recent :| HistoryInv(c, s, recent);
    var t := Executed(c, s, call).0;
    var next :=
      if t.status.Open? then []
      else if s.status.Open? then [true]
      else if Executed(c, s, call).1.Admitted? then recent + [true]
      else recent;
    assert HistoryInv(c, t, next);
  }

  /** The calls run on from a given time on a clock that does not run backwards. */
  predicate Onwards(start: int, calls: seq<Call>) {
    forall i :: 0 <= i < |calls| ==>
      calls[i].done >= calls[i].now >= if i == 0 then start else calls[i - 1].done
  }

  /** Successful calls, all at the same time. */
  function Successes(at: int, n: nat): seq<Call> {
    seq(n, _ => Call(at, true, at))
  }

  /** A success in a half-open episode that still admits calls closes the breaker or counts towards it. */
  lemma OneSuccess(c: Config, s: State, recent: seq<bool>, at: int)
    requires Usable(c) && s.status.HalfOpen? && HistoryInv(c, s, recent) && c.successThreshold <= c.maxRequests + 1
    ensures var t := Executed(c, s, Call(at, true, at)).0;
            if |recent| + 1 == c.successThreshold then t.status.Closed?
            else t.status.HalfOpen? && HistoryInv(c, t, recent + [true])
  {
    hide Streak;
  }

  lemma {:induction false} SuccessesClose(c: Config, s: State, recent: seq<bool>, at: int, n: nat)
    requires Usable(c) && s.status.HalfOpen? && HistoryInv(c, s, recent)
    requires c.successThreshold <= c.maxRequests + 1 && n == c.successThreshold - |recent| && n > 0
    ensures After(c, s, Successes(at, n)).status.Closed?
    decreases n
  {
    var call := Call(at, true, at);
    var t := Executed(c, s, call).0;
    AfterFirst(c, s, call, Successes(at, n - 1));
    assert Successes(at, n) == [call] + Successes(at, n - 1);
    OneSuccess(c, s, recent, at);
    hide Executed, HistoryInv;
    if n > 1 {
      SuccessesClose(c, t, recent + [true], at, n - 1);
    }
  }

  lemma {:induction false} AfterFirst(c: Config, s: State, call: Call, rest: seq<Call>)
    ensures After(c, s, [call] + rest) == After(c, Executed(c, s, call).0, rest)
  {
    var all := [call] + rest;
    if rest == [] {
      assert all[..|all| - 1] == [];
    } else {
      AfterFirst(c, s, call, rest[..|rest| - 1]);
      assert all[..|all| - 1] == [call] + rest[..|rest| - 1];
    }
  }

  /** After the timeout a success half-opens an open breaker, or closes it if one success is enough. */
  lemma FirstSuccess(c: Config, s: State, at: int)
    requires Usable(c) && s.status.Open? && at > s.lastFailure + c.timeout
    ensures var t := Executed(c, s, Call(at, true, at)).0;
            if c.successThreshold == 1 then t.status.Closed? else t.status.HalfOpen? && HistoryInv(c, t, [true])
  {
    hide Streak;
  }

  lemma TrippedCanClose(c: Config, s: State, start: int) returns (calls: seq<Call>)
    requires Usable(c) && Tripped(c, s) && c.successThreshold <= c.maxRequests + 1
    ensures Onwards(start, calls) && After(c, s, calls).status.Closed?
  {
    var recent :| HistoryInv(c, s, recent);
    var timedOut := s.lastFailure + c.timeout + 1;
    var at := if start >= timedOut then start else timedOut;
    if s.status.HalfOpen? {
      calls := Successes(at, c.successThreshold - |recent|);
      SuccessesClose(c, s, recent, at, c.successThreshold - |recent|);
    } else {
      hide HistoryInv, Executed;
      var call := Call(at, true, at);
      var t := Executed(c, s, call).0;
      FirstSuccess(c, s, at);
      if c.successThreshold > 1 {
        SuccessesClose(c, t, [true], at, c.successThreshold - 1);
      }
      calls := [call] + Successes(at, c.successThreshold - 1);
      AfterFirst(c, s, call, Successes(at, c.successThreshold - 1));
    }
  }

  /**
   From any moment on, a tripped breaker can be closed again by executing calls
   if and only if SuccessThreshold <= MaxRequests + 1.
   */
  lemma RecoveryIff(c: Config, s: State, start: int)
    requires Usable(c) && Tripped(c, s)
    ensures (exists calls :: Onwards(start, calls) && After(c, s, calls).status.Closed?) <==>
            c.successThreshold <= c.maxRequests + 1
  {
    if c.successThreshold <= c.maxRequests + 1 {
      var calls := TrippedCanClose(c, s, start);
    } else {
      forall calls
        ensures !After(c, s, calls).status.Closed?
      {
        NeverCloses(c, s, calls);
      }
    }
  }

  /** Once an episode has used up its MaxRequests + 1 calls without closing, every later call is rejected for ever. */
  lemma {:induction false} StuckForEver(c: Config, s: State, calls: seq<Call>, call: Call)
    requires Usable(c) && s.status.HalfOpen? && s.requests >= c.maxRequests
    ensures After(c, s, calls).status.HalfOpen? && After(c, s, calls).requests >= c.maxRequests
    ensures Executed(c, After(c, s, calls), call).1 == TooManyRequests
  {
    if calls != [] {
      StuckForEver(c, s, calls[..|calls| - 1], calls[|calls| - 1]);
    }
  }

  /** In terms of the run: an episode still half-open after MaxRequests + 1 admitted calls rejects all others. */
  lemma ExhaustedEpisode(c: Config, calls: seq<Call>, more: seq<Call>, call: Call)
    requires Usable(c) && After(c, Fresh(), calls).status.HalfOpen? && |Recent(c, calls)| == c.maxRequests + 1
    ensures Executed(c, After(c, After(c, Fresh(), calls), more), call).1 == TooManyRequests
  {
    History(c, calls);
    StuckForEver(c, After(c, Fresh(), calls), more, call);
  }

  /** Under the default configuration a half-open breaker needs three successes and admits two calls: it gets stuck. */
  lemma DefaultNeverRecovers(s: State, calls: seq<Call>)
    requires Tripped(Normalized(Config(0, 0, 0, 0)), s)
    ensures !After(Normalized(Config(0, 0, 0, 0)), s, calls).status.Closed?
  {
    NeverCloses(Normalized(Config(0, 0, 0, 0)), s, calls);
  }

  // ---- state changes under every interleaving ----

  /**
   A goroutine's way through a state change. Whatever it read before taking the
   mutex (status, counters, clock) has only decided which change it wants;
   `operator` marks Reset and ForceOpen, which do not check the status again.
   */
  datatype Pc =
    | Idle
    | Wants(from: Status, to: Status)
    | Locked(from: Status, to: Status)
    | Checked(from: Status, to: Status)

  datatype Thread = Thread(pc: Pc, operator: bool)

  datatype System = System(status: Status, mutex: int, threads: seq<Thread>)

  const NOBODY: int := -1

  /** The changes Allow, RecordSuccess and RecordFailure ask for. */
  predicate Edge(from: Status, to: Status) {
    || (from.Closed? && to.Open?) || (from.Open? && to.HalfOpen?)
    || (from.HalfOpen? && to.Closed?) || (from.HalfOpen? && to.Open?)
  }

  datatype Action = Decide(i: nat, to: Status) | Lock(i: nat) | Check(i: nat) | Store(i: nat)

  ghost predicate Step(s: System, a: Action, t: System) {
    && a.i < |s.threads|
    && var th := s.threads[a.i];
       match a
       case Decide(i, to) =>
         && th.pc.Idle? && (th.operator || Edge(s.status, to))
         && t == s.(threads := s.threads[i := th.(pc := Wants(s.status, to))])
       case Lock(i) =>
         && th.pc.Wants? && s.mutex == NOBODY
         && t == s.(mutex := i, threads := s.threads[i := th.(pc := Locked(th.pc.from, th.pc.to))])
       case Check(i) =>
         && th.pc.Locked?
         && t == if th.operator || s.status == th.pc.from
                 then s.(threads := s.threads[i := th.(pc := Checked(s.status, th.pc.to))])
                 else s.(mutex := NOBODY, threads := s.threads[i := th.(pc := Idle)])
       case Store(i) =>
         && th.pc.Checked?
         && t == System(th.pc.to, NOBODY, s.threads[i := th.(pc := Idle)])
  }

  ghost predicate MutexInv(s: System) {
    forall i :: 0 <= i < |s.threads| ==> HolderKnows(s, i)
  }

  /** Only the mutex holder is past the lock, and what it checked is still the status. */
  ghost predicate HolderKnows(s: System, i: nat)
    requires i < |s.threads|
  {
    var th := s.threads[i];
    && (th.pc.Locked? || th.pc.Checked? ==> s.mutex == i)
    && (th.pc.Checked? ==> s.status == th.pc.from)
    && (!th.operator && !th.pc.Idle? ==> Edge(th.pc.from, th.pc.to))
  }

  lemma MutexStep(s: System, a: Action, t: System)
    requires MutexInv(s) && Step(s, a, t)
    ensures MutexInv(t)
    ensures t.status != s.status && !s.threads[a.i].operator ==> Edge(s.status, t.status)
  {
    assert HolderKnows(s, a.i);
    forall j | 0 <= j < |t.threads|
      ensures HolderKnows(t, j)
    {
      assert HolderKnows(s, j);
    }
  }

  predicate ByOperator(s: System, a: Action) {
    a.i < |s.threads| && s.threads[a.i].operator
  }

  ghost predicate Run(states: seq<System>, actions: seq<Action>) {
    && |states| == |actions| + 1
    && states[0].mutex == NOBODY
    && (forall i :: 0 <= i < |states[0].threads| ==> states[0].threads[i].pc.Idle?)
    && forall i :: 0 <= i < |actions| ==> Step(states[i], actions[i], states[i + 1])
  }

  /** In every interleaving, a change not made by Reset or ForceOpen follows one of the four edges. */
  lemma {:induction false} EdgesOnly(states: seq<System>, actions: seq<Action>, n: nat)
    requires Run(states, actions) && n <= |actions|
    ensures MutexInv(states[n])
    ensures n < |actions| && states[n + 1].status != states[n].status && !ByOperator(states[n], actions[n]) ==>
              Edge(states[n].status, states[n + 1].status)
  {
    if n > 0 {
      EdgesOnly(states, actions, n - 1);
      MutexStep(states[n - 1], actions[n - 1], states[n]);
    }
    if n < |actions| {
      MutexStep(states[n], actions[n], states[n + 1]);
    }
  }

  /** Each of the four changes does go through: with the mutex free, a goroutine makes it in four steps. */
  lemma ChangeGoesThrough(s: System, i: nat, to: Status) returns (s1: System, s2: System, s3: System, t: System)
    requires i < |s.threads| && s.threads[i] == Thread(Idle, false) && s.mutex == NOBODY && Edge(s.status, to)
    ensures Step(s, Decide(i, to), s1) && Step(s1, Lock(i), s2) && Step(s2, Check(i), s3) && Step(s3, Store(i), t)
    ensures t == s.(status := to)
  {
    var from := s.status;
    s1 := s.(threads := s.threads[i := Thread(Wants(from, to), false)]);
    s2 := s1.(mutex := i, threads := s1.threads[i := Thread(Locked(from, to), false)]);
    s3 := s2.(threads := s2.threads[i := Thread(Checked(from, to), false)]);
    t := System(to, NOBODY, s3.threads[i := Thread(Idle, false)]);
    assert t.threads == s.threads;
  }
}

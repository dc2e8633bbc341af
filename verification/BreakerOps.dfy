/**
 The circuit breaker used from outside Execute: Allow, RecordSuccess,
 RecordFailure and Reset in any order, as connection goroutines do. The state
 after any run of them is determined by counting operations.
 */
module BreakerOps {
  import opened Breaker

  datatype Op = Ask(now: int) | Succeed | Fail(now: int) | Clear

  function StepOp(c: Config, s: State, op: Op): State {
    match op
    case Ask(now) => Allowed(c, s, now).0
    case Succeed => AfterSuccess(c, s)
    case Fail(now) => AfterFailure(c, s, now)
    case Clear => Transition(s, Closed)
  }

  function AfterOps(c: Config, ops: seq<Op>): State {
    if ops == [] then Fresh() else StepOp(c, AfterOps(c, ops[..|ops| - 1]), ops[|ops| - 1])
  }

  // ---- the history ----

  /** The operations since the breaker entered its present status. */
  function Segment(c: Config, ops: seq<Op>): seq<Op> {
    if ops == [] then []
    else
      var before := ops[..|ops| - 1];
      if AfterOps(c, ops).status == AfterOps(c, before).status then Segment(c, before) + [ops[|ops| - 1]] else []
  }

  /** Failures in a row at the end of a list of operations; asking and resetting do not interrupt them. */
  function FailStreak(ops: seq<Op>): nat {
    if ops == [] || ops[|ops| - 1].Succeed? then 0
    else FailStreak(ops[..|ops| - 1]) + if ops[|ops| - 1].Fail? then 1 else 0
  }

  function Successes(ops: seq<Op>): nat {
    if ops == [] then 0 else Successes(ops[..|ops| - 1]) + if ops[|ops| - 1].Succeed? then 1 else 0
  }

  function Asks(ops: seq<Op>): nat {
    if ops == [] then 0 else Asks(ops[..|ops| - 1]) + if ops[|ops| - 1].Ask? then 1 else 0
  }

  /** When the last failure was recorded; 0 before the first. */
  function LastFail(ops: seq<Op>): int {
    if ops == [] then 0
    else if ops[|ops| - 1].Fail? then ops[|ops| - 1].now
    else LastFail(ops[..|ops| - 1])
  }

  /** What counting says about the state. */
  ghost predicate Counted(c: Config, s: State, segment: seq<Op>, lastFail: int) {
    && s.lastFailure == lastFail
    && match s.status
       case Closed => s.failures == FailStreak(segment) < c.failureThreshold && s.successes == 0 && s.requests == 0
       case Open => s.failures == 0 && s.successes == 0 && s.requests == 0
       case HalfOpen =>
         s.failures == 0 && s.successes == Successes(segment) < c.successThreshold && s.requests == Asks(segment)
  }

  /** The status after one more operation, by counting alone. */
  function NextStatus(c: Config, status: Status, segment: seq<Op>, lastFail: int, op: Op): Status {
    match status
    case Closed => if op.Fail? && FailStreak(segment) + 1 == c.failureThreshold then Open else Closed
    case Open =>
      if op.Clear? then Closed else if op.Ask? && op.now - lastFail > c.timeout then HalfOpen else Open
    case HalfOpen =>
      if op.Fail? then Open
      else if op.Clear? || (op.Succeed? && Successes(segment) + 1 == c.successThreshold) then Closed
      else HalfOpen
  }

  /** The answer to asking, by counting alone. */
  function Answer(c: Config, status: Status, segment: seq<Op>, lastFail: int, now: int): Verdict {
    match status
    case Closed => Admitted
    case Open => if now - lastFail > c.timeout then Admitted else CircuitOpen
    case HalfOpen => if Asks(segment) < c.maxRequests then Admitted else TooManyRequests
  }

  lemma Snoc(ops: seq<Op>, op: Op)
    ensures FailStreak(ops + [op]) == if op.Succeed? then 0 else FailStreak(ops) + if op.Fail? then 1 else 0
    ensures Successes(ops + [op]) == Successes(ops) + if op.Succeed? then 1 else 0
    ensures Asks(ops + [op]) == Asks(ops) + if op.Ask? then 1 else 0
  {
    assert (ops + [op])[..|ops|] == ops;
  }

  ghost predicate StepRight(c: Config, s: State, segment: seq<Op>, lastFail: int, op: Op) {
    var t := StepOp(c, s, op);
    && t.status == NextStatus(c, s.status, segment, lastFail, op)
    && Counted(c, t, if t.status == s.status then segment + [op] else [], if op.Fail? then op.now else lastFail)
    && (op.Ask? ==> Allowed(c, s, op.now).1 == Answer(c, s.status, segment, lastFail, op.now))
  }

  lemma ClosedRight(c: Config, s: State, segment: seq<Op>, lastFail: int, op: Op)
    requires Usable(c) && s.status.Closed? && Counted(c, s, segment, lastFail)
    ensures StepRight(c, s, segment, lastFail, op)
  {
    Snoc(segment, op);
    assert FailStreak([]) == Successes([]) == Asks([]) == 0;
    hide FailStreak, Successes, Asks;
  }

  lemma OpenRight(c: Config, s: State, segment: seq<Op>, lastFail: int, op: Op)
    requires Usable(c) && s.status.Open? && Counted(c, s, segment, lastFail)
    ensures StepRight(c, s, segment, lastFail, op)
  {
    Snoc(segment, op);
    assert FailStreak([]) == Successes([]) == Asks([]) == 0;
    hide FailStreak, Successes, Asks;
  }

  lemma HalfOpenRight(c: Config, s: State, segment: seq<Op>, lastFail: int, op: Op)
    requires Usable(c) && s.status.HalfOpen? && Counted(c, s, segment, lastFail)
    ensures StepRight(c, s, segment, lastFail, op)
  {
    Snoc(segment, op);
    assert FailStreak([]) == Successes([]) == Asks([]) == 0;
    hide FailStreak, Successes, Asks;
  }

  lemma CountedStep(c: Config, s: State, segment: seq<Op>, lastFail: int, op: Op)
    requires Usable(c) && Counted(c, s, segment, lastFail)
    ensures StepRight(c, s, segment, lastFail, op)
  {
    hide Counted, StepRight;
    match s.status
    case Closed => ClosedRight(c, s, segment, lastFail, op);
    case Open => OpenRight(c, s, segment, lastFail, op);
    case HalfOpen => HalfOpenRight(c, s, segment, lastFail, op);
  }

  /**
   In every run of the four operations: the counters, the time of the last
   failure, the next status and the answer to asking are what counting the
   operations since the last change of status says.
   */
  lemma {:induction false} EveryRunCounts(c: Config, ops: seq<Op>)
    requires Usable(c)
    ensures Counted(c, AfterOps(c, ops), Segment(c, ops), LastFail(ops))
  {
    if ops != [] {
      hide Counted, StepOp;
      var before, op := ops[..|ops| - 1], ops[|ops| - 1];
      EveryRunCounts(c, before);
      CountedStep(c, AfterOps(c, before), Segment(c, before), LastFail(before), op);
    } else {
      FreshCounted(c);
    }
  }

  lemma FreshCounted(c: Config)
    requires Usable(c)
    ensures Counted(c, Fresh(), [], 0)
  {
  }

  lemma NextByCounting(c: Config, ops: seq<Op>, op: Op)
    requires Usable(c)
    ensures var s, segment := AfterOps(c, ops), Segment(c, ops);
            && StepOp(c, s, op).status == NextStatus(c, s.status, segment, LastFail(ops), op)
            && (op.Ask? ==> Allowed(c, s, op.now).1 == Answer(c, s.status, segment, LastFail(ops), op.now))
  {
    EveryRunCounts(c, ops);
    CountedStep(c, AfterOps(c, ops), Segment(c, ops), LastFail(ops), op);
  }

  /**
   In every run: outside Reset the status changes only along the four edges, a
   success recorded while open changes nothing, a failure recorded while open
   only restarts the timeout, and resetting a closed breaker changes nothing.
   */
  lemma EveryRunKeepsEdges(c: Config, ops: seq<Op>, op: Op)
    requires Usable(c)
    ensures var s := AfterOps(c, ops);
            var t := StepOp(c, s, op);
            && (t.status != s.status && !op.Clear? ==> Edge(s.status, t.status))
            && (op.Clear? ==> t.status == Closed)
            && (s.status.Open? && op.Succeed? ==> t == s)
            && (s.status.Open? && op.Fail? ==> t == s.(lastFailure := op.now))
            && (s.status.Closed? && op.Clear? ==> t == s)
  {
    NextByCounting(c, ops, op);
    hide AfterOps, Segment, LastFail, NextStatus;
  }

  /** Execute is asking and then, if admitted, recording. */
  lemma ExecuteIsOps(c: Config, s: State, call: Call)
    ensures var asked := StepOp(c, s, Ask(call.now));
            var (t, verdict) := Executed(c, s, call);
            && verdict == Allowed(c, s, call.now).1
            && t == if verdict.Admitted? then StepOp(c, asked, if call.ok then Succeed else Fail(call.done)) else asked
  {
  }
}

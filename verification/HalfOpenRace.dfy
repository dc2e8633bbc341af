/**
 How many calls one half-open episode of the circuit breaker admits when
 goroutines run Allow concurrently. Each load, lock, store and addition is one
 step. Goroutines that read the open state before the breaker changes are let
 through without being counted, so the limit holds only for the counted ones.
 */
module HalfOpenRace {
  import opened Doubling
  import opened Prelude
  import opened Sums

  /** A goroutine in Allow, after the open timeout has passed. */
  datatype Pc =
    | Idle      // before it reads the state
    | ToLock    // read open, wants the mutex
    | Locked    // holds the mutex, before it looks at the state again
    | Storing   // has stored half-open, before it clears the request counter
    | ToAdd     // read half-open, before it adds to the request counter
    | Passed    // admitted without being counted
    | Counted   // admitted by the counter
    | Rejected  // too many requests

  /**
   One episode, from open on. `history` tells how many goroutines read open, and
   how many added to the counter before and after it was cleared.
   */
  datatype State = State(open: bool, cleared: bool, requests: int, mutex: int, threads: seq<Pc>, history: History)

  datatype History = History(openReads: nat, earlyAdds: nat, lateAdds: nat)

  const NOBODY: int := -1

  /** The counter may hold additions of goroutines left over from the episode before. */
  function Initial(left: nat): State {
    State(true, false, left, NOBODY, [], History(0, 0, 0))
  }

  datatype Action = Call | Read(i: nat) | Lock(i: nat) | Check(i: nat) | Clear(i: nat) | Add(i: nat)

  predicate At(s: State, i: nat, pc: Pc) {
    i < |s.threads| && s.threads[i] == pc
  }

  predicate Enabled(s: State, a: Action) {
    match a
    case Call => true
    case Read(i) => At(s, i, Idle)
    case Lock(i) => At(s, i, ToLock) && s.mutex == NOBODY
    case Check(i) => At(s, i, Locked)
    case Clear(i) => At(s, i, Storing)
    case Add(i) => At(s, i, ToAdd)
  }

  function Move(s: State, i: nat, pc: Pc): State
    requires i < |s.threads|
  {
    s.(threads := s.threads[i := pc])
  }

  function Apply(max: nat, s: State, a: Action): State
    requires Enabled(s, a)
  {
    match a
    case Call => s.(threads := s.threads + [Idle])
    case Read(i) =>
      if s.open then Move(s, i, ToLock).(history := s.history.(openReads := s.history.openReads + 1))
      else Move(s, i, ToAdd)
    case Lock(i) => Move(s, i, Locked).(mutex := i)
    case Check(i) => if s.open then Move(s, i, Storing).(open := false) else Move(s, i, Passed).(mutex := NOBODY)
    case Clear(i) => Move(s, i, Passed).(requests := 0, cleared := true, mutex := NOBODY)
    case Add(i) =>
      Move(s, i, if s.requests + 1 > max then Rejected else Counted).(
        requests := s.requests + 1,
        history := if s.cleared then s.history.(lateAdds := s.history.lateAdds + 1)
                   else s.history.(earlyAdds := s.history.earlyAdds + 1))
  }

  // ---- what each goroutine contributes ----

  function Weight(b: bool): int {
    if b then 1 else 0
  }

  /** It read the open state. */
  function ReadOpen(pc: Pc): int {
    Weight(pc.ToLock? || pc.Locked? || pc.Storing? || pc.Passed?)
  }

  function IsCounted(pc: Pc): int {
    Weight(pc.Counted?)
  }

  function IsStoring(pc: Pc): int {
    Weight(pc.Storing?)
  }

  function Admitted(pc: Pc): int {
    Weight(pc.Passed? || pc.Counted?)
  }

  /** How many of `adds` additions to a counter that starts at `left` stay within the limit. */
  function Room(max: nat, left: nat, adds: nat): int {
    Min(if left >= max then 0 else max - left, adds)
  }

  ghost predicate Inv(max: nat, left: nat, s: State) {
    && s.history.openReads == Sum(s.threads, ReadOpen)
    && Sum(s.threads, IsCounted) == Room(max, left, s.history.earlyAdds) + Room(max, 0, s.history.lateAdds)
    && Sum(s.threads, IsStoring) == Weight(!s.open && !s.cleared)
    && (s.open ==> !s.cleared)
    && (if s.cleared then s.requests == s.history.lateAdds
        else s.requests == left + s.history.earlyAdds && s.history.lateAdds == 0)
  }

  lemma NoNegative(threads: seq<Pc>)
    ensures Sum(threads, IsStoring) >= 0
  {
    SumNonNegative(threads, IsStoring);
  }

  lemma InvStep(max: nat, left: nat, s: State, a: Action)
    requires Inv(max, left, s) && Enabled(s, a)
    ensures Inv(max, left, Apply(max, s, a))
  {
    hide Sum;
    if a.Call? {
      SumAppend(s.threads, Idle, ReadOpen);
      SumAppend(s.threads, Idle, IsCounted);
      SumAppend(s.threads, Idle, IsStoring);
    } else {
      var t := Apply(max, s, a);
      var pc := t.threads[a.i];
      assert t.threads == s.threads[a.i := pc];
      SumUpdate(s.threads, a.i, pc, ReadOpen);
      SumUpdate(s.threads, a.i, pc, IsCounted);
      SumUpdate(s.threads, a.i, pc, IsStoring);
      NoNegative(t.threads);
    }
  }

  function Exec(max: nat, left: nat, actions: seq<Action>): Option<State> {
    if actions == [] then Some(Initial(left))
    else
      var before, a := Exec(max, left, actions[..|actions| - 1]), actions[|actions| - 1];
      if before.Some? && Enabled(before.value, a) then Some(Apply(max, before.value, a)) else None
  }

  lemma {:induction false} InvAlways(max: nat, left: nat, actions: seq<Action>)
    requires Exec(max, left, actions).Some?
    ensures Inv(max, left, Exec(max, left, actions).value)
  {
    if actions != [] {
      hide Inv, Apply, Enabled;
      var before := actions[..|actions| - 1];
      InvAlways(max, left, before);
      InvStep(max, left, Exec(max, left, before).value, actions[|actions| - 1]);
    }
  }

  /** No goroutine is inside Allow. */
  ghost predicate Quiescent(s: State) {
    forall i :: 0 <= i < |s.threads| ==>
      s.threads[i].Idle? || s.threads[i].Passed? || s.threads[i].Counted? || s.threads[i].Rejected?
  }

  lemma {:induction false} AdmittedSplits(threads: seq<Pc>)
    requires forall i :: 0 <= i < |threads| ==>
               threads[i].Idle? || threads[i].Passed? || threads[i].Counted? || threads[i].Rejected?
    ensures Sum(threads, Admitted) == Sum(threads, ReadOpen) + Sum(threads, IsCounted)
  {
    if threads != [] {
      AdmittedSplits(threads[..|threads| - 1]);
    }
  }

  /**
   The exact count, in every interleaving: an episode admits every goroutine that
   read the open state, and of those that read half-open as many as the counter
   has room for, once before it is cleared and once after.
   */
  lemma EpisodeCount(max: nat, left: nat, actions: seq<Action>)
    requires Exec(max, left, actions).Some? && Quiescent(Exec(max, left, actions).value)
    ensures var s := Exec(max, left, actions).value;
            Sum(s.threads, Admitted) ==
            s.history.openReads + Room(max, left, s.history.earlyAdds) + Room(max, 0, s.history.lateAdds)
  {
    InvAlways(max, left, actions);
    AdmittedSplits(Exec(max, left, actions).value.threads);
    hide Exec, Sum;
  }

  /** So the bound of a sequential run, MaxRequests + 1, needs one reader of the open state and no early addition. */
  lemma SequentialBound(max: nat, left: nat, actions: seq<Action>)
    requires Exec(max, left, actions).Some? && Quiescent(Exec(max, left, actions).value)
    requires var h := Exec(max, left, actions).value.history; h.openReads <= 1 && h.earlyAdds == 0
    ensures Sum(Exec(max, left, actions).value.threads, Admitted) <= max + 1
  {
    EpisodeCount(max, left, actions);
    hide Exec, Sum;
  }

  // ---- any number of calls can be admitted ----

  /** n goroutines, of which the first j have been let through. */
  function Line(n: nat, j: nat): seq<Pc>
    requires j <= n
  {
    seq(n, i => if i < j then Passed else ToLock)
  }

  lemma Go(max: nat, left: nat, actions: seq<Action>, s: State, a: Action) returns (longer: seq<Action>, t: State)
    requires Exec(max, left, actions) == Some(s) && Enabled(s, a)
    ensures Exec(max, left, longer) == Some(t) && t == Apply(max, s, a)
  {
    longer, t := actions + [a], Apply(max, s, a);
    assert longer[..|actions|] == actions;
  }

  lemma {:induction false} AllReadOpen(max: nat, left: nat, n: nat) returns (actions: seq<Action>)
    ensures Exec(max, left, actions) == Some(State(true, false, left, NOBODY, Line(n, 0), History(n, 0, 0)))
  {
    if n == 0 {
      actions := [];
      assert Line(0, 0) == [];
    } else {
      actions := AllReadOpen(max, left, n - 1);
      hide Exec;
      var s := State(true, false, left, NOBODY, Line(n - 1, 0), History(n - 1, 0, 0));
      actions, s := Go(max, left, actions, s, Call);
      actions, s := Go(max, left, actions, s, Read(n - 1));
      assert s.threads == Line(n, 0);
    }
  }

  lemma {:induction false} FirstPass(max: nat, left: nat, n: nat, j: nat) returns (actions: seq<Action>)
    requires 1 <= j <= n
    ensures Exec(max, left, actions) == Some(State(false, true, 0, NOBODY, Line(n, j), History(n, 0, 0)))
  {
    var s;
    if j == 1 {
      actions := AllReadOpen(max, left, n);
      s := State(true, false, left, NOBODY, Line(n, 0), History(n, 0, 0));
    } else {
      actions := FirstPass(max, left, n, j - 1);
      s := State(false, true, 0, NOBODY, Line(n, j - 1), History(n, 0, 0));
    }
    hide Exec;
    actions, s := Go(max, left, actions, s, Lock(j - 1));
    actions, s := Go(max, left, actions, s, Check(j - 1));
    if j == 1 {
      actions, s := Go(max, left, actions, s, Clear(0));
    }
    assert s.threads == Line(n, j);
  }

  lemma {:induction false} AllAdmitted(threads: seq<Pc>)
    requires forall i :: 0 <= i < |threads| ==> threads[i].Passed?
    ensures Sum(threads, Admitted) == |threads|
  {
    if threads != [] {
      AllAdmitted(threads[..|threads| - 1]);
    }
  }

  /** Whatever MaxRequests is, for every n some interleaving of n calls admits all of them into one episode. */
  lemma AnyNumberAdmitted(max: nat, left: nat, n: nat) returns (actions: seq<Action>)
    requires n >= 1
    ensures Exec(max, left, actions).Some? && Quiescent(Exec(max, left, actions).value)
    ensures var s := Exec(max, left, actions).value;
            !s.open && |s.threads| == n && Sum(s.threads, Admitted) == n
  {
    actions := FirstPass(max, left, n, n);
    AllAdmitted(Line(n, n));
  }

  /** k goroutines that read half-open one after the other. */
  function Tail(max: nat, k: nat): seq<Pc> {
    seq(k, i => if i < max then Counted else Rejected)
  }

  lemma {:induction false} ThenCounted(max: nat, left: nat, n: nat, k: nat) returns (actions: seq<Action>)
    requires n >= 1
    ensures Exec(max, left, actions) == Some(State(false, true, k, NOBODY, Line(n, n) + Tail(max, k), History(n, 0, k)))
  {
    if k == 0 {
      actions := FirstPass(max, left, n, n);
      assert Line(n, n) + Tail(max, 0) == Line(n, n);
    } else {
      actions := ThenCounted(max, left, n, k - 1);
      hide Exec;
      var s := State(false, true, k - 1, NOBODY, Line(n, n) + Tail(max, k - 1), History(n, 0, k - 1));
      actions, s := Go(max, left, actions, s, Call);
      actions, s := Go(max, left, actions, s, Read(n + k - 1));
      actions, s := Go(max, left, actions, s, Add(n + k - 1));
      assert s.threads == Line(n, n) + Tail(max, k);
    }
  }

  /** Behind the uncounted ones the counter admits the first MaxRequests that read half-open and rejects the rest. */
  lemma CounterAdmitsMax(max: nat, left: nat, n: nat, k: nat) returns (actions: seq<Action>)
    requires n >= 1
    ensures Exec(max, left, actions).Some?
    ensures var s := Exec(max, left, actions).value;
            && |s.threads| == n + k
            && (forall i :: 0 <= i < n ==> s.threads[i] == Passed)
            && (forall i :: n <= i < n + k ==> s.threads[i] == if i < n + max then Counted else Rejected)
  {
    actions := ThenCounted(max, left, n, k);
    hide Exec;
  }
}

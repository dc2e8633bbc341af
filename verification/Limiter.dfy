/**
 The lock-free limiters: connection, goroutine and memory limits kept by
 load / compare-and-swap loops, under every interleaving of those loops.
 */
module Limiter {
  import opened Prelude
  import opened Sums

  /** Acquire and Release of the slot limiters; Allocate and Release of the memory limiter. */
  datatype Op = Acquire | Release | Allocate(n: int) | Free(n: int)

  datatype Pc = ToLoad | ToSwap(seen: int) | Succeeded | Refused

  datatype Thread = Thread(op: Op, pc: Pc)

  /** The shared counter, and the totals acquired and effectively released so far. */
  datatype State = State(current: int, threads: seq<Thread>, acquired: int, released: int)

  /** What an operation would make of the value it has just loaded: the new value, or None to return at once. */
  function Target(max: int, op: Op, seen: int): Option<int> {
    match op
    case Acquire => if seen >= max then None else Some(seen + 1)
    case Release => if seen <= 0 then None else Some(seen - 1)
    case Allocate(n) => if Wrap64(seen + n) > max then None else Some(Wrap64(seen + n))
    case Free(n) => Some(if Wrap64(seen - n) < 0 then 0 else Wrap64(seen - n))
  }

  predicate Acquires(op: Op) {
    op.Acquire? || op.Allocate?
  }

  datatype Action = Call(op: Op) | Load(i: nat) | Swap(i: nat)

  ghost predicate Step(max: int, s: State, a: Action, t: State) {
    match a
    case Call(op) => t == s.(threads := s.threads + [Thread(op, ToLoad)])
    case Load(i) =>
      && i < |s.threads| && s.threads[i].pc.ToLoad?
      && var th := s.threads[i];
         var pc := if Target(max, th.op, s.current).Some? then ToSwap(s.current)
                   else if Acquires(th.op) then Refused else Succeeded;
         t == s.(threads := s.threads[i := th.(pc := pc)])
    case Swap(i) =>
      && i < |s.threads| && s.threads[i].pc.ToSwap?
      && var th := s.threads[i];
         if s.current != th.pc.seen then t == s.(threads := s.threads[i := th.(pc := ToLoad)])
         else
           && Target(max, th.op, th.pc.seen).Some?
           && var value := Target(max, th.op, th.pc.seen).value;
              t == State(value, s.threads[i := th.(pc := Succeeded)],
                         s.acquired + (if Acquires(th.op) then Size(th.op) else 0),
                         s.released + (if Acquires(th.op) then 0 else s.current - value))
  }

  function Size(op: Op): int {
    match op
    case Allocate(n) => n
    case Free(n) => n
    case _ => 1
  }

  /** Sizes are int64 values, of either sign. */
  predicate Possible(op: Op) {
    -MAX_INT64 - 1 <= Size(op) <= MAX_INT64
  }

  /** Applied to this value, the operation neither overflows nor takes away or gives back more than there is. */
  predicate Fits(max: int, op: Op, seen: int) {
    match op
    case Allocate(n) => 0 <= seen + n <= MAX_INT64
    case Free(n) => seen - n <= max || seen - n > MAX_INT64
    case _ => true
  }

  /** A compare-and-swap that succeeds with an operation that does not fit. */
  ghost predicate Misfit(max: int, s: State, a: Action) {
    && a.Swap? && a.i < |s.threads| && s.threads[a.i].pc.ToSwap? && s.threads[a.i].pc.seen == s.current
    && !Fits(max, s.threads[a.i].op, s.current)
  }

  predicate InRange(max: int, s: State) {
    0 <= s.current <= max
  }

  predicate Balanced(s: State) {
    s.current == s.acquired - s.released
  }

  /** What a thread has loaded allows what it is about to store. */
  ghost predicate ThreadsInv(max: int, s: State) {
    forall i :: 0 <= i < |s.threads| ==>
      && Possible(s.threads[i].op)
      && (s.threads[i].pc.ToSwap? ==> Target(max, s.threads[i].op, s.threads[i].pc.seen).Some?)
  }

  lemma TargetInRangeIff(max: int, op: Op, seen: int)
    requires 0 <= seen <= max <= MAX_INT64 && Possible(op) && Target(max, op, seen).Some?
    ensures 0 <= Target(max, op, seen).value <= max <==> Fits(max, op, seen)
    ensures Fits(max, op, seen) && Acquires(op) ==> Target(max, op, seen).value == seen + Size(op)
  {
    match op
    case Allocate(n) =>
      if seen + n > MAX_INT64 {
        WrapOver(seen + n);
      } else {
        WrapSmall(seen + n);
      }
    case Free(n) =>
      if seen - n > MAX_INT64 {
        WrapOver(seen - n);
      } else {
        WrapSmall(seen - n);
      }
    case _ =>
  }

  lemma ThreadsStep(max: int, s: State, a: Action, t: State)
    requires ThreadsInv(max, s) && Step(max, s, a, t) && (a.Call? ==> Possible(a.op))
    ensures ThreadsInv(max, t)
  {
    hide Target, Possible;
  }

  lemma RangeStep(max: int, s: State, a: Action, t: State)
    requires 0 <= max <= MAX_INT64 && ThreadsInv(max, s) && Step(max, s, a, t) && InRange(max, s) && Balanced(s)
    ensures InRange(max, t) <==> !Misfit(max, s, a)
    ensures !Misfit(max, s, a) ==> Balanced(t)
  {
    hide Target, Fits, Size, Acquires, Possible;
    if a.Swap? && s.current == s.threads[a.i].pc.seen {
      TargetInRangeIff(max, s.threads[a.i].op, s.current);
    }
  }

  ghost predicate Run(max: int, states: seq<State>, actions: seq<Action>) {
    && |states| == |actions| + 1
    && states[0] == State(0, [], 0, 0)
    && (forall i :: 0 <= i < |actions| && actions[i].Call? ==> Possible(actions[i].op))
    && forall i :: 0 <= i < |actions| ==> Step(max, states[i], actions[i], states[i + 1])
  }

  lemma {:induction false} ThreadsAlways(max: int, states: seq<State>, actions: seq<Action>, n: nat)
    requires Run(max, states, actions) && n < |states|
    ensures ThreadsInv(max, states[n])
  {
    if n > 0 {
      ThreadsAlways(max, states, actions, n - 1);
      ThreadsStep(max, states[n - 1], actions[n - 1], states[n]);
    }
  }

  /**
   In every interleaving of operations of any sizes: the counter stays between
   zero and the limit if and only if no operation that does not fit gets its
   swap through, and then it equals what was acquired less what was effectively
   released.
   */
  lemma {:induction false} LimitHoldsIff(max: int, states: seq<State>, actions: seq<Action>, n: nat)
    requires 0 <= max <= MAX_INT64 && Run(max, states, actions) && n < |states|
    ensures (forall i :: 0 <= i <= n ==> InRange(max, states[i])) <==>
            (forall i :: 0 <= i < n ==> !Misfit(max, states[i], actions[i]))
    ensures (forall i :: 0 <= i < n ==> !Misfit(max, states[i], actions[i])) ==> Balanced(states[n])
  {
    if n > 0 {
      LimitHoldsIff(max, states, actions, n - 1);
      ThreadsAlways(max, states, actions, n - 1);
      if InRange(max, states[n - 1]) && Balanced(states[n - 1]) {
        RangeStep(max, states[n - 1], actions[n - 1], states[n]);
      }
      hide Misfit, InRange, Balanced;
    }
  }

  /** Sizes that are not negative, of allocations that cannot overflow the counter. */
  predicate Sane(max: int, op: Op) {
    (op.Allocate? ==> 0 <= op.n <= MAX_INT64 - max) && (op.Free? ==> 0 <= op.n <= MAX_INT64)
  }

  ghost predicate AllSane(max: int, s: State) {
    forall i :: 0 <= i < |s.threads| ==> Sane(max, s.threads[i].op)
  }

  /**
   With sane sizes, and for connection and goroutine slots always: at every point
   of every interleaving 0 <= current <= max and current = acquired - released.
   */
  lemma {:induction false} LimitHolds(max: int, states: seq<State>, actions: seq<Action>, n: nat)
    requires 0 <= max <= MAX_INT64 && Run(max, states, actions) && n < |states|
    requires forall i :: 0 <= i < |actions| && actions[i].Call? ==> Sane(max, actions[i].op)
    ensures InRange(max, states[n]) && Balanced(states[n]) && AllSane(max, states[n])
  {
    if n > 0 {
      LimitHolds(max, states, actions, n - 1);
      ThreadsAlways(max, states, actions, n - 1);
      RangeStep(max, states[n - 1], actions[n - 1], states[n]);
      hide Target;
    }
  }

  /** For one allocation that is not negative: it keeps the counter in range if and only if the sum is an int64. */
  lemma OverflowIff(max: int, current: int, n: int)
    requires 0 <= current <= max <= MAX_INT64 && 0 <= n <= MAX_INT64
    ensures var after := Target(max, Allocate(n), current);
            (after.None? || 0 <= after.value <= max) <==> current + n <= MAX_INT64
  {
    if current + n > MAX_INT64 {
      WrapOver(current + n);
    } else {
      WrapSmall(current + n);
    }
  }

  // ---- what every operation comes to ----

  /**
   In every run, a load decides by the value it finds: an acquire is refused if and
   only if the limit is reached, an allocation if and only if the (wrapped) sum
   exceeds it, a release ends at once if and only if nothing is held, and everything
   else goes on to swap. Nothing changes yet.
   */
  lemma LoadDecides(max: int, states: seq<State>, actions: seq<Action>, n: nat)
    requires Run(max, states, actions) && n < |actions| && actions[n].Load?
    ensures var s, t, i := states[n], states[n + 1], actions[n].i;
            && i < |s.threads| == |t.threads| && t.current == s.current
            && t.threads[i].pc ==
               match s.threads[i].op
               case Acquire => if s.current >= max then Refused else ToSwap(s.current)
               case Release => if s.current <= 0 then Succeeded else ToSwap(s.current)
               case Allocate(k) => if Wrap64(s.current + k) > max then Refused else ToSwap(s.current)
               case Free(_) => ToSwap(s.current)
  {
    assert Step(max, states[n], actions[n], states[n + 1]);
    hide Wrap64;
  }

  /**
   A swap on a value that has changed starts over; on an unchanged one an acquire
   adds exactly one, a release takes exactly one away, an allocation adds its size
   and a free takes it away, but not below zero.
   */
  lemma SwapDecides(max: int, states: seq<State>, actions: seq<Action>, n: nat)
    requires Run(max, states, actions) && n < |actions| && actions[n].Swap?
    ensures var s, t, i := states[n], states[n + 1], actions[n].i;
            && i < |s.threads| == |t.threads| && s.threads[i].pc.ToSwap?
            && if s.current != s.threads[i].pc.seen then t.threads[i].pc == ToLoad && t.current == s.current
               else
                 && t.threads[i].pc == Succeeded
                 && t.current ==
                    match s.threads[i].op
                    case Acquire => s.current + 1
                    case Release => s.current - 1
                    case Allocate(k) => Wrap64(s.current + k)
                    case Free(k) => if Wrap64(s.current - k) < 0 then 0 else Wrap64(s.current - k)
  {
    assert Step(max, states[n], actions[n], states[n + 1]);
    hide Wrap64;
  }

  /**
   An operation on its own, from any state: it is called, loads and, unless that
   decides it, swaps; what it comes to, and what it makes of the counter.
   */
  lemma OperationAlone(max: int, s: State, op: Op) returns (s1: State, s2: State, t: State)
    ensures var i := |s.threads|;
            var refused := (op.Acquire? && s.current >= max) || (op.Allocate? && Wrap64(s.current + op.n) > max);
            var nothing := op.Release? && s.current <= 0;
            && Step(max, s, Call(op), s1) && Step(max, s1, Load(i), s2)
            && (if refused || nothing then t == s2 else Step(max, s2, Swap(i), t))
            && t.threads == s.threads + [Thread(op, if refused then Refused else Succeeded)]
            && t.current == if refused || nothing then s.current
                            else match op
                                 case Acquire => s.current + 1
                                 case Release => s.current - 1
                                 case Allocate(n) => Wrap64(s.current + n)
                                 case Free(n) => if Wrap64(s.current - n) < 0 then 0 else Wrap64(s.current - n)
  {
    hide Wrap64;
    var i := |s.threads|;
    var target := Target(max, op, s.current);
    var first := if target.Some? then ToSwap(s.current) else if Acquires(op) then Refused else Succeeded;
    s1 := s.(threads := s.threads + [Thread(op, ToLoad)]);
    s2 := s1.(threads := s.threads + [Thread(op, first)]);
    assert s1.threads[i := Thread(op, first)] == s2.threads;
    t := s2;
    if target.Some? {
      t := State(target.value, s.threads + [Thread(op, Succeeded)],
                 s.acquired + (if Acquires(op) then Size(op) else 0),
                 s.released + (if Acquires(op) then 0 else s.current - target.value));
      assert s2.threads[i := Thread(op, Succeeded)] == t.threads;
    }
  }

  // ---- slots are all given back ----

  function Weight(b: bool): int {
    if b then 1 else 0
  }

  /** A slot that was acquired. */
  function Got(th: Thread): int {
    Weight(th.op.Acquire? && th.pc.Succeeded?)
  }

  /** A release that has ended. */
  function GaveBack(th: Thread): int {
    Weight(th.op.Release? && th.pc.Succeeded?)
  }

  /** A release still running. */
  function GivingBack(th: Thread): int {
    Weight(th.op.Release? && !th.pc.Succeeded?)
  }

  predicate IsSlot(op: Op) {
    op.Acquire? || op.Release?
  }

  /** Only slots are used, and a release is called for an acquire that succeeded and has not been released before. */
  ghost predicate Paired(s: State, a: Action) {
    a.Call? ==> IsSlot(a.op) &&
                (a.op.Release? ==> Sum(s.threads, GaveBack) + Sum(s.threads, GivingBack) < Sum(s.threads, Got))
  }

  ghost predicate SlotsRight(s: State) {
    && s.current == Sum(s.threads, Got) - Sum(s.threads, GaveBack)
    && Sum(s.threads, GaveBack) + Sum(s.threads, GivingBack) <= Sum(s.threads, Got)
    && (forall i :: 0 <= i < |s.threads| ==> SlotThread(s.threads[i]))
  }

  predicate SlotThread(th: Thread) {
    IsSlot(th.op) && (th.op.Release? ==> !th.pc.Refused?) && (th.op.Release? && th.pc.ToSwap? ==> th.pc.seen > 0)
  }

  lemma SlotCall(max: int, s: State, a: Action, t: State)
    requires SlotsRight(s) && a.Call? && Step(max, s, a, t) && Paired(s, a)
    ensures SlotsRight(t)
  {
    SumAppend(s.threads, Thread(a.op, ToLoad), Got);
    SumAppend(s.threads, Thread(a.op, ToLoad), GaveBack);
    SumAppend(s.threads, Thread(a.op, ToLoad), GivingBack);
    hide Sum;
  }

  /** A release that is still running finds something to give back. */
  lemma SomethingHeld(s: State, i: nat)
    requires SlotsRight(s) && i < |s.threads| && s.threads[i].op.Release? && !s.threads[i].pc.Succeeded?
    ensures s.current > 0
  {
    SumAtLeast(s.threads, GivingBack, i);
    hide Sum;
  }

  lemma SlotStep(max: int, s: State, a: Action, t: State)
    requires SlotsRight(s) && !a.Call? && Step(max, s, a, t)
    ensures SlotsRight(t)
  {
    var th, u := s.threads[a.i], t.threads[a.i];
    assert SlotThread(th);
    if th.op.Release? && !th.pc.Succeeded? {
      SomethingHeld(s, a.i);
    }
    assert t.threads == s.threads[a.i := u];
    SumUpdate(s.threads, a.i, u, Got);
    SumUpdate(s.threads, a.i, u, GaveBack);
    SumUpdate(s.threads, a.i, u, GivingBack);
    hide Sum;
  }

  ghost predicate PairedRun(states: seq<State>, actions: seq<Action>) {
    |states| == |actions| + 1 && forall i :: 0 <= i < |actions| ==> Paired(states[i], actions[i])
  }

  /**
   In every interleaving in which each release follows its own successful acquire:
   the counter is the number of acquires that succeeded less the releases that
   have ended, no release ends without lowering it, and once everything acquired
   has been given back it is zero.
   */
  lemma {:induction false} SlotsGivenBack(max: int, states: seq<State>, actions: seq<Action>, n: nat)
    requires Run(max, states, actions) && PairedRun(states, actions) && n < |states|
    ensures SlotsRight(states[n])
    ensures Sum(states[n].threads, GaveBack) == Sum(states[n].threads, Got) ==> states[n].current == 0
  {
    if n > 0 {
      SlotsGivenBack(max, states, actions, n - 1);
      hide SlotsRight, Paired;
      assert Step(max, states[n - 1], actions[n - 1], states[n]) && Paired(states[n - 1], actions[n - 1]);
      if actions[n - 1].Call? {
        SlotCall(max, states[n - 1], actions[n - 1], states[n]);
      } else {
        SlotStep(max, states[n - 1], actions[n - 1], states[n]);
      }
    }
  }

  // ---- the composite limiter, run without other users ----

  /** A connection or goroutine limiter as one caller sees it. */
  class SlotLimiter {
    const max: int
    var current: int

    constructor (max: int)
      ensures this.max == max && current == 0
    {
      this.max := max;
      current := 0;
    }

    method Acquire() returns (ok: bool)
      modifies this
      ensures ok == (old(current) < max)
      ensures current == if ok then old(current) + 1 else old(current)
    {
      if current >= max {
        return false;
      }
      current := current + 1;
      ok := true;
    }

    method Release()
      modifies this
      ensures current == if old(current) <= 0 then old(current) else old(current) - 1
    {
      if current > 0 {
        current := current - 1;
      }
    }
  }

  /** How often a limiter object is listed. */
  ghost function Listed(limiters: seq<SlotLimiter>, l: SlotLimiter): nat {
    multiset(limiters)[l]
  }

  lemma ListedSnoc(limiters: seq<SlotLimiter>, k: nat, l: SlotLimiter)
    requires k < |limiters|
    ensures Listed(limiters[..k + 1], l) == Listed(limiters[..k], l) + if limiters[k] == l then 1 else 0
  {
    assert limiters[..k + 1] == limiters[..k] + [limiters[k]];
  }

  class CompositeLimiter {
    const limiters: seq<SlotLimiter>

    constructor (limiters: seq<SlotLimiter>)
      ensures this.limiters == limiters
    {
      this.limiters := limiters;
    }

    /**
     Acquire is all or nothing, even when one limiter is listed several times:
     success raises every count by its number of occurrences, and failure, which
     happens exactly when some limiter lacks room for all its occurrences,
     leaves every count as it was.
     */
    method Acquire() returns (ok: bool)
      requires forall l :: l in limiters ==> l.current >= 0
      modifies limiters
      ensures ok ==> forall l :: l in limiters ==> l.current == old(l.current) + Listed(limiters, l)
      ensures !ok ==> forall l :: l in limiters ==> l.current == old(l.current)
      ensures ok <==> forall l :: l in limiters ==> old(l.current) + Listed(limiters, l) <= l.max
    {
      var i := 0;
      while i < |limiters|
        invariant 0 <= i <= |limiters|
        invariant forall l :: l in limiters ==> l.current == old(l.current) + Listed(limiters[..i], l)
        invariant forall l :: l in limiters && Listed(limiters[..i], l) > 0 ==> l.current <= l.max
      {
        var acquired := limiters[i].Acquire();
        if !acquired {
          ghost var full := limiters[i];
          assert old(full.current) + Listed(limiters, full) > full.max by {
            ListedSnoc(limiters, i, full);
            PrefixMonotone(limiters, i + 1, |limiters|, full);
            assert limiters[..|limiters|] == limiters;
          }
          ReleaseFirst(i);
          return false;
        }
        forall l ensures Listed(limiters[..i + 1], l) == Listed(limiters[..i], l) + if limiters[i] == l then 1 else 0 {
          ListedSnoc(limiters, i, l);
        }
        i := i + 1;
      }
      assert limiters[..i] == limiters;
      ok := true;
    }

    /** The rollback loop, over the indexes acquired so far; a release of an empty limiter does nothing. */
    method ReleaseFirst(n: nat)
      requires n <= |limiters|
      modifies limiters
      ensures forall l :: l in limiters ==> l.current == Lowered(old(l.current), Listed(limiters[..n], l))
    {
      var k := 0;
      while k < n
        invariant 0 <= k <= n
        invariant forall l :: l in limiters ==> l.current == Lowered(old(l.current), Listed(limiters[..k], l))
      {
        limiters[k].Release();
        forall l ensures Listed(limiters[..k + 1], l) == Listed(limiters[..k], l) + if limiters[k] == l then 1 else 0 {
          ListedSnoc(limiters, k, l);
        }
        k := k + 1;
      }
    }

    /** Release lowers every count by its number of occurrences, so it undoes exactly one successful Acquire. */
    method Release()
      modifies limiters
      ensures forall l :: l in limiters ==> l.current == Lowered(old(l.current), Listed(limiters, l))
    {
      assert limiters[..|limiters|] == limiters;
      ReleaseFirst(|limiters|);
    }
  }

  /** A count after k releases. */
  function Lowered(current: int, k: nat): int {
    if current <= 0 then current else if k <= current then current - k else 0
  }

  lemma PrefixMonotone(limiters: seq<SlotLimiter>, k: nat, n: nat, l: SlotLimiter)
    requires k <= n <= |limiters|
    ensures Listed(limiters[..k], l) <= Listed(limiters[..n], l)
  {
    assert limiters[..n] == limiters[..k] + limiters[k..n];
  }
}

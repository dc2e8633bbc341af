/**
 The connection counter of MuxConnManager under every interleaving of its
 goroutines. Each sync.Map call and each atomic addition is one step.
 */
module MuxAccounting {
  import opened Bytes
  import opened Sums

  /** AddConnection: Store, activeConns.Add(1), totalConns.Add(1) and the start of the forwarder. */
  datatype AddPc = ToStore | ToCount | ToTotal | Added

  /** RemoveConnection, an incoming CLOSE and the end of a forwarder: LoadAndDelete, then activeConns.Add(-1). */
  datatype RemovePc = ToDelete | ToUncount | Removed

  datatype Thread = Adder(id: bytes, apc: AddPc) | Remover(id: bytes, rpc: RemovePc)

  /**
   `stored`, `overwritten` and `counted` are the history: every Store, the
   entries a later Store replaced, and the connections counted down.
   */
  datatype State = State(conns: set<bytes>, active: int, total: int, threads: seq<Thread>,
                         stored: multiset<bytes>, overwritten: multiset<bytes>, counted: multiset<bytes>)

  datatype Action = CallAdd(id: bytes) | CallRemove(id: bytes) | Advance(i: nat)

  ghost predicate Init(s: State) {
    s == State({}, 0, 0, [], multiset{}, multiset{}, multiset{})
  }

  function Moved(s: State, i: nat, th: Thread): State
    requires i < |s.threads|
  {
    s.(threads := s.threads[i := th])
  }

  ghost predicate Step(s: State, a: Action, t: State) {
    match a
    case CallAdd(id) => t == s.(threads := s.threads + [Adder(id, ToStore)])
    case CallRemove(id) => t == s.(threads := s.threads + [Remover(id, ToDelete)])
    case Advance(i) => i < |s.threads| && StepThread(s, i, s.threads[i], t)
  }

  ghost predicate StepThread(s: State, i: nat, th: Thread, t: State)
    requires i < |s.threads|
  {
    match th
    case Adder(id, ToStore) =>
      t == Moved(s, i, Adder(id, ToCount)).(
             conns := s.conns + {id}, stored := s.stored + multiset{id},
             overwritten := if id in s.conns then s.overwritten + multiset{id} else s.overwritten)
    case Adder(id, ToCount) =>
      t == Moved(s, i, Adder(id, ToTotal)).(active := s.active + 1)
    case Adder(id, ToTotal) =>
      t == s.(threads := s.threads[i := Adder(id, Added)] + [Remover(id, ToDelete)], total := s.total + 1)
    case Remover(id, ToDelete) =>
      if id in s.conns then t == Moved(s, i, Remover(id, ToUncount)).(conns := s.conns - {id})
      else t == Moved(s, i, Remover(id, Removed))
    case Remover(id, ToUncount) =>
      t == Moved(s, i, Remover(id, Removed)).(active := s.active - 1, counted := s.counted + multiset{id})
    case _ => false
  }

  /** Stored but not yet counted, or deleted but not yet counted down. */
  function Owed(th: Thread): int {
    match th
    case Adder(_, ToCount) => -1
    case Remover(_, ToUncount) => 1
    case _ => 0
  }

  /** A thread about to count down `id`. */
  function Uncounting(id: bytes): Thread -> int {
    (th: Thread) => if th == Remover(id, ToUncount) then 1 else 0
  }

  ghost predicate Inv(s: State) {
    && CounterRight(s)
    && (forall id :: Balanced(s, id))
  }

  /** Every Store of an identifier is in the map, overwritten, being counted down or counted down. */
  ghost predicate Balanced(s: State, id: bytes) {
    && s.stored[id] == (if id in s.conns then 1 else 0) + s.overwritten[id] + s.counted[id]
                       + Sum(s.threads, Uncounting(id))
    && (s.overwritten[id] > 0 ==> s.overwritten[id] < s.stored[id])
    && Sum(s.threads, Uncounting(id)) >= 0
  }

  ghost predicate CounterRight(s: State) {
    s.active == |s.conns| + |s.overwritten| + Sum(s.threads, Owed)
  }

  lemma CounterAdder(s: State, i: nat, t: State)
    requires CounterRight(s) && i < |s.threads| && s.threads[i].Adder? && StepThread(s, i, s.threads[i], t)
    ensures CounterRight(t)
  {
    hide Sum;
    var x := s.threads[i].id;
    match s.threads[i].apc
    case ToStore => SumUpdate(s.threads, i, Adder(x, ToCount), Owed);
    case ToCount => SumUpdate(s.threads, i, Adder(x, ToTotal), Owed);
    case ToTotal =>
      SumUpdate(s.threads, i, Adder(x, Added), Owed);
      SumAppend(s.threads[i := Adder(x, Added)], Remover(x, ToDelete), Owed);
  }

  lemma CounterRemover(s: State, i: nat, t: State)
    requires CounterRight(s) && i < |s.threads| && s.threads[i].Remover? && StepThread(s, i, s.threads[i], t)
    ensures CounterRight(t)
  {
    hide Sum;
    var x := s.threads[i].id;
    match s.threads[i].rpc
    case ToDelete => SumUpdate(s.threads, i, Remover(x, if x in s.conns then ToUncount else Removed), Owed);
    case ToUncount => SumUpdate(s.threads, i, Remover(x, Removed), Owed);
  }

  /** One thread's step keeps the counter equation. */
  lemma CounterThread(s: State, i: nat, t: State)
    requires CounterRight(s) && i < |s.threads| && StepThread(s, i, s.threads[i], t)
    ensures CounterRight(t)
  {
    hide CounterRight, StepThread;
    if s.threads[i].Adder? {
      CounterAdder(s, i, t);
    } else {
      CounterRemover(s, i, t);
    }
  }

  lemma UncountingAfterMove(threads: seq<Thread>, i: nat, th: Thread, id: bytes)
    requires i < |threads|
    ensures Sum(threads[i := th], Uncounting(id)) ==
            Sum(threads, Uncounting(id)) - Uncounting(id)(threads[i]) + Uncounting(id)(th)
    ensures Sum(threads[i := th], Uncounting(id)) >= 0
  {
    SumUpdate(threads, i, th, Uncounting(id));
    SumNonNegative(threads[i := th], Uncounting(id));
  }

  /** One thread's step keeps every identifier balanced. */
  lemma BalancedThread(s: State, i: nat, t: State, id: bytes)
    requires Balanced(s, id)
    requires i < |s.threads| && StepThread(s, i, s.threads[i], t)
    ensures Balanced(t, id)
  {
    hide Sum;
    match s.threads[i]
    case Adder(x, ToStore) => UncountingAfterMove(s.threads, i, Adder(x, ToCount), id);
    case Adder(x, ToCount) => UncountingAfterMove(s.threads, i, Adder(x, ToTotal), id);
    case Adder(x, ToTotal) =>
      UncountingAfterMove(s.threads, i, Adder(x, Added), id);
      SumAppend(s.threads[i := Adder(x, Added)], Remover(x, ToDelete), Uncounting(id));
    case Remover(x, ToDelete) =>
      UncountingAfterMove(s.threads, i, Remover(x, if x in s.conns then ToUncount else Removed), id);
    case Remover(x, ToUncount) => UncountingAfterMove(s.threads, i, Remover(x, Removed), id);
  }

  lemma InvStep(s: State, a: Action, t: State)
    requires Inv(s) && Step(s, a, t)
    ensures Inv(t)
  {
    match a
    case CallAdd(x) => InvSpawn(s, Adder(x, ToStore), t);
    case CallRemove(x) => InvSpawn(s, Remover(x, ToDelete), t);
    case Advance(i) =>
      CounterThread(s, i, t);
      forall id ensures Balanced(t, id) {
        assert Balanced(s, id);
        BalancedThread(s, i, t, id);
      }
  }

  lemma InvSpawn(s: State, th: Thread, t: State)
    requires Inv(s) && t == s.(threads := s.threads + [th])
    requires (th.Adder? && th.apc.ToStore?) || (th.Remover? && th.rpc.ToDelete?)
    ensures Inv(t)
  {
    SumAppend(s.threads, th, Owed);
    forall id ensures Balanced(t, id) {
      assert Balanced(s, id);
      SumAppend(s.threads, th, Uncounting(id));
    }
  }

  ghost predicate Run(states: seq<State>, actions: seq<Action>) {
    && |states| == |actions| + 1
    && Init(states[0])
    && forall i :: 0 <= i < |actions| ==> Step(states[i], actions[i], states[i + 1])
  }

  /**
   At every point of every interleaving the counter is the map size, less the
   connections stored but not counted, plus those deleted but not counted down,
   plus the entries overwritten by a second Store of the same identifier.
   */
  lemma {:induction false} CounterInvariant(states: seq<State>, actions: seq<Action>, n: nat)
    requires Run(states, actions) && n < |states|
    ensures Inv(states[n])
  {
    if n > 0 {
      CounterInvariant(states, actions, n - 1);
      InvStep(states[n - 1], actions[n - 1], states[n]);
    } else {
      assert forall id :: Balanced(states[0], id);
    }
  }

  /**
   No call is between its map operation and its counting. Connections may be open:
   a forwarder that has not ended yet is a Remover still to delete.
   */
  ghost predicate Settled(s: State) {
    forall i :: 0 <= i < |s.threads| ==>
      match s.threads[i]
      case Adder(_, pc) => !pc.ToCount? && !pc.ToTotal?
      case Remover(_, pc) => !pc.ToUncount?
  }

  /** Once settled, the counter is the number of connections if and only if no Store overwrote another. */
  lemma QuiescentCountIff(states: seq<State>, actions: seq<Action>, n: nat)
    requires Run(states, actions) && n < |states| && Settled(states[n])
    ensures states[n].active == |states[n].conns| <==> states[n].overwritten == multiset{}
  {
    CounterInvariant(states, actions, n);
    SumZero(states[n].threads, Owed);
  }

  /** An identifier stored once is counted down at most once, and once settled exactly if it is gone. */
  lemma CountedDownOnce(states: seq<State>, actions: seq<Action>, n: nat, id: bytes)
    requires Run(states, actions) && n < |states| && states[n].stored[id] == 1
    ensures states[n].counted[id] <= 1 && id !in states[n].overwritten
    ensures Settled(states[n]) ==> (states[n].counted[id] == 1 <==> id !in states[n].conns)
  {
    CounterInvariant(states, actions, n);
    assert Balanced(states[n], id);
    if Settled(states[n]) {
      SumZero(states[n].threads, Uncounting(id));
    }
  }

  /** Settled states with an open connection exist: a connection just added, its forwarder running. */
  lemma OpenAndSettled(id: bytes) returns (states: seq<State>, actions: seq<Action>)
    ensures Run(states, actions) && Settled(states[|actions|])
    ensures states[|actions|].conns == {id} && states[|actions|].active == 1
  {
    var s0 := State({}, 0, 0, [], multiset{}, multiset{}, multiset{});
    var s1 := s0.(threads := [Adder(id, ToStore)]);
    var s2 := s1.(threads := [Adder(id, ToCount)], conns := {id}, stored := multiset{id});
    var s3 := s2.(threads := [Adder(id, ToTotal)], active := 1);
    var s4 := s3.(threads := [Adder(id, Added), Remover(id, ToDelete)], total := 1);
    states := [s0, s1, s2, s3, s4];
    actions := [CallAdd(id), Advance(0), Advance(0), Advance(0)];
    assert Step(s0, actions[0], s1) && Step(s1, actions[1], s2) && Step(s2, actions[2], s3) && Step(s3, actions[3], s4);
  }

  /** Where a call of RemoveConnection has got to: past its map operation the connection is out, unless stored again. */
  ghost predicate Removing(s: State, id: bytes, j: nat, storedBefore: nat) {
    && j < |s.threads| && s.threads[j].Remover? && s.threads[j].id == id
    && s.stored[id] >= storedBefore
    && (!s.threads[j].rpc.ToDelete? && s.stored[id] == storedBefore ==> id !in s.conns)
  }

  lemma RemovingStep(s: State, a: Action, t: State, id: bytes, j: nat, storedBefore: nat)
    requires Removing(s, id, j, storedBefore) && Step(s, a, t)
    ensures Removing(t, id, j, storedBefore)
  {
  }

  /**
   In every interleaving: a connection that was removed by call k is out of the map
   once that call is past its map operation, unless it has been stored again.
   */
  lemma {:induction false} RemoveRemoves(states: seq<State>, actions: seq<Action>, k: nat, n: nat)
    requires Run(states, actions) && k < n < |states| && actions[k].CallRemove?
    ensures Removing(states[n], actions[k].id, |states[k].threads|, states[k].stored[actions[k].id])
  {
    assert Step(states[n - 1], actions[n - 1], states[n]);
    if k < n - 1 {
      RemoveRemoves(states, actions, k, n - 1);
      RemovingStep(states[n - 1], actions[n - 1], states[n], actions[k].id, |states[k].threads|,
                   states[k].stored[actions[k].id]);
    }
  }

  // ---- every call ends ----

  function StepsLeft(th: Thread): nat {
    match th
    case Adder(_, pc) => if pc.ToStore? then 3 else if pc.ToCount? then 2 else if pc.ToTotal? then 1 else 0
    case Remover(_, pc) => if pc.ToDelete? then 2 else if pc.ToUncount? then 1 else 0
  }

  /** A call that has not ended can always take its next step, and each step brings it nearer its end. */
  lemma NeverStuck(s: State, i: nat) returns (t: State)
    requires i < |s.threads| && StepsLeft(s.threads[i]) > 0
    ensures Step(s, Advance(i), t) && i < |t.threads|
    ensures forall u :: Step(s, Advance(i), u) ==> u == t
    ensures StepsLeft(t.threads[i]) < StepsLeft(s.threads[i])
  {
    match s.threads[i]
    case Adder(id, ToStore) =>
      t := Moved(s, i, Adder(id, ToCount)).(
        conns := s.conns + {id}, stored := s.stored + multiset{id},
        overwritten := if id in s.conns then s.overwritten + multiset{id} else s.overwritten);
    case Adder(id, ToCount) => t := Moved(s, i, Adder(id, ToTotal)).(active := s.active + 1);
    case Adder(id, ToTotal) =>
      t := s.(threads := s.threads[i := Adder(id, Added)] + [Remover(id, ToDelete)], total := s.total + 1);
    case Remover(id, ToDelete) =>
      t := if id in s.conns then Moved(s, i, Remover(id, ToUncount)).(conns := s.conns - {id})
           else Moved(s, i, Remover(id, Removed));
    case Remover(id, ToUncount) =>
      t := Moved(s, i, Remover(id, Removed)).(active := s.active - 1, counted := s.counted + multiset{id});
  }
}

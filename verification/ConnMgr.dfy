/**
 The server's connection manager used through its wrapped connections, as a
 transition system: every semaphore, counter, map and close-flag operation is
 one step, and steps of different connections interleave freely.
 */
module ConnMgr {
  import opened Sums

  /** How far one connection has come; it stays in the state whose operation it performed last. */
  datatype Phase =
    | TurnedAway  // the manager was shut down
    | Asked       // past the shutdown check
    | Refused     // no permit left
    | Permitted   // holds a permit
    | Active      // counted as active
    | Totalled    // counted as accepted
    | Open        // stored under its identifier and wrapped
    | Closing     // the first Close has swapped the flag
    | Uncounted   // no longer counted as active
    | Removed     // no longer stored
    | Gone        // permit given back

  /** Identifiers are positions in `conns`; `limit` zero means no semaphore. */
  datatype State = State(
    limit: nat, down: bool, permits: nat, active: int, total: int, rejected: int,
    stored: set<nat>, conns: seq<Phase>)

  function Initial(limit: nat): State {
    State(limit, false, 0, 0, 0, 0, {}, [])
  }

  datatype Action =
    | Shutdown | Accept | AskPermit(i: nat) | CountActive(i: nat) | CountTotal(i: nat) | Store(i: nat)
    | Close(i: nat) | CountDown(i: nat) | Delete(i: nat) | GivePermit(i: nat)

  predicate At(s: State, i: nat, p: Phase) {
    i < |s.conns| && s.conns[i] == p
  }

  /** Close may be called on a wrapped connection at any time, by any number of callers. */
  predicate Wrapped(p: Phase) {
    p.Open? || p.Closing? || p.Uncounted? || p.Removed? || p.Gone?
  }

  /** An action is enabled unless it is not its turn; giving a permit back also waits for a permit to receive. */
  predicate Enabled(s: State, a: Action) {
    match a
    case Shutdown => true
    case Accept => true
    case AskPermit(i) => At(s, i, Asked)
    case CountActive(i) => At(s, i, Permitted)
    case CountTotal(i) => At(s, i, Active)
    case Store(i) => At(s, i, Totalled)
    case Close(i) => i < |s.conns| && Wrapped(s.conns[i])
    case CountDown(i) => At(s, i, Closing)
    case Delete(i) => At(s, i, Uncounted)
    case GivePermit(i) => At(s, i, Removed) && (s.limit > 0 ==> s.permits > 0)
  }

  function Apply(s: State, a: Action): State
    requires Enabled(s, a)
  {
    match a
    case Shutdown => s.(down := true)
    case Accept => s.(conns := s.conns + [if s.down then TurnedAway else Asked])
    case AskPermit(i) =>
      if s.limit == 0 then Move(s, i, Permitted)
      else if s.permits < s.limit then Move(s, i, Permitted).(permits := s.permits + 1)
      else Move(s, i, Refused).(rejected := s.rejected + 1)
    case CountActive(i) => Move(s, i, Active).(active := s.active + 1)
    case CountTotal(i) => Move(s, i, Totalled).(total := s.total + 1)
    case Store(i) => Move(s, i, Open).(stored := s.stored + {i})
    case Close(i) => if s.conns[i].Open? then Move(s, i, Closing) else s
    case CountDown(i) => Move(s, i, Uncounted).(active := s.active - 1)
    case Delete(i) => Move(s, i, Removed).(stored := s.stored - {i})
    case GivePermit(i) => Move(s, i, Gone).(permits := if s.limit > 0 then s.permits - 1 else s.permits)
  }

  function Move(s: State, i: nat, p: Phase): State
    requires i < |s.conns|
  {
    s.(conns := s.conns[i := p])
  }

  // ---- what each connection contributes to the shared state ----

  function Weight(b: bool): int {
    if b then 1 else 0
  }

  function Holds(p: Phase): int {
    Weight(!(p.TurnedAway? || p.Asked? || p.Refused? || p.Gone?))
  }

  function IsActive(p: Phase): int {
    Weight(p.Active? || p.Totalled? || p.Open? || p.Closing?)
  }

  function IsStored(p: Phase): int {
    Weight(p.Open? || p.Closing? || p.Uncounted?)
  }

  function IsTotalled(p: Phase): int {
    Weight(p.Totalled? || Wrapped(p))
  }

  function IsRefused(p: Phase): int {
    Weight(p.Refused?)
  }

  ghost predicate CountersAgree(s: State) {
    && s.permits == (if s.limit > 0 then Sum(s.conns, Holds) else 0)
    && (s.limit > 0 ==> s.permits <= s.limit)
    && s.active == Sum(s.conns, IsActive)
    && s.total == Sum(s.conns, IsTotalled)
    && s.rejected == Sum(s.conns, IsRefused)
  }

  ghost predicate MapAgrees(s: State) {
    && |s.stored| == Sum(s.conns, IsStored)
    && forall i: nat :: i in s.stored <==> i < |s.conns| && IsStored(s.conns[i]) == 1
  }

  ghost predicate Inv(s: State) {
    CountersAgree(s) && MapAgrees(s)
  }

  /** An action on connection i moves it to the phase it then has. */
  lemma OnlyMoves(s: State, a: Action) returns (p: Phase)
    requires Enabled(s, a) && !a.Accept? && !a.Shutdown?
    ensures a.i < |s.conns| == |Apply(s, a).conns| && p == Apply(s, a).conns[a.i]
    ensures Apply(s, a).conns == s.conns[a.i := p]
  {
    p := Apply(s, a).conns[a.i];
  }

  lemma CountersStep(s: State, a: Action)
    requires CountersAgree(s) && Enabled(s, a)
    ensures CountersAgree(Apply(s, a))
  {
    hide Sum;
    if a.Accept? {
      var p := if s.down then TurnedAway else Asked;
      SumAppend(s.conns, p, Holds);
      SumAppend(s.conns, p, IsActive);
      SumAppend(s.conns, p, IsTotalled);
      SumAppend(s.conns, p, IsRefused);
    } else if !a.Shutdown? {
      var p := OnlyMoves(s, a);
      SumUpdate(s.conns, a.i, p, Holds);
      SumUpdate(s.conns, a.i, p, IsActive);
      SumUpdate(s.conns, a.i, p, IsTotalled);
      SumUpdate(s.conns, a.i, p, IsRefused);
    }
  }

  lemma MapMove(s: State, t: State, i: nat, p: Phase)
    requires MapAgrees(s) && i < |s.conns| && t.conns == s.conns[i := p]
    requires t.stored == if IsStored(p) == 1 then s.stored + {i} else s.stored - {i}
    ensures MapAgrees(t)
  {
    hide Sum, IsStored;
    SumUpdate(s.conns, i, p, IsStored);
    StoredWeight(p);
    StoredWeight(s.conns[i]);
  }

  lemma StoredWeight(p: Phase)
    ensures IsStored(p) == 0 || IsStored(p) == 1
  {
  }

  lemma MapAccept(s: State)
    requires MapAgrees(s)
    ensures MapAgrees(Apply(s, Accept))
  {
    hide Sum;
    SumAppend(s.conns, if s.down then TurnedAway else Asked, IsStored);
  }

  /** An action stores or removes the identifier exactly when its connection enters or leaves the stored phases. */
  lemma StoredFollows(s: State, a: Action, p: Phase)
    requires Enabled(s, a) && !a.Accept? && !a.Shutdown?
    requires a.i < |s.conns| == |Apply(s, a).conns| && p == Apply(s, a).conns[a.i]
    requires a.i in s.stored <==> IsStored(s.conns[a.i]) == 1
    ensures Apply(s, a).stored == if IsStored(p) == 1 then s.stored + {a.i} else s.stored - {a.i}
  {
  }

  lemma MapStep(s: State, a: Action)
    requires MapAgrees(s) && Enabled(s, a)
    ensures MapAgrees(Apply(s, a))
  {
    hide Sum;
    if a.Accept? {
      MapAccept(s);
    } else if !a.Shutdown? {
      var p := OnlyMoves(s, a);
      assert a.i in s.stored <==> IsStored(s.conns[a.i]) == 1;
      StoredFollows(s, a, p);
      hide MapAgrees, Apply, IsStored;
      MapMove(s, Apply(s, a), a.i, p);
    }
  }

  lemma InvStep(s: State, a: Action)
    requires Inv(s) && Enabled(s, a)
    ensures Inv(Apply(s, a))
  {
    hide CountersAgree, MapAgrees;
    CountersStep(s, a);
    MapStep(s, a);
  }

  ghost predicate Run(limit: nat, states: seq<State>, actions: seq<Action>) {
    && |states| == |actions| + 1
    && states[0] == Initial(limit)
    && forall i :: 0 <= i < |actions| ==>
         Enabled(states[i], actions[i]) && states[i + 1] == Apply(states[i], actions[i])
  }

  lemma ActiveBounded(s: State)
    requires Inv(s)
    ensures s.limit > 0 ==> 0 <= s.active <= s.permits <= s.limit
  {
    SumDominates(s.conns, IsActive, Holds);
    SumNonNegative(s.conns, IsActive);
    hide Sum;
  }

  /** In every interleaving: active connections never exceed the permits held, which never exceed the limit. */
  lemma {:induction false} ActiveWithinLimit(limit: nat, states: seq<State>, actions: seq<Action>, n: nat)
    requires Run(limit, states, actions) && n < |states|
    ensures Inv(states[n]) && states[n].limit == limit
    ensures limit > 0 ==> 0 <= states[n].active <= states[n].permits <= limit
  {
    if n > 0 {
      hide Inv;
      ActiveWithinLimit(limit, states, actions, n - 1);
      InvStep(states[n - 1], actions[n - 1]);
    }
    ActiveBounded(states[n]);
  }

  /** The receive that ends a Release never blocks: the permit this connection took is still in the channel. */
  lemma ReleaseNeverBlocks(s: State, i: nat)
    requires Inv(s) && At(s, i, Removed)
    ensures Enabled(s, GivePermit(i))
  {
    SumAtLeast(s.conns, Holds, i);
  }

  /** A connection is refused only when `limit` connections hold permits at that very moment. */
  lemma RefusedOnlyWhenFull(s: State, i: nat)
    requires Inv(s) && At(s, i, Asked)
    ensures Apply(s, AskPermit(i)).conns[i] == Refused <==> s.limit > 0 && Sum(s.conns, Holds) == s.limit
  {
    hide Sum;
  }

  /** Nothing in flight: every connection is open or at its end. */
  ghost predicate Quiescent(s: State) {
    forall i :: 0 <= i < |s.conns| ==>
      s.conns[i].TurnedAway? || s.conns[i].Refused? || s.conns[i].Open? || s.conns[i].Gone?
  }

  lemma {:induction false} SumEqual(c: seq<Phase>, f: Phase -> int, g: Phase -> int)
    requires forall i :: 0 <= i < |c| ==> f(c[i]) == g(c[i])
    ensures Sum(c, f) == Sum(c, g)
  {
    SumDominates(c, f, g);
    SumDominates(c, g, f);
  }

  function IsGone(p: Phase): int {
    Weight(p.Gone?)
  }

  lemma {:induction false} TotalSplits(c: seq<Phase>)
    requires forall i :: 0 <= i < |c| ==> c[i].TurnedAway? || c[i].Refused? || c[i].Open? || c[i].Gone?
    ensures Sum(c, IsTotalled) == Sum(c, IsStored) + Sum(c, IsGone)
  {
    if c != [] {
      TotalSplits(c[..|c| - 1]);
    }
  }

  /**
   At quiescence the active count, the permits held and the map agree, and every
   accepted connection is either stored or gone for good.
   */
  lemma QuiescentAgree(s: State)
    requires Inv(s) && Quiescent(s)
    ensures s.active == |s.stored|
    ensures s.limit > 0 ==> s.permits == |s.stored|
    ensures s.total == |s.stored| + Sum(s.conns, IsGone)
    ensures forall i: nat :: i in s.stored <==> At(s, i, Open)
  {
    hide Sum;
    SumEqual(s.conns, IsActive, IsStored);
    SumEqual(s.conns, Holds, IsStored);
    TotalSplits(s.conns);
  }

  // ---- accepting and closing do what they are for ----

  /** The manager turns a connection away if and only if it was shut down before. */
  lemma {:induction false} DownIff(limit: nat, states: seq<State>, actions: seq<Action>, n: nat)
    requires Run(limit, states, actions) && n < |states|
    ensures states[n].down <==> Shutdown in actions[..n]
    ensures n < |actions| && actions[n].Accept? ==>
              && |states[n + 1].conns| == |states[n].conns| + 1
              && states[n + 1].conns[|states[n].conns|] == if Shutdown in actions[..n] then TurnedAway else Asked
  {
    if n > 0 {
      DownIff(limit, states, actions, n - 1);
      assert actions[..n] == actions[..n - 1] + [actions[n - 1]];
      assert Enabled(states[n - 1], actions[n - 1]) && states[n] == Apply(states[n - 1], actions[n - 1]);
    }
    if n < |actions| {
      assert Enabled(states[n], actions[n]) && states[n + 1] == Apply(states[n], actions[n]);
    }
  }

  /** A state after one more action that is possible in it. */
  ghost predicate Goes(s: State, a: Action, t: State) {
    Enabled(s, a) && t == Apply(s, a)
  }

  /**
   With a permit left, a new connection gets through Accept: it takes one permit,
   is counted as active and accepted, and stored.
   */
  lemma AcceptAlone(s: State) returns (s1: State, s2: State, s3: State, s4: State, t: State)
    requires !s.down && (s.limit == 0 || s.permits < s.limit)
    ensures var i := |s.conns|;
            && Goes(s, Accept, s1) && Goes(s1, AskPermit(i), s2) && Goes(s2, CountActive(i), s3)
            && Goes(s3, CountTotal(i), s4) && Goes(s4, Store(i), t)
            && t == State(s.limit, false, s.permits + (if s.limit > 0 then 1 else 0), s.active + 1, s.total + 1,
                          s.rejected, s.stored + {i}, s.conns + [Open])
  {
    var i := |s.conns|;
    s1 := Apply(s, Accept);
    s2 := Apply(s1, AskPermit(i));
    s3 := Apply(s2, CountActive(i));
    s4 := Apply(s3, CountTotal(i));
    t := Apply(s4, Store(i));
  }

  /** Closing an open connection undoes that, but for the number accepted. */
  lemma CloseAlone(s: State, i: nat) returns (s1: State, s2: State, s3: State, t: State)
    requires At(s, i, Open) && (s.limit > 0 ==> s.permits > 0)
    ensures Goes(s, Close(i), s1) && Goes(s1, CountDown(i), s2) && Goes(s2, Delete(i), s3) && Goes(s3, GivePermit(i), t)
    ensures t == s.(permits := s.permits - (if s.limit > 0 then 1 else 0), active := s.active - 1,
                    stored := s.stored - {i}, conns := s.conns[i := Gone])
  {
    s1 := Apply(s, Close(i));
    s2 := Apply(s1, CountDown(i));
    s3 := Apply(s2, Delete(i));
    t := Apply(s3, GivePermit(i));
  }

  /** The connection is on its way out. */
  predicate Leaving(s: State, i: nat) {
    i < |s.conns| && (s.conns[i].Closing? || s.conns[i].Uncounted? || s.conns[i].Removed? || s.conns[i].Gone?)
  }

  /** In every run, from its first Close on a connection only leaves, and with nothing in flight it is gone. */
  lemma {:induction false} ClosedGoes(limit: nat, states: seq<State>, actions: seq<Action>, k: nat, n: nat)
    requires Run(limit, states, actions) && k < n < |states| && actions[k].Close?
    ensures Leaving(states[n], actions[k].i)
    ensures Quiescent(states[n]) ==> states[n].conns[actions[k].i] == Gone
  {
    assert Enabled(states[n - 1], actions[n - 1]) && states[n] == Apply(states[n - 1], actions[n - 1]);
    if k < n - 1 {
      ClosedGoes(limit, states, actions, k, n - 1);
    }
  }

  // ---- every call ends ----

  /** How many steps Accept or Close has still to take for a connection. */
  function StepsLeft(p: Phase): nat {
    match p
    case Asked => 4
    case Permitted => 3
    case Active => 2
    case Totalled => 1
    case Closing => 3
    case Uncounted => 2
    case Removed => 1
    case _ => 0
  }

  /** A connection in the middle of Accept or Close can always take its next step; none of them ever blocks. */
  lemma NeverStuck(s: State, i: nat) returns (a: Action)
    requires Inv(s) && i < |s.conns| && StepsLeft(s.conns[i]) > 0
    ensures !a.Shutdown? && !a.Accept? && !a.Close? && a.i == i && Enabled(s, a)
    ensures StepsLeft(Apply(s, a).conns[i]) < StepsLeft(s.conns[i])
  {
    if s.conns[i].Removed? {
      ReleaseNeverBlocks(s, i);
    }
    hide Inv;
    match s.conns[i]
    case Asked => a := AskPermit(i);
    case Permitted => a := CountActive(i);
    case Active => a := CountTotal(i);
    case Totalled => a := Store(i);
    case Closing => a := CountDown(i);
    case Uncounted => a := Delete(i);
    case Removed => a := GivePermit(i);
  }
}

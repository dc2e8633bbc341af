/**
 The tunnel registry and its port allocator under every interleaving of
 registrations and closes. Each sync.Map call, atomic addition and critical
 section of the port manager is one step.
 */
module Registry {
  import opened Prelude
  import opened Sums

  // ---- the port manager ----

  function LowestFree(start: int, end: int, used: set<int>): Option<int>
    decreases end - start
  {
    if start > end then None
    else if start !in used then Some(start)
    else LowestFree(start + 1, end, used)
  }

  lemma {:induction false} LowestFreeIsLeast(start: int, end: int, used: set<int>)
    ensures match LowestFree(start, end, used)
            case None => forall p :: start <= p <= end ==> p in used
            case Some(p) => start <= p <= end && p !in used && forall q :: start <= q < p ==> q in used
    decreases end - start
  {
    if start <= end && start in used {
      LowestFreeIsLeast(start + 1, end, used);
    }
  }

  class PortManager {
    const start: int
    const end: int
    var used: set<int>

    constructor (start: int, end: int)
      ensures this.start == start && this.end == end && used == {}
    {
      this.start := start;
      this.end := end;
      used := {};
    }

    /** Allocate marks and returns the lowest free port of the range, or fails with the range exhausted. */
    method Allocate() returns (r: Option<int>)
      modifies this
      ensures r == LowestFree(start, end, old(used))
      ensures used == if r.Some? then old(used) + {r.value} else old(used)
    {
      var port := start;
      while port <= end
        invariant used == old(used)
        invariant LowestFree(start, end, used) == LowestFree(port, end, used)
        decreases end - port
      {
        if port !in used {
          used := used + {port};
          return Some(port);
        }
        port := port + 1;
      }
      r := None;
    }

    method Release(port: int)
      modifies this
      ensures used == old(used) - {port}
    {
      used := used - {port};
    }
  }

  // ---- threads ----

  /** Identifiers and domains are only ever compared, so numbers stand for them; domain 0 is the empty string. */
  type Id = int
  type Domain = int
  const NO_DOMAIN: Domain := 0

  datatype Tunnel = Tunnel(id: Id, domain: Domain, port: int)

  /** Registration: allocate a port if the protocol needs one, then Register's map store, count and index store. */
  datatype RegisterPc = ToAllocate | ToStore | ToCount | ToIndex | Registered | Refused

  /** Delete, Unregister and CloseTunnel: LoadAndDelete, count down, index delete, port release. */
  datatype ClosePc = ToTake | ToUncount | ToUnindex | ToRelease | Finished

  datatype Thread =
    | Registrar(tunnel: Tunnel, needsPort: bool, rpc: RegisterPc)
    | Closer(target: Id, taken: Option<Tunnel>, cpc: ClosePc)

  /** Who is responsible for a used port. */
  datatype Holder = ByThread(i: nat) | InMap(id: Id)

  datatype Ports = Ports(start: int, end: int)

  /**
   What has happened so far: the registering thread of each identifier, the
   latest identifier of each domain, the closer that took a tunnel, the tunnels whose
   index delete has run, those for which it ran before the index store, and the
   holder of each used port.
   */
  datatype History = History(registrar: map<Id, nat>, domainOf: map<Domain, Id>, taker: map<Id, nat>,
                             unindexed: set<Id>, early: set<Id>, holder: map<int, Holder>)

  datatype State = State(used: set<int>, tunnels: map<Id, Tunnel>, index: map<Domain, Id>, active: int,
                         threads: seq<Thread>, h: History)

  /** The atomic operations; i is the thread that performs one. Identifiers are fresh; domains may be used again. */
  datatype Action =
    | CallRegister(id: Id, domain: Domain, needsPort: bool) | CallClose(id: Id)
    | NoPort(i: nat) | Allocate(i: nat) | Refuse(i: nat) | Store(i: nat) | Count(i: nat) | Index(i: nat)
    | Take(i: nat) | Miss(i: nat) | Uncount(i: nat) | Unindex(i: nat) | Release(i: nat)

  function Initial(): State {
    State({}, map[], map[], 0, [], History(map[], map[], map[], {}, {}, map[]))
  }

  function Hold(holder: map<int, Holder>, port: int, h: Holder): map<int, Holder> {
    if port > 0 then holder[port := h] else holder
  }

  predicate RegistrarAt(s: State, i: nat, pc: RegisterPc) {
    i < |s.threads| && s.threads[i].Registrar? && s.threads[i].rpc == pc
  }

  predicate CloserAt(s: State, i: nat, pc: ClosePc) {
    i < |s.threads| && s.threads[i].Closer? && s.threads[i].cpc == pc && (pc.ToTake? || s.threads[i].taken.Some?)
  }

  predicate Enabled(c: Ports, s: State, a: Action) {
    match a
    case CallRegister(id, _, _) => id !in s.h.registrar
    case CallClose(_) => true
    case NoPort(i) => RegistrarAt(s, i, ToAllocate) && !s.threads[i].needsPort
    case Allocate(i) =>
      RegistrarAt(s, i, ToAllocate) && s.threads[i].needsPort && LowestFree(c.start, c.end, s.used).Some?
    case Refuse(i) =>
      RegistrarAt(s, i, ToAllocate) && s.threads[i].needsPort && LowestFree(c.start, c.end, s.used).None?
    case Store(i) => RegistrarAt(s, i, ToStore)
    case Count(i) => RegistrarAt(s, i, ToCount)
    case Index(i) => RegistrarAt(s, i, ToIndex)
    case Take(i) => CloserAt(s, i, ToTake) && s.threads[i].target in s.tunnels
    case Miss(i) => CloserAt(s, i, ToTake) && s.threads[i].target !in s.tunnels
    case Uncount(i) => CloserAt(s, i, ToUncount)
    case Unindex(i) => CloserAt(s, i, ToUnindex)
    case Release(i) => CloserAt(s, i, ToRelease)
  }

  function Apply(c: Ports, s: State, a: Action): State
    requires Enabled(c, s, a)
  {
    match a
    case CallRegister(id, domain, needsPort) =>
      s.(threads := s.threads + [Registrar(Tunnel(id, domain, 0), needsPort, ToAllocate)],
         h := s.h.(registrar := s.h.registrar[id := |s.threads|],
                   domainOf := if domain == NO_DOMAIN then s.h.domainOf else s.h.domainOf[domain := id]))
    case CallClose(id) => s.(threads := s.threads + [Closer(id, None, ToTake)])
    case NoPort(i) => s.(threads := s.threads[i := s.threads[i].(rpc := ToStore)])
    case Allocate(i) =>
      var p := LowestFree(c.start, c.end, s.used).value;
      var th := s.threads[i];
      s.(threads := s.threads[i := th.(tunnel := th.tunnel.(port := p), rpc := ToStore)],
         used := s.used + {p}, h := s.h.(holder := s.h.holder[p := ByThread(i)]))
    case Refuse(i) => s.(threads := s.threads[i := s.threads[i].(rpc := Refused)])
    case Store(i) =>
      var t := s.threads[i].tunnel;
      s.(threads := s.threads[i := s.threads[i].(rpc := ToCount)], tunnels := s.tunnels[t.id := t],
         h := s.h.(holder := Hold(s.h.holder, t.port, InMap(t.id))))
    case Count(i) => s.(threads := s.threads[i := s.threads[i].(rpc := ToIndex)], active := s.active + 1)
    case Index(i) =>
      var t := s.threads[i].tunnel;
      s.(threads := s.threads[i := s.threads[i].(rpc := Registered)],
         index := if t.domain == NO_DOMAIN then s.index else s.index[t.domain := t.id])
    case Take(i) =>
      var x := s.threads[i].target;
      s.(threads := s.threads[i := Closer(x, Some(s.tunnels[x]), ToUncount)], tunnels := s.tunnels - {x},
         h := s.h.(taker := s.h.taker[x := i], holder := Hold(s.h.holder, s.tunnels[x].port, ByThread(i))))
    case Miss(i) => s.(threads := s.threads[i := Closer(s.threads[i].target, None, Finished)])
    case Uncount(i) => s.(threads := s.threads[i := s.threads[i].(cpc := ToUnindex)], active := s.active - 1)
    case Unindex(i) =>
      var x, t := s.threads[i].target, s.threads[i].taken.value;
      s.(threads := s.threads[i := s.threads[i].(cpc := ToRelease)],
         index := if t.domain == NO_DOMAIN then s.index else s.index - {t.domain},
         h := s.h.(unindexed := s.h.unindexed + {x},
                   early := if t.domain != NO_DOMAIN && t.domain !in s.index then s.h.early + {x} else s.h.early))
    case Release(i) =>
      var p := s.threads[i].taken.value.port;
      s.(threads := s.threads[i := s.threads[i].(cpc := Finished)],
         used := if p > 0 then s.used - {p} else s.used,
         h := s.h.(holder := if p > 0 then s.h.holder - {p} else s.h.holder))
  }

  // ---- the invariant, one identifier, thread, domain and port at a time ----

  predicate PastStore(th: Thread) {
    th.Registrar? && (th.rpc.ToCount? || th.rpc.ToIndex? || th.rpc.Registered?)
  }

  /** The registering thread of an identifier. */
  predicate HasRegistrar(s: State, id: Id) {
    && id in s.h.registrar && s.h.registrar[id] < |s.threads|
    && s.threads[s.h.registrar[id]].Registrar? && s.threads[s.h.registrar[id]].tunnel.id == id
  }

  function RegistrarOf(s: State, id: Id): Thread
    requires HasRegistrar(s, id)
  {
    s.threads[s.h.registrar[id]]
  }

  /** The closer that took `id`, and where it stands with the index. */
  ghost predicate TakerIsReal(s: State, id: Id)
    requires id in s.h.taker && HasRegistrar(s, id)
  {
    && s.h.taker[id] < |s.threads|
    && var th := s.threads[s.h.taker[id]];
       && th.Closer? && th.target == id && th.taken == Some(RegistrarOf(s, id).tunnel) && !th.cpc.ToTake?
       && (id in s.h.unindexed <==> th.cpc.ToRelease? || th.cpc.Finished?)
  }

  /** A stored tunnel is in the map until exactly one closer takes it. */
  ghost predicate LifeOf(s: State, id: Id) {
    && (id in s.h.registrar ==> HasRegistrar(s, id))
    && (id in s.tunnels || id in s.h.taker <==> HasRegistrar(s, id) && PastStore(RegistrarOf(s, id)))
    && (id in s.tunnels ==> id !in s.h.taker && s.tunnels[id] == RegistrarOf(s, id).tunnel)
    && (id in s.h.taker ==> TakerIsReal(s, id))
    && (id in s.h.unindexed ==> id in s.h.taker)
    && (id in s.h.early ==> id in s.h.unindexed && RegistrarOf(s, id).tunnel.domain != NO_DOMAIN)
  }

  ghost predicate ThreadOf(s: State, i: nat) {
    i < |s.threads| ==>
      match s.threads[i]
      case Registrar(t, _, pc) =>
        && t.id in s.h.registrar && s.h.registrar[t.id] == i
        && (pc.ToAllocate? ==> t.port == 0)
      case Closer(x, taken, pc) =>
        if taken.Some? then x in s.h.taker && s.h.taker[x] == i else pc.ToTake? || pc.Finished?
  }

  /** The port a thread itself is responsible for; 0 for none. */
  function HeldBy(th: Thread): int {
    match th
    case Registrar(t, _, ToStore) => t.port
    case Closer(_, Some(t), ToUncount) => t.port
    case Closer(_, Some(t), ToUnindex) => t.port
    case Closer(_, Some(t), ToRelease) => t.port
    case _ => 0
  }

  /** A port is used exactly when it has a holder, and its holder really holds it. */
  ghost predicate PortOf(c: Ports, s: State, p: int) {
    && (p in s.used <==> p in s.h.holder)
    && (p in s.h.holder ==>
          && c.start <= p <= c.end
          && match s.h.holder[p]
             case ByThread(i) => i < |s.threads| && HeldBy(s.threads[i]) == p
             case InMap(id) => id in s.tunnels && s.tunnels[id].port == p)
  }

  ghost predicate ThreadHolds(s: State, i: nat) {
    i < |s.threads| && HeldBy(s.threads[i]) > 0 ==>
      HeldBy(s.threads[i]) in s.h.holder && s.h.holder[HeldBy(s.threads[i])] == ByThread(i)
  }

  ghost predicate TunnelHolds(s: State, id: Id) {
    id in s.tunnels && s.tunnels[id].port > 0 ==>
      s.tunnels[id].port in s.h.holder && s.h.holder[s.tunnels[id].port] == InMap(id)
  }

  function Owed(th: Thread): int {
    match th
    case Registrar(_, _, ToCount) => -1
    case Closer(_, _, ToUncount) => 1
    case _ => 0
  }

  ghost predicate Names(s: State) {
    (forall id :: LifeOf(s, id)) && (forall i: nat :: ThreadOf(s, i))
  }

  ghost predicate Holders(c: Ports, s: State) {
    (forall p :: PortOf(c, s, p)) && (forall i: nat :: ThreadHolds(s, i)) && (forall id :: TunnelHolds(s, id))
  }

  ghost predicate Inv(c: Ports, s: State) {
    Names(s) && Holders(c, s) && CountRight(s)
  }

  // ---- one thread's step ----

  ghost predicate NameAt(s: State, id: Id, j: nat) {
    LifeOf(s, id) && ThreadOf(s, j)
  }

  ghost predicate PortAt(c: Ports, s: State, id: Id, j: nat, p: int) {
    PortOf(c, s, p) && ThreadHolds(s, j) && TunnelHolds(s, id)
  }

  lemma CallRegisterNames(c: Ports, s: State, a: Action, id: Id, j: nat)
    requires Names(s) && Enabled(c, s, a) && (a.CallRegister?)
    ensures NameAt(Apply(c, s, a), id, j)
  {
    hide LowestFree;
    assert LifeOf(s, id) && ThreadOf(s, j);
    assert LifeOf(s, a.id);
  }

  lemma SpawnNames(c: Ports, s: State, a: Action, id: Id, j: nat)
    requires Names(s) && Enabled(c, s, a) && (a.CallClose?)
    ensures NameAt(Apply(c, s, a), id, j)
  {
    hide LowestFree;
    assert LifeOf(s, id) && ThreadOf(s, j);
  }

  lemma AllocateNames(c: Ports, s: State, a: Action, id: Id, j: nat)
    requires Names(s) && Enabled(c, s, a) && (a.NoPort? || a.Allocate? || a.Refuse?)
    ensures NameAt(Apply(c, s, a), id, j)
  {
    hide LowestFree;
    assert LifeOf(s, id) && ThreadOf(s, j);
    assert ThreadOf(s, a.i);
  }

  lemma StoreNames(c: Ports, s: State, a: Action, id: Id, j: nat)
    requires Names(s) && Enabled(c, s, a) && (a.Store?)
    ensures NameAt(Apply(c, s, a), id, j)
  {
    hide LowestFree;
    assert LifeOf(s, id) && ThreadOf(s, j);
    assert ThreadOf(s, a.i) && LifeOf(s, s.threads[a.i].tunnel.id);
  }

  lemma CountNames(c: Ports, s: State, a: Action, id: Id, j: nat)
    requires Names(s) && Enabled(c, s, a) && (a.Count?)
    ensures NameAt(Apply(c, s, a), id, j)
  {
    hide LowestFree;
    assert LifeOf(s, id) && ThreadOf(s, j);
    assert ThreadOf(s, a.i);
  }

  lemma IndexNames(c: Ports, s: State, a: Action, id: Id, j: nat)
    requires Names(s) && Enabled(c, s, a) && (a.Index?)
    ensures NameAt(Apply(c, s, a), id, j)
  {
    hide LowestFree;
    assert LifeOf(s, id) && ThreadOf(s, j);
    assert ThreadOf(s, a.i);
  }

  lemma TakeNames(c: Ports, s: State, a: Action, id: Id, j: nat)
    requires Names(s) && Enabled(c, s, a) && (a.Take?)
    ensures NameAt(Apply(c, s, a), id, j)
  {
    hide LowestFree;
    assert LifeOf(s, id) && ThreadOf(s, j);
    assert ThreadOf(s, a.i) && LifeOf(s, s.threads[a.i].target);
  }

  lemma MissNames(c: Ports, s: State, a: Action, id: Id, j: nat)
    requires Names(s) && Enabled(c, s, a) && (a.Miss?)
    ensures NameAt(Apply(c, s, a), id, j)
  {
    hide LowestFree;
    assert LifeOf(s, id) && ThreadOf(s, j);
    assert ThreadOf(s, a.i);
  }

  lemma UncountNames(c: Ports, s: State, a: Action, id: Id, j: nat)
    requires Names(s) && Enabled(c, s, a) && (a.Uncount?)
    ensures NameAt(Apply(c, s, a), id, j)
  {
    hide LowestFree;
    assert LifeOf(s, id) && ThreadOf(s, j);
    assert ThreadOf(s, a.i);
  }

  lemma UnindexNames(c: Ports, s: State, a: Action, id: Id, j: nat)
    requires Names(s) && Enabled(c, s, a) && (a.Unindex?)
    ensures NameAt(Apply(c, s, a), id, j)
  {
    hide LowestFree;
    assert LifeOf(s, id) && ThreadOf(s, j);
    assert ThreadOf(s, a.i) && LifeOf(s, s.threads[a.i].target);
    assert ThreadOf(s, s.h.registrar[s.threads[a.i].target]);
  }

  lemma ReleaseNames(c: Ports, s: State, a: Action, id: Id, j: nat)
    requires Names(s) && Enabled(c, s, a) && (a.Release?)
    ensures NameAt(Apply(c, s, a), id, j)
  {
    hide LowestFree;
    assert LifeOf(s, id) && ThreadOf(s, j);
    assert ThreadOf(s, a.i);
  }

  lemma CallPorts(c: Ports, s: State, a: Action, id: Id, j: nat, p: int)
    requires c.start >= 1 && Names(s) && Holders(c, s) && Enabled(c, s, a) && (a.CallRegister? || a.CallClose?)
    ensures PortAt(c, Apply(c, s, a), id, j, p)
  {
    hide LowestFree;
    assert PortOf(c, s, p) && ThreadHolds(s, j) && TunnelHolds(s, id);
  }

  lemma AllocatePorts(c: Ports, s: State, a: Action, id: Id, j: nat, p: int)
    requires c.start >= 1 && Names(s) && Holders(c, s) && Enabled(c, s, a) && (a.NoPort? || a.Allocate? || a.Refuse?)
    ensures PortAt(c, Apply(c, s, a), id, j, p)
  {
    LowestFreeIsLeast(c.start, c.end, s.used);
    var free := LowestFree(c.start, c.end, s.used);
    assert free.Some? ==> PortOf(c, s, free.value);
    hide LowestFree;
    assert PortOf(c, s, p) && ThreadHolds(s, j) && TunnelHolds(s, id);
    assert ThreadOf(s, a.i);
  }

  lemma StorePorts(c: Ports, s: State, a: Action, id: Id, j: nat, p: int)
    requires c.start >= 1 && Names(s) && Holders(c, s) && Enabled(c, s, a) && (a.Store?)
    ensures PortAt(c, Apply(c, s, a), id, j, p)
  {
    hide LowestFree;
    assert PortOf(c, s, p) && ThreadHolds(s, j) && TunnelHolds(s, id);
    assert ThreadHolds(s, a.i) && LifeOf(s, s.threads[a.i].tunnel.id) && ThreadOf(s, a.i);
  }

  lemma QuietPorts(c: Ports, s: State, a: Action, id: Id, j: nat, p: int)
    requires c.start >= 1 && Names(s) && Holders(c, s) && Enabled(c, s, a)
    requires a.Count? || a.Index? || a.Miss? || a.Uncount? || a.Unindex?
    ensures PortAt(c, Apply(c, s, a), id, j, p)
  {
    hide LowestFree;
    assert PortOf(c, s, p) && ThreadHolds(s, j) && TunnelHolds(s, id);
  }

  lemma TakePorts(c: Ports, s: State, a: Action, id: Id, j: nat, p: int)
    requires c.start >= 1 && Names(s) && Holders(c, s) && Enabled(c, s, a) && (a.Take?)
    ensures PortAt(c, Apply(c, s, a), id, j, p)
  {
    hide LowestFree;
    assert PortOf(c, s, p) && ThreadHolds(s, j) && TunnelHolds(s, id);
    assert TunnelHolds(s, s.threads[a.i].target) && LifeOf(s, s.threads[a.i].target);
  }

  lemma ReleasePorts(c: Ports, s: State, a: Action, id: Id, j: nat, p: int)
    requires c.start >= 1 && Names(s) && Holders(c, s) && Enabled(c, s, a) && (a.Release?)
    ensures PortAt(c, Apply(c, s, a), id, j, p)
  {
    hide LowestFree;
    assert PortOf(c, s, p) && ThreadHolds(s, j) && TunnelHolds(s, id);
    assert ThreadHolds(s, a.i);
  }

  lemma StepNames(c: Ports, s: State, a: Action)
    requires Names(s) && Enabled(c, s, a)
    ensures Names(Apply(c, s, a))
  {
    var t := Apply(c, s, a);
    forall id, j: nat
      ensures NameAt(t, id, j)
    {
      hide Names, NameAt, Apply, Enabled;
      match a
      case CallRegister(_, _, _) => CallRegisterNames(c, s, a, id, j);
      case CallClose(_) => SpawnNames(c, s, a, id, j);
      case Store(_) => StoreNames(c, s, a, id, j);
      case Count(_) => CountNames(c, s, a, id, j);
      case Index(_) => IndexNames(c, s, a, id, j);
      case Take(_) => TakeNames(c, s, a, id, j);
      case Miss(_) => MissNames(c, s, a, id, j);
      case Uncount(_) => UncountNames(c, s, a, id, j);
      case Unindex(_) => UnindexNames(c, s, a, id, j);
      case Release(_) => ReleaseNames(c, s, a, id, j);
      case _ => AllocateNames(c, s, a, id, j);
    }
    hide Apply, Enabled, LifeOf, ThreadOf;
    forall id ensures LifeOf(t, id) { assert NameAt(t, id, 0); }
    forall j: nat ensures ThreadOf(t, j) { assert NameAt(t, 0, j); }
  }

  lemma StepPorts(c: Ports, s: State, a: Action)
    requires c.start >= 1 && Names(s) && Holders(c, s) && Enabled(c, s, a)
    ensures Holders(c, Apply(c, s, a))
  {
    var t := Apply(c, s, a);
    forall id, j: nat, p
      ensures PortAt(c, t, id, j, p)
    {
      hide Names, Holders, PortAt, Apply, Enabled;
      match a
      case CallRegister(_, _, _) => CallPorts(c, s, a, id, j, p);
      case CallClose(_) => CallPorts(c, s, a, id, j, p);
      case NoPort(_) => AllocatePorts(c, s, a, id, j, p);
      case Allocate(_) => AllocatePorts(c, s, a, id, j, p);
      case Refuse(_) => AllocatePorts(c, s, a, id, j, p);
      case Store(_) => StorePorts(c, s, a, id, j, p);
      case Take(_) => TakePorts(c, s, a, id, j, p);
      case Release(_) => ReleasePorts(c, s, a, id, j, p);
      case _ => QuietPorts(c, s, a, id, j, p);
    }
    hide Apply, Enabled, PortOf, ThreadHolds, TunnelHolds;
    forall p ensures PortOf(c, t, p) { assert PortAt(c, t, 0, 0, p); }
    forall j: nat ensures ThreadHolds(t, j) { assert PortAt(c, t, 0, j, 0); }
    forall id ensures TunnelHolds(t, id) { assert PortAt(c, t, id, 0, 0); }
  }

  ghost predicate CountRight(s: State) {
    s.active == |s.tunnels| + Sum(s.threads, Owed)
  }

  lemma CountCalls(c: Ports, s: State, a: Action)
    requires CountRight(s) && Enabled(c, s, a) && (a.CallRegister? || a.CallClose?)
    ensures CountRight(Apply(c, s, a))
  {
    hide Sum;
    SumAppend(s.threads, Apply(c, s, a).threads[|s.threads|], Owed);
  }

  /** A step of thread i keeps the count if the counter, the map and what the thread owes change together. */
  lemma CountMove(s: State, i: nat, t: State)
    requires CountRight(s) && i < |s.threads| == |t.threads| && t.threads == s.threads[i := t.threads[i]]
    requires t.active - s.active == |t.tunnels| - |s.tunnels| + Owed(t.threads[i]) - Owed(s.threads[i])
    ensures CountRight(t)
  {
    hide Sum, Owed;
    SumUpdate(s.threads, i, t.threads[i], Owed);
  }

  lemma NotStoredYet(s: State, i: nat)
    requires Names(s) && RegistrarAt(s, i, ToStore)
    ensures s.threads[i].tunnel.id !in s.tunnels
  {
    assert ThreadOf(s, i) && LifeOf(s, s.threads[i].tunnel.id);
  }

  lemma CountThread(c: Ports, s: State, a: Action)
    requires Names(s) && CountRight(s) && Enabled(c, s, a) && !a.CallRegister? && !a.CallClose?
    ensures CountRight(Apply(c, s, a))
  {
    hide LowestFree, Names, CountRight, Hold, Apply;
    if a.Store? {
      NotStoredYet(s, a.i);
      CountStore(c, s, a);
    } else if a.Take? {
      CountTake(c, s, a);
    } else if a.Count? || a.Uncount? {
      CountCounter(c, s, a);
    } else {
      CountOther(c, s, a);
    }
  }

  lemma CountCounter(c: Ports, s: State, a: Action)
    requires CountRight(s) && Enabled(c, s, a) && (a.Count? || a.Uncount?)
    ensures CountRight(Apply(c, s, a))
  {
    hide LowestFree, CountRight, Hold;
    CountMove(s, a.i, Apply(c, s, a));
  }

  lemma CountOther(c: Ports, s: State, a: Action)
    requires CountRight(s) && Enabled(c, s, a) && !a.CallRegister? && !a.CallClose?
    requires !a.Store? && !a.Take? && !a.Count? && !a.Uncount?
    ensures CountRight(Apply(c, s, a))
  {
    OtherKeeps(c, s, a);
    hide LowestFree, CountRight, Apply, Enabled, Owed;
    CountMove(s, a.i, Apply(c, s, a));
  }

  lemma OtherKeeps(c: Ports, s: State, a: Action)
    requires Enabled(c, s, a) && !a.CallRegister? && !a.CallClose?
    requires !a.Store? && !a.Take? && !a.Count? && !a.Uncount?
    ensures var t := Apply(c, s, a);
            && t.active == s.active && t.tunnels == s.tunnels && a.i < |s.threads| == |t.threads|
            && t.threads == s.threads[a.i := t.threads[a.i]]
            && Owed(t.threads[a.i]) == Owed(s.threads[a.i])
  {
    hide LowestFree, Hold;
  }

  lemma CountStore(c: Ports, s: State, a: Action)
    requires CountRight(s) && Enabled(c, s, a) && a.Store? && s.threads[a.i].tunnel.id !in s.tunnels
    ensures CountRight(Apply(c, s, a))
  {
    var t, tunnel := Apply(c, s, a), s.threads[a.i].tunnel;
    assert t.tunnels == s.tunnels[tunnel.id := tunnel] && t.active == s.active;
    assert t.threads == s.threads[a.i := t.threads[a.i]] && Owed(t.threads[a.i]) == -1 && Owed(s.threads[a.i]) == 0;
    hide Apply, CountRight, Owed;
    MapGrows(s.tunnels, tunnel.id, tunnel);
    CountMove(s, a.i, t);
  }

  lemma CountTake(c: Ports, s: State, a: Action)
    requires CountRight(s) && Enabled(c, s, a) && a.Take?
    ensures CountRight(Apply(c, s, a))
  {
    var t, x := Apply(c, s, a), s.threads[a.i].target;
    assert t.tunnels == s.tunnels - {x} && t.active == s.active;
    assert t.threads == s.threads[a.i := t.threads[a.i]] && Owed(t.threads[a.i]) == 1 && Owed(s.threads[a.i]) == 0;
    hide Apply, CountRight, Owed;
    MapShrinks(s.tunnels, x);
    CountMove(s, a.i, t);
  }

  lemma InvStep(c: Ports, s: State, a: Action)
    requires c.start >= 1 && Inv(c, s) && Enabled(c, s, a)
    ensures Inv(c, Apply(c, s, a))
  {
    hide Names, Holders, CountRight, Apply, Enabled;
    StepNames(c, s, a);
    StepPorts(c, s, a);
    if a.CallRegister? || a.CallClose? {
      CountCalls(c, s, a);
    } else {
      CountThread(c, s, a);
    }
  }

  // ---- every run ----

  /** The state after a sequence of actions, if each was possible. */
  function Exec(c: Ports, actions: seq<Action>): Option<State> {
    if actions == [] then Some(Initial())
    else
      var before := Exec(c, actions[..|actions| - 1]);
      var a := actions[|actions| - 1];
      if before.Some? && Enabled(c, before.value, a) then Some(Apply(c, before.value, a)) else None
  }

  lemma {:induction false} RegistryInvariant(c: Ports, actions: seq<Action>)
    requires c.start >= 1 && Exec(c, actions).Some?
    ensures Inv(c, Exec(c, actions).value)
  {
    hide Apply, Enabled;
    if actions == [] {
      assert Inv(c, Initial());
    } else {
      var before := actions[..|actions| - 1];
      RegistryInvariant(c, before);
      InvStep(c, Exec(c, before).value, actions[|actions| - 1]);
    }
  }

  /** Registered tunnels have pairwise distinct ports, all in range and marked used. */
  lemma PortsDistinct(c: Ports, actions: seq<Action>, id1: Id, id2: Id)
    requires c.start >= 1 && Exec(c, actions).Some?
    ensures var s := Exec(c, actions).value;
            id1 in s.tunnels && s.tunnels[id1].port > 0 ==>
              && s.tunnels[id1].port in s.used && c.start <= s.tunnels[id1].port <= c.end
              && (id2 in s.tunnels && id2 != id1 ==> s.tunnels[id2].port != s.tunnels[id1].port)
  {
    RegistryInvariant(c, actions);
    var s := Exec(c, actions).value;
    hide Exec;
    assert TunnelHolds(s, id1) && TunnelHolds(s, id2);
    if id1 in s.tunnels {
      assert PortOf(c, s, s.tunnels[id1].port);
    }
  }

  /**
   A port about to be released is still used, belongs to no registered tunnel
   and to no other thread: it is released exactly once per allocation.
   */
  lemma ReleasedOnce(c: Ports, actions: seq<Action>, i: nat, j: nat, id: Id)
    requires c.start >= 1 && Exec(c, actions).Some?
    requires CloserAt(Exec(c, actions).value, i, ToRelease)
    ensures var s := Exec(c, actions).value;
            var p := s.threads[i].taken.value.port;
            p > 0 ==>
              && p in s.used
              && (j < |s.threads| && j != i ==> HeldBy(s.threads[j]) != p)
              && (id in s.tunnels ==> s.tunnels[id].port != p)
  {
    RegistryInvariant(c, actions);
    var s := Exec(c, actions).value;
    hide Exec;
    assert ThreadHolds(s, i) && ThreadHolds(s, j) && TunnelHolds(s, id);
    assert PortOf(c, s, s.threads[i].taken.value.port);
  }

  ghost predicate Quiescent(s: State) {
    forall i :: 0 <= i < |s.threads| ==>
      match s.threads[i]
      case Registrar(_, _, pc) => pc.Registered? || pc.Refused?
      case Closer(_, _, pc) => pc.Finished?
  }

  /** With no call in flight the counter is the number of tunnels and every used port belongs to one of them. */
  lemma QuiescentCounts(c: Ports, actions: seq<Action>, p: int)
    requires c.start >= 1 && Exec(c, actions).Some? && Quiescent(Exec(c, actions).value)
    ensures var s := Exec(c, actions).value;
            && s.active == |s.tunnels|
            && (p in s.used ==> p != 0 && exists id :: id in s.tunnels && s.tunnels[id].port == p)
  {
    RegistryInvariant(c, actions);
    var s := Exec(c, actions).value;
    hide Exec;
    SumZero(s.threads, Owed);
    assert PortOf(c, s, p);
  }

  // ---- every registration and every close does what it was called for ----

  /** What a registration waiting for its port comes to depends on whether it needs one and on the ports used. */
  lemma AllocationDecides(c: Ports, s: State, i: nat)
    requires RegistrarAt(s, i, ToAllocate)
    ensures Enabled(c, s, NoPort(i)) <==> !s.threads[i].needsPort
    ensures Enabled(c, s, Refuse(i)) <==> s.threads[i].needsPort && forall p :: c.start <= p <= c.end ==> p in s.used
    ensures Enabled(c, s, Allocate(i)) <==>
            s.threads[i].needsPort && exists p :: c.start <= p <= c.end && p !in s.used
    ensures Enabled(c, s, Allocate(i)) ==>
              var p := Apply(c, s, Allocate(i)).threads[i].tunnel.port;
              && c.start <= p <= c.end && p !in s.used
              && (forall q :: c.start <= q < p ==> q in s.used)
              && Apply(c, s, Allocate(i)).used == s.used + {p}
  {
    LowestFreeIsLeast(c.start, c.end, s.used);
    hide LowestFree;
  }

  /** The registration of `id` still is the one that was asked for, with a port in range if and only if it needs one. */
  ghost predicate AsAsked(c: Ports, s: State, id: Id, d: Domain, needs: bool) {
    && HasRegistrar(s, id)
    && var th := RegistrarOf(s, id);
       && th.tunnel.domain == d && th.needsPort == needs
       && (!needs || th.rpc.ToAllocate? || th.rpc.Refused? ==> th.tunnel.port == 0)
       && (needs && !th.rpc.ToAllocate? && !th.rpc.Refused? ==> c.start <= th.tunnel.port <= c.end)
       && (th.rpc.Refused? ==> needs)
  }

  lemma AskedStep(c: Ports, s: State, a: Action, id: Id, d: Domain, needs: bool)
    requires Enabled(c, s, a)
    requires AsAsked(c, s, id, d, needs) || a == CallRegister(id, d, needs)
    ensures AsAsked(c, Apply(c, s, a), id, d, needs)
  {
    if a.Allocate? {
      AllocationDecides(c, s, a.i);
    }
    hide LowestFree, Hold;
  }

  lemma {:induction false} CarriesOn(c: Ports, actions: seq<Action>, k: nat)
    requires Exec(c, actions).Some? && k < |actions| && actions[k].CallRegister?
    ensures AsAsked(c, Exec(c, actions).value, actions[k].id, actions[k].domain, actions[k].needsPort)
  {
    hide AsAsked, Apply, Enabled;
    var n := |actions| - 1;
    if k < n {
      CarriesOn(c, actions[..n], k);
    }
    AskedStep(c, Exec(c, actions[..n]).value, actions[n], actions[k].id, actions[k].domain, actions[k].needsPort);
  }

  /**
   In every run a tunnel in the map is the one that was registered: it has the
   domain that was asked for, a port of the range if one was needed and none otherwise.
   */
  lemma RegisteredAsAsked(c: Ports, actions: seq<Action>, k: nat)
    requires c.start >= 1 && Exec(c, actions).Some? && k < |actions| && actions[k].CallRegister?
    ensures var s, id := Exec(c, actions).value, actions[k].id;
            id in s.tunnels ==>
              && s.tunnels[id].id == id && s.tunnels[id].domain == actions[k].domain
              && if actions[k].needsPort then c.start <= s.tunnels[id].port <= c.end else s.tunnels[id].port == 0
  {
    RegistryInvariant(c, actions);
    CarriesOn(c, actions, k);
    hide Exec;
    assert LifeOf(Exec(c, actions).value, actions[k].id);
  }

  /** Thread j closes `id`, which has been registered, and once it has looked the tunnel is out of the map. */
  ghost predicate Closing(s: State, id: Id, j: nat) {
    && j < |s.threads| && s.threads[j].Closer? && s.threads[j].target == id
    && (id in s.tunnels || id in s.h.taker)
    && (s.threads[j].cpc.ToTake? || id !in s.tunnels)
  }

  lemma ClosingStep(c: Ports, s: State, a: Action, id: Id, j: nat)
    requires Names(s) && Enabled(c, s, a) && Closing(s, id, j)
    ensures Closing(Apply(c, s, a), id, j)
  {
    assert LifeOf(s, id);
    if a.Store? {
      assert ThreadOf(s, a.i);
    }
    hide LowestFree, Hold, Names;
  }

  lemma {:induction false} StillClosing(c: Ports, actions: seq<Action>, k: nat)
    requires c.start >= 1 && Exec(c, actions).Some? && k < |actions| && actions[k].CallClose?
    requires Exec(c, actions[..k]).Some? && actions[k].id in Exec(c, actions[..k]).value.tunnels
    ensures Closing(Exec(c, actions).value, actions[k].id, |Exec(c, actions[..k]).value.threads|)
  {
    var n := |actions| - 1;
    var before := actions[..n];
    if k < n {
      assert before[..k] == actions[..k];
      StillClosing(c, before, k);
      RegistryInvariant(c, before);
      hide Names, Holders, CountRight, Closing;
      ClosingStep(c, Exec(c, before).value, actions[n], actions[k].id, |Exec(c, actions[..k]).value.threads|);
    }
  }

  /** Close closes: a tunnel that is in the map when its close is called is out of it once no call is in flight. */
  lemma CloseRemoves(c: Ports, actions: seq<Action>, k: nat)
    requires c.start >= 1 && Exec(c, actions).Some? && Quiescent(Exec(c, actions).value)
    requires k < |actions| && actions[k].CallClose?
    requires Exec(c, actions[..k]).Some? && actions[k].id in Exec(c, actions[..k]).value.tunnels
    ensures actions[k].id !in Exec(c, actions).value.tunnels
  {
    StillClosing(c, actions, k);
    hide Exec;
  }

  ghost predicate NobodyCloses(s: State, id: Id) {
    forall j :: 0 <= j < |s.threads| && s.threads[j].Closer? ==> s.threads[j].target != id
  }

  lemma {:induction false} NobodyClosing(c: Ports, actions: seq<Action>, id: Id)
    requires Exec(c, actions).Some? && forall k :: 0 <= k < |actions| ==> actions[k] != CallClose(id)
    ensures NobodyCloses(Exec(c, actions).value, id)
  {
    if actions != [] {
      var n := |actions| - 1;
      NobodyClosing(c, actions[..n], id);
      hide LowestFree, Hold;
      assert actions[n] != CallClose(id);
    }
  }

  /**
   Register registers: once no call is in flight, a tunnel that was called for and
   that nobody closed is in the map, unless it was refused a port.
   */
  lemma RegisteredStays(c: Ports, actions: seq<Action>, k: nat)
    requires c.start >= 1 && Exec(c, actions).Some? && Quiescent(Exec(c, actions).value)
    requires k < |actions| && actions[k].CallRegister?
    requires forall n :: 0 <= n < |actions| ==> actions[n] != CallClose(actions[k].id)
    ensures var s, id := Exec(c, actions).value, actions[k].id;
            id in s.tunnels || (actions[k].needsPort && HasRegistrar(s, id) && RegistrarOf(s, id).rpc.Refused?)
  {
    RegistryInvariant(c, actions);
    CarriesOn(c, actions, k);
    NobodyClosing(c, actions, actions[k].id);
    hide Exec;
    assert LifeOf(Exec(c, actions).value, actions[k].id);
  }

  // ---- the domain index ----

  /** The holder is done with the index: it never got that far, or its entry was stored and then deleted. */
  predicate Left(s: State, id: Id) {
    && HasRegistrar(s, id)
    && (RegistrarOf(s, id).rpc.Refused? ||
        (RegistrarOf(s, id).rpc.Registered? && id in s.h.unindexed && id !in s.h.early))
  }

  /** A domain may be registered again once its previous holder has left the index. */
  predicate DomainFree(s: State, d: Domain) {
    d == NO_DOMAIN || d !in s.h.domainOf || Left(s, s.h.domainOf[d])
  }

  predicate Orderly(s: State, a: Action) {
    a.CallRegister? ==> DomainFree(s, a.domain)
  }

  /**
   For the latest holder of a domain: the index holds it from the index store to
   the index delete, or until its next holder if they ran the other way round.
   */
  ghost predicate IndexOf(s: State, d: Domain) {
    && (d in s.index ==> d in s.h.domainOf)
    && (d in s.h.domainOf ==>
          && d != NO_DOMAIN && HasRegistrar(s, s.h.domainOf[d]) && RegistrarOf(s, s.h.domainOf[d]).tunnel.domain == d
          && var id := s.h.domainOf[d];
             && (d in s.index <==> RegistrarOf(s, id).rpc.Registered? && (id !in s.h.unindexed || id in s.h.early))
             && (d in s.index ==> s.index[d] == id)
             && (id in s.h.unindexed && !RegistrarOf(s, id).rpc.Registered? ==> id in s.h.early))
  }

  ghost predicate DomainThread(s: State, i: nat) {
    i < |s.threads| && s.threads[i].Registrar? && s.threads[i].tunnel.domain != NO_DOMAIN ==>
      && s.threads[i].tunnel.domain in s.h.domainOf
      && (s.h.domainOf[s.threads[i].tunnel.domain] == s.threads[i].tunnel.id || Left(s, s.threads[i].tunnel.id))
  }

  ghost predicate Domains(s: State) {
    (forall d :: IndexOf(s, d)) && (forall i: nat :: DomainThread(s, i))
  }

  /** A registration only moves on, and only its own index store completes it. */
  lemma RegistrarKept(c: Ports, s: State, a: Action, id: Id)
    requires Enabled(c, s, a) && HasRegistrar(s, id)
    ensures var t := Apply(c, s, a);
            && HasRegistrar(t, id) && RegistrarOf(t, id).tunnel.domain == RegistrarOf(s, id).tunnel.domain
            && (RegistrarOf(s, id).rpc.Refused? ==> RegistrarOf(t, id).rpc.Refused?)
            && (RegistrarOf(s, id).rpc.Registered? ==> RegistrarOf(t, id).rpc.Registered?)
            && (RegistrarOf(t, id).rpc.Registered? && !RegistrarOf(s, id).rpc.Registered? ==>
                  a == Index(s.h.registrar[id]))
  {
    hide LowestFree, Hold;
  }

  lemma LeftKept(c: Ports, s: State, a: Action, id: Id)
    requires Names(s) && Enabled(c, s, a) && Left(s, id)
    ensures Left(Apply(c, s, a), id)
  {
    RegistrarKept(c, s, a, id);
    if a.Unindex? {
      assert ThreadOf(s, a.i) && LifeOf(s, s.threads[a.i].target) && LifeOf(s, id);
    }
    hide LowestFree, Hold, Names;
  }

  /** Everything but a registration's first and last step and the index delete leaves the index alone. */
  predicate Quiet(a: Action) {
    !a.CallRegister? && !a.Index? && !a.Unindex?
  }

  lemma QuietIndex(c: Ports, s: State, a: Action, d: Domain)
    requires Domains(s) && Enabled(c, s, a) && Quiet(a)
    ensures IndexOf(Apply(c, s, a), d)
  {
    assert IndexOf(s, d);
    if d in s.h.domainOf {
      RegistrarKept(c, s, a, s.h.domainOf[d]);
    }
    hide LowestFree, Hold, HasRegistrar, RegistrarOf;
  }

  /** No step turns a thread into another or changes what it registers. */
  lemma SameThread(c: Ports, s: State, a: Action, j: nat)
    requires Enabled(c, s, a) && j < |s.threads|
    ensures var t := Apply(c, s, a);
            && j < |t.threads| && (t.threads[j].Registrar? <==> s.threads[j].Registrar?)
            && (s.threads[j].Registrar? ==>
                  t.threads[j].tunnel.id == s.threads[j].tunnel.id &&
                  t.threads[j].tunnel.domain == s.threads[j].tunnel.domain)
  {
    hide LowestFree, Hold;
  }

  lemma OnlyCallsChangeDomains(c: Ports, s: State, a: Action)
    requires Enabled(c, s, a) && !a.CallRegister?
    ensures var t := Apply(c, s, a);
            && t.h.domainOf == s.h.domainOf
            && forall j :: |s.threads| <= j < |t.threads| ==> t.threads[j].Closer?
  {
    hide LowestFree, Hold;
  }

  lemma KeptThread(c: Ports, s: State, a: Action, j: nat)
    requires Names(s) && Domains(s) && Enabled(c, s, a) && !a.CallRegister?
    ensures DomainThread(Apply(c, s, a), j)
  {
    OnlyCallsChangeDomains(c, s, a);
    if j < |s.threads| {
      assert DomainThread(s, j);
      SameThread(c, s, a, j);
      if s.threads[j].Registrar? && Left(s, s.threads[j].tunnel.id) {
        LeftKept(c, s, a, s.threads[j].tunnel.id);
      }
    }
    hide Left, Apply, Enabled, Names, Domains;
  }

  lemma CallIndex(c: Ports, s: State, a: Action, d: Domain)
    requires Names(s) && Domains(s) && Enabled(c, s, a) && a.CallRegister? && DomainFree(s, a.domain)
    ensures IndexOf(Apply(c, s, a), d)
  {
    assert IndexOf(s, d) && IndexOf(s, a.domain) && LifeOf(s, a.id);
    if d in s.h.domainOf {
      RegistrarKept(c, s, a, s.h.domainOf[d]);
    }
    hide LowestFree, Hold;
  }

  lemma CallThread(c: Ports, s: State, a: Action, j: nat)
    requires Names(s) && Domains(s) && Enabled(c, s, a) && a.CallRegister? && DomainFree(s, a.domain)
    ensures DomainThread(Apply(c, s, a), j)
  {
    if j < |s.threads| && s.threads[j].Registrar? {
      assert DomainThread(s, j);
      if Left(s, s.threads[j].tunnel.id) {
        LeftKept(c, s, a, s.threads[j].tunnel.id);
      }
    }
    hide LowestFree, Hold, Left;
  }

  /** A registration about to store its index entry is the latest holder of its domain. */
  lemma IndexerIsLatest(s: State, i: nat)
    requires Names(s) && Domains(s) && RegistrarAt(s, i, ToIndex) && s.threads[i].tunnel.domain != NO_DOMAIN
    ensures var t := s.threads[i].tunnel;
            && t.domain in s.h.domainOf && s.h.domainOf[t.domain] == t.id
            && t.id in s.h.registrar && s.h.registrar[t.id] == i
  {
    assert ThreadOf(s, i) && DomainThread(s, i);
  }

  lemma StoreIndex(c: Ports, s: State, a: Action, d: Domain)
    requires Names(s) && Domains(s) && Enabled(c, s, a) && a.Index?
    ensures IndexOf(Apply(c, s, a), d)
  {
    var t := s.threads[a.i].tunnel;
    if t.domain != NO_DOMAIN {
      IndexerIsLatest(s, a.i);
    }
    assert ThreadOf(s, a.i) && IndexOf(s, d);
    if d in s.h.domainOf {
      RegistrarKept(c, s, a, s.h.domainOf[d]);
    }
    hide LowestFree, Hold, Names;
  }

  /** A close about to delete the index entry of its tunnel finds that tunnel the latest holder of its domain. */
  lemma UnindexerIsLatest(s: State, i: nat)
    requires Names(s) && Domains(s) && CloserAt(s, i, ToUnindex)
    ensures var x := s.threads[i].target;
            && HasRegistrar(s, x) && x !in s.h.unindexed && x !in s.h.early
            && s.threads[i].taken == Some(RegistrarOf(s, x).tunnel)
            && var d := RegistrarOf(s, x).tunnel.domain;
               d != NO_DOMAIN ==> d in s.h.domainOf && s.h.domainOf[d] == x
  {
    var x := s.threads[i].target;
    assert ThreadOf(s, i) && LifeOf(s, x);
    assert DomainThread(s, s.h.registrar[x]);
  }

  lemma DeleteIndex(c: Ports, s: State, a: Action, d: Domain)
    requires Names(s) && Domains(s) && Enabled(c, s, a) && a.Unindex?
    ensures IndexOf(Apply(c, s, a), d)
  {
    UnindexerIsLatest(s, a.i);
    assert IndexOf(s, d);
    if d in s.h.domainOf {
      RegistrarKept(c, s, a, s.h.domainOf[d]);
    }
    hide LowestFree, Hold, Names;
  }

  lemma DomainsStep(c: Ports, s: State, a: Action)
    requires Names(s) && Domains(s) && Enabled(c, s, a) && Orderly(s, a)
    ensures Domains(Apply(c, s, a))
  {
    var t := Apply(c, s, a);
    forall d ensures IndexOf(t, d) {
      hide Names, Domains, IndexOf, Apply, Enabled;
      if a.CallRegister? {
        CallIndex(c, s, a, d);
      } else if a.Index? {
        StoreIndex(c, s, a, d);
      } else if a.Unindex? {
        DeleteIndex(c, s, a, d);
      } else {
        QuietIndex(c, s, a, d);
      }
    }
    forall j: nat ensures DomainThread(t, j) {
      hide Names, Domains, DomainThread, Apply, Enabled;
      if a.CallRegister? {
        CallThread(c, s, a, j);
      } else {
        KeptThread(c, s, a, j);
      }
    }
    hide Apply, Enabled, IndexOf, DomainThread;
  }

  /** No domain is registered while an earlier holder is still to leave the index. */
  ghost predicate OrderlyRun(c: Ports, actions: seq<Action>) {
    actions == [] ||
    var before := actions[..|actions| - 1];
    OrderlyRun(c, before) && (Exec(c, before).Some? ==> Orderly(Exec(c, before).value, actions[|actions| - 1]))
  }

  lemma {:induction false} DomainsInvariant(c: Ports, actions: seq<Action>)
    requires c.start >= 1 && Exec(c, actions).Some? && OrderlyRun(c, actions)
    ensures Domains(Exec(c, actions).value)
  {
    hide Apply, Enabled, Orderly;
    if actions != [] {
      var before := actions[..|actions| - 1];
      DomainsInvariant(c, before);
      RegistryInvariant(c, before);
      hide Names, Domains, Holders, CountRight;
      DomainsStep(c, Exec(c, before).value, actions[|actions| - 1]);
    }
  }

  /** The domain index lists exactly the registered tunnels that have a domain. */
  ghost predicate IndexAgrees(s: State) {
    && (forall id :: id in s.tunnels && s.tunnels[id].domain != NO_DOMAIN ==>
          s.tunnels[id].domain in s.index && s.index[s.tunnels[id].domain] == id)
    && (forall d :: d in s.index ==> s.index[d] in s.tunnels && s.tunnels[s.index[d]].domain == d)
  }

  lemma NoEarlyMeansAgrees(s: State)
    requires Names(s) && Domains(s) && Quiescent(s) && s.h.early == {}
    ensures IndexAgrees(s)
  {
    forall id | id in s.tunnels && s.tunnels[id].domain != NO_DOMAIN
      ensures s.tunnels[id].domain in s.index && s.index[s.tunnels[id].domain] == id
    {
      assert LifeOf(s, id) && DomainThread(s, s.h.registrar[id]) && IndexOf(s, s.tunnels[id].domain);
    }
    forall d | d in s.index
      ensures s.index[d] in s.tunnels && s.tunnels[s.index[d]].domain == d
    {
      assert IndexOf(s, d) && LifeOf(s, s.index[d]);
    }
  }

  lemma EarlyMeansDisagrees(s: State)
    requires Names(s) && Domains(s) && Quiescent(s) && s.h.early != {}
    ensures !IndexAgrees(s)
  {
    var id := Pick(s.h.early);
    assert LifeOf(s, id) && DomainThread(s, s.h.registrar[id]);
    var d := RegistrarOf(s, id).tunnel.domain;
    assert IndexOf(s, d);
    assert d in s.index && s.index[d] == id;
  }

  /**
   With domains reused only after their previous holder has left the index: when
   no call is in flight the index agrees with the tunnel map if and only if no
   close ran its index delete before the registration's index store.
   */
  lemma OrderlyIndexIff(c: Ports, actions: seq<Action>)
    requires c.start >= 1 && Exec(c, actions).Some? && OrderlyRun(c, actions) && Quiescent(Exec(c, actions).value)
    ensures IndexAgrees(Exec(c, actions).value) <==> Exec(c, actions).value.h.early == {}
  {
    hide Names, Domains, Holders, Quiescent, IndexAgrees, CountRight, Exec, OrderlyRun;
    RegistryInvariant(c, actions);
    DomainsInvariant(c, actions);
    var s := Exec(c, actions).value;
    if s.h.early == {} {
      NoEarlyMeansAgrees(s);
    } else {
      EarlyMeansDisagrees(s);
    }
  }

  /** Every tunnel a close takes has finished registering. */
  ghost predicate Disciplined(c: Ports, actions: seq<Action>) {
    actions == [] ||
    var before := actions[..|actions| - 1];
    Disciplined(c, before) && (Exec(c, before).Some? ==> LateTake(Exec(c, before).value, actions[|actions| - 1]))
  }

  ghost predicate LateTake(s: State, a: Action) {
    a.Take? && a.i < |s.threads| && s.threads[a.i].Closer? ==> RegistrationReturned(s, s.threads[a.i].target)
  }

  predicate RegistrationReturned(s: State, id: Id) {
    HasRegistrar(s, id) && RegistrarOf(s, id).rpc.Registered?
  }

  ghost predicate TakenAreRegistered(s: State) {
    s.h.early == {} && forall id :: id in s.h.taker ==> RegistrationReturned(s, id)
  }

  lemma NoEarlyDelete(c: Ports, s: State, a: Action)
    requires Names(s) && Domains(s) && TakenAreRegistered(s) && Enabled(c, s, a) && a.Unindex?
    ensures Apply(c, s, a).h.early == {}
  {
    UnindexerIsLatest(s, a.i);
    var x := s.threads[a.i].target;
    assert ThreadOf(s, a.i) && IndexOf(s, RegistrarOf(s, x).tunnel.domain);
    hide Names, Domains;
  }

  lemma DisciplinedStep(c: Ports, s: State, a: Action)
    requires Names(s) && Domains(s) && TakenAreRegistered(s) && Enabled(c, s, a) && LateTake(s, a)
    ensures TakenAreRegistered(Apply(c, s, a))
  {
    var t := Apply(c, s, a);
    if a.Unindex? {
      NoEarlyDelete(c, s, a);
    }
    hide LowestFree, Names, Domains;
    forall id | id in t.h.taker
      ensures RegistrationReturned(t, id)
    {
      assert id in s.h.taker || (a.Take? && id == s.threads[a.i].target);
      RegistrarKept(c, s, a, id);
    }
  }

  /**
   If every close takes its tunnel after the registration returned, and domains
   are reused in order, the index agrees whenever no call is in flight.
   */
  lemma {:induction false} LateClosesKeepIndex(c: Ports, actions: seq<Action>)
    requires c.start >= 1 && Exec(c, actions).Some? && OrderlyRun(c, actions) && Disciplined(c, actions)
    ensures TakenAreRegistered(Exec(c, actions).value)
    ensures Quiescent(Exec(c, actions).value) ==> IndexAgrees(Exec(c, actions).value)
  {
    hide Apply, Enabled, LateTake, Orderly, Quiescent, IndexAgrees;
    if actions != [] {
      var before := actions[..|actions| - 1];
      LateClosesKeepIndex(c, before);
      RegistryInvariant(c, before);
      DomainsInvariant(c, before);
      hide Names, Domains, Holders, CountRight, TakenAreRegistered;
      DisciplinedStep(c, Exec(c, before).value, actions[|actions| - 1]);
    }
    if Quiescent(Exec(c, actions).value) {
      OrderlyIndexIff(c, actions);
    }
  }

  // ---- the index after any run, however domains are reused ----

  /** What one operation makes of the identifier whose index store was the latest index operation on a domain. */
  function AfterOp(s: State, a: Action, d: Domain, last: Option<Id>): Option<Id> {
    if d == NO_DOMAIN then None
    else if a.Index? && RegistrarAt(s, a.i, ToIndex) && s.threads[a.i].tunnel.domain == d then
      Some(s.threads[a.i].tunnel.id)
    else if a.Unindex? && CloserAt(s, a.i, ToUnindex) && s.threads[a.i].taken.value.domain == d then None
    else last
  }

  /** From the run alone: the identifier whose store was the latest index operation on a domain, None after a delete. */
  function LastStore(c: Ports, actions: seq<Action>, d: Domain): Option<Id> {
    if actions == [] then None
    else
      var before := actions[..|actions| - 1];
      match Exec(c, before)
      case None => None
      case Some(s) => AfterOp(s, actions[|actions| - 1], d, LastStore(c, before, d))
  }

  function Lookup(index: map<Domain, Id>, d: Domain): Option<Id> {
    if d in index then Some(index[d]) else None
  }

  /** The identifier found for a domain was registered with it. */
  ghost predicate FoundRight(s: State, d: Domain) {
    d in s.index ==> d != NO_DOMAIN && HasRegistrar(s, s.index[d]) && RegistrarOf(s, s.index[d]).tunnel.domain == d
  }

  lemma LookupStep(c: Ports, s: State, a: Action, d: Domain)
    requires Names(s) && Enabled(c, s, a) && FoundRight(s, d)
    ensures FoundRight(Apply(c, s, a), d)
    ensures Lookup(Apply(c, s, a).index, d) == AfterOp(s, a, d, Lookup(s.index, d))
  {
    if d in s.index {
      RegistrarKept(c, s, a, s.index[d]);
    }
    if a.Index? {
      assert ThreadOf(s, a.i) && LifeOf(s, s.threads[a.i].tunnel.id);
      RegistrarKept(c, s, a, s.threads[a.i].tunnel.id);
    }
    hide LowestFree, Hold, Names;
  }

  lemma {:induction false} IndexIsLastStore(c: Ports, actions: seq<Action>, d: Domain)
    requires c.start >= 1 && Exec(c, actions).Some?
    ensures Lookup(Exec(c, actions).value.index, d) == LastStore(c, actions, d)
    ensures FoundRight(Exec(c, actions).value, d)
  {
    hide Apply, Enabled, AfterOp;
    if actions != [] {
      var before := actions[..|actions| - 1];
      IndexIsLastStore(c, before, d);
      RegistryInvariant(c, before);
      hide Names, Holders, CountRight, FoundRight;
      LookupStep(c, Exec(c, before).value, actions[|actions| - 1], d);
    }
  }

  /** A tunnel with a domain is registered exactly when its own store is the latest index operation on that domain. */
  ghost predicate StoredLast(c: Ports, actions: seq<Action>, s: State, id: Id) {
    HasRegistrar(s, id) && RegistrarOf(s, id).tunnel.domain != NO_DOMAIN ==>
      (id in s.tunnels <==> LastStore(c, actions, RegistrarOf(s, id).tunnel.domain) == Some(id))
  }

  /**
   Over every run, at every point, however domains are reused and closes race
   with registrations: the index agrees with the tunnel map if and only if the
   registered tunnels with a domain are exactly those whose own index store is
   the latest index operation on their domain.
   */
  lemma IndexAgreesIff(c: Ports, actions: seq<Action>)
    requires c.start >= 1 && Exec(c, actions).Some?
    ensures var s := Exec(c, actions).value;
            IndexAgrees(s) <==> forall id :: StoredLast(c, actions, s, id)
  {
    var s := Exec(c, actions).value;
    RegistryInvariant(c, actions);
    hide Exec, LastStore;
    forall d ensures Lookup(s.index, d) == LastStore(c, actions, d) && FoundRight(s, d) {
      IndexIsLastStore(c, actions, d);
    }
    if IndexAgrees(s) {
      forall id ensures StoredLast(c, actions, s, id) {
        assert LifeOf(s, id);
        if HasRegistrar(s, id) {
          assert FoundRight(s, RegistrarOf(s, id).tunnel.domain);
        }
      }
    }
    if forall id :: StoredLast(c, actions, s, id) {
      LastMeansAgrees(c, actions, s);
    }
  }

  lemma LastMeansAgrees(c: Ports, actions: seq<Action>, s: State)
    requires Names(s) && forall d :: Lookup(s.index, d) == LastStore(c, actions, d) && FoundRight(s, d)
    requires forall id :: StoredLast(c, actions, s, id)
    ensures IndexAgrees(s)
  {
    hide LastStore;
    forall id | id in s.tunnels && s.tunnels[id].domain != NO_DOMAIN
      ensures s.tunnels[id].domain in s.index && s.index[s.tunnels[id].domain] == id
    {
      assert LifeOf(s, id) && StoredLast(c, actions, s, id);
      assert Lookup(s.index, s.tunnels[id].domain) == LastStore(c, actions, s.tunnels[id].domain);
    }
    forall d | d in s.index
      ensures s.index[d] in s.tunnels && s.tunnels[s.index[d]].domain == d
    {
      assert FoundRight(s, d) && StoredLast(c, actions, s, s.index[d]) && LifeOf(s, s.index[d]);
      assert Lookup(s.index, d) == LastStore(c, actions, d);
    }
  }

  /**
   With no call in flight: that condition over every run, and over runs that reuse
   domains in order the absence of an index delete that overtook its index store.
   */
  lemma QuiescentIndexIff(c: Ports, actions: seq<Action>)
    requires c.start >= 1 && Exec(c, actions).Some? && Quiescent(Exec(c, actions).value)
    ensures var s := Exec(c, actions).value;
            && (IndexAgrees(s) <==> forall id :: StoredLast(c, actions, s, id))
            && (OrderlyRun(c, actions) ==> (IndexAgrees(s) <==> s.h.early == {}))
  {
    IndexAgreesIff(c, actions);
    if OrderlyRun(c, actions) {
      OrderlyIndexIff(c, actions);
    }
  }

  // ---- two races ----

  /** One more step of a run. */
  lemma Go(c: Ports, actions: seq<Action>, s: State, a: Action) returns (longer: seq<Action>, t: State)
    requires Exec(c, actions) == Some(s) && Enabled(c, s, a)
    ensures Exec(c, longer) == Some(t) && t == Apply(c, s, a)
    ensures Disciplined(c, actions) && LateTake(s, a) ==> Disciplined(c, longer)
  {
    longer, t := actions + [a], Apply(c, s, a);
    assert longer[..|actions|] == actions;
  }

  lemma StartOf(c: Ports)
    ensures Exec(c, []) == Some(Initial()) && Disciplined(c, [])
  {
  }

  /** A first tunnel is stored under domain 7 but not yet counted or indexed. */
  lemma FirstStored(c: Ports) returns (actions: seq<Action>, s: State)
    ensures Exec(c, actions) == Some(s) && Disciplined(c, actions)
    ensures s == State({}, map[1 := Tunnel(1, 7, 0)], map[], 0, [Registrar(Tunnel(1, 7, 0), false, ToCount)],
                       History(map[1 := 0], map[7 := 1], map[], {}, {}, map[]))
  {
    hide Exec, Disciplined, LowestFree;
    StartOf(c);
    actions, s := Go(c, [], Initial(), CallRegister(1, 7, false));
    actions, s := Go(c, actions, s, NoPort(0));
    actions, s := Go(c, actions, s, Store(0));
  }

  /** There a close takes it and runs to its end. */
  lemma ClosedEarly(c: Ports) returns (actions: seq<Action>, s: State)
    ensures Exec(c, actions) == Some(s)
    ensures s.tunnels == map[] && s.index == map[] && s.active == -1
    ensures s.threads == [Registrar(Tunnel(1, 7, 0), false, ToCount), Closer(1, Some(Tunnel(1, 7, 0)), Finished)]
  {
    hide Exec, Disciplined, LowestFree;
    actions, s := FirstStored(c);
    actions, s := Go(c, actions, s, CallClose(1));
    actions, s := Go(c, actions, s, Take(1));
    actions, s := Go(c, actions, s, Uncount(1));
    actions, s := Go(c, actions, s, Unindex(1));
    actions, s := Go(c, actions, s, Release(1));
  }

  /**
   A close that runs between Register's map store and its index store leaves the
   domain behind, until that domain is registered and closed again.
   */
  lemma EarlyCloseLeavesDomain(c: Ports) returns (actions: seq<Action>)
    ensures Exec(c, actions).Some?
    ensures var s := Exec(c, actions).value;
            Quiescent(s) && s.tunnels == map[] && s.index == map[7 := 1] && s.active == 0
  {
    hide Exec, Disciplined, LowestFree;
    var s;
    actions, s := ClosedEarly(c);
    actions, s := Go(c, actions, s, Count(0));
    actions, s := Go(c, actions, s, Index(0));
  }

  /** The first tunnel is registered in full, and a close has taken it and is about to delete its index entry. */
  lemma UpToDelete(c: Ports) returns (actions: seq<Action>, s: State)
    ensures Exec(c, actions) == Some(s) && Disciplined(c, actions)
    ensures s == State({}, map[], map[7 := 1], 0,
                       [Registrar(Tunnel(1, 7, 0), false, Registered), Closer(1, Some(Tunnel(1, 7, 0)), ToUnindex)],
                       History(map[1 := 0], map[7 := 1], map[1 := 1], {}, {}, map[]))
  {
    hide Exec, Disciplined, LowestFree;
    actions, s := FirstStored(c);
    actions, s := Go(c, actions, s, Count(0));
    actions, s := Go(c, actions, s, Index(0));
    actions, s := Go(c, actions, s, CallClose(1));
    actions, s := Go(c, actions, s, Take(1));
    actions, s := Go(c, actions, s, Uncount(1));
  }

  /** Meanwhile a second tunnel with the same domain gets as far as its index store. */
  lemma SecondCounted(c: Ports) returns (actions: seq<Action>, s: State)
    ensures Exec(c, actions) == Some(s) && Disciplined(c, actions)
    ensures s.tunnels == map[2 := Tunnel(2, 7, 0)] && s.index == map[7 := 1] && s.active == 1 && s.h.early == {}
    ensures s.threads == [Registrar(Tunnel(1, 7, 0), false, Registered), Closer(1, Some(Tunnel(1, 7, 0)), ToUnindex),
                          Registrar(Tunnel(2, 7, 0), false, ToIndex)]
  {
    hide Exec, Disciplined, LowestFree;
    actions, s := UpToDelete(c);
    actions, s := Go(c, actions, s, CallRegister(2, 7, false));
    actions, s := Go(c, actions, s, NoPort(2));
    actions, s := Go(c, actions, s, Store(2));
    actions, s := Go(c, actions, s, Count(2));
  }

  /**
   A domain registered again before the index delete of its previous holder loses
   its new entry to that delete, though every close here takes its tunnel only
   after the registration returned.
   */
  lemma LateDeleteHidesSuccessor(c: Ports) returns (actions: seq<Action>)
    ensures Exec(c, actions).Some? && Disciplined(c, actions)
    ensures var s := Exec(c, actions).value;
            && Quiescent(s) && s.tunnels == map[2 := Tunnel(2, 7, 0)] && s.index == map[] && s.active == 1
            && s.h.early == {}
  {
    hide Exec, Disciplined, LowestFree;
    var s;
    actions, s := SecondCounted(c);
    actions, s := Go(c, actions, s, Index(2));
    actions, s := Go(c, actions, s, Unindex(1));
    actions, s := Go(c, actions, s, Release(1));
  }

  // ---- every call ends ----

  /** How many steps a thread has still to take at most. */
  function StepsLeft(th: Thread): nat {
    match th
    case Registrar(_, _, pc) => (
      match pc
      case ToAllocate => 4
      case ToStore => 3
      case ToCount => 2
      case ToIndex => 1
      case _ => 0)
    case Closer(_, _, pc) => (
      match pc
      case ToTake => 4
      case ToUncount => 3
      case ToUnindex => 2
      case ToRelease => 1
      case Finished => 0)
  }

  /** A thread that has not ended can always take its next step, whatever the others do. */
  lemma NeverStuck(c: Ports, actions: seq<Action>, i: nat) returns (a: Action)
    requires c.start >= 1 && Exec(c, actions).Some? && i < |Exec(c, actions).value.threads|
    requires StepsLeft(Exec(c, actions).value.threads[i]) > 0
    ensures !a.CallRegister? && !a.CallClose? && a.i == i && Enabled(c, Exec(c, actions).value, a)
  {
    RegistryInvariant(c, actions);
    var s := Exec(c, actions).value;
    hide Exec;
    assert ThreadOf(s, i);
    match s.threads[i]
    case Registrar(_, needsPort, pc) =>
      if pc.ToAllocate? {
        a := if !needsPort then NoPort(i)
             else if LowestFree(c.start, c.end, s.used).Some? then Allocate(i)
             else Refuse(i);
      } else {
        a := if pc.ToStore? then Store(i) else if pc.ToCount? then Count(i) else Index(i);
      }
    case Closer(x, _, pc) =>
      if pc.ToTake? {
        a := if x in s.tunnels then Take(i) else Miss(i);
      } else {
        a := if pc.ToUncount? then Uncount(i) else if pc.ToUnindex? then Unindex(i) else Release(i);
      }
  }

  /** Every step of a thread brings it nearer its end and leaves the others where they are. */
  lemma StepAdvances(c: Ports, s: State, a: Action, j: nat)
    requires Enabled(c, s, a) && !a.CallRegister? && !a.CallClose? && j < |s.threads|
    ensures var t := Apply(c, s, a);
            && |t.threads| == |s.threads|
            && StepsLeft(t.threads[a.i]) < StepsLeft(s.threads[a.i])
            && (j != a.i ==> t.threads[j] == s.threads[j])
  {
    hide LowestFree, Hold;
  }
}

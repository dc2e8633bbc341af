/**
 The client's connection pool. Idle connections sit in one backing array that
 Put pushes onto, Get pops from and Prune compacts in place. A ghost ledger
 tracks which connections are idle, lent out and closed for good.
 */
module ConnPool {
  import opened Ledgers

  class PooledConn {
    const createdAt: int
    var closed: bool
    var open: bool  // the wrapped network connection

    constructor (createdAt: int)
      ensures this.createdAt == createdAt && !closed && open
    {
      this.createdAt := createdAt;
      closed := false;
      open := true;
    }

    method Shut()
      modifies this
      ensures !open && closed
    {
      open := false;
      closed := true;
    }
  }

  /** A connection that no pool wraps. */
  class NetConn {
    var open: bool

    constructor ()
      ensures open
    {
      open := true;
    }
  }

  /** What callers hand back: nil, a connection of their own, one of this pool, or one of another pool. */
  datatype Conn = Nil | Foreign(net: NetConn) | Pooled(pc: PooledConn) | Elsewhere(pc: PooledConn, home: ConnPool)

  function Touched(conn: Conn): set<object> {
    match conn
    case Nil => {}
    case Foreign(net) => {net}
    case Pooled(pc) => {pc}
    case Elsewhere(pc, home) => {pc, home, home.buf}
  }

  datatype GetResult = Got(conn: PooledConn) | PoolClosed | DialFailed

  /** A maximum age of zero or less means that nothing expires. */
  function Expired(maxAge: int, now: int): PooledConn -> bool {
    (c: PooledConn) => maxAge > 0 && now - c.createdAt > maxAge
  }

  /** Idle and lent connections are usable, the others are closed. */
  ghost predicate Statuses(l: Ledger<PooledConn>)
    reads l.idle, l.lent, l.dead
  {
    && (forall i :: 0 <= i < |l.idle| ==> l.idle[i].open && !l.idle[i].closed)
    && (forall c :: c in l.lent ==> c.open && !c.closed)
    && (forall c :: c in l.dead ==> !c.open && c.closed)
  }

  lemma LentStatuses(l: Ledger<PooledConn>)
    requires Statuses(l) && l.idle != []
    ensures Statuses(Lent(l))
  {
  }

  lemma ReturnedStatuses(l: Ledger<PooledConn>, c: PooledConn)
    requires Statuses(l) && c in l.lent
    ensures Statuses(Returned(l, c))
  {
  }

  lemma CreatedStatuses(l: Ledger<PooledConn>, c: PooledConn)
    requires Statuses(l) && c.open && !c.closed
    ensures Statuses(Created(l, c))
  {
  }

  /** Closes a connection. */
  method ShutLent(pc: PooledConn, ghost l: Ledger<PooledConn>)
    modifies pc
    ensures old(Sound(l) && Statuses(l)) && pc in l.lent ==> Statuses(Discarded(l, pc))
  {
    pc.Shut();
  }

  lemma DiscardedIdle(l: Ledger<PooledConn>, pc: PooledConn)
    ensures Discarded(l, pc).idle == l.idle
  {
  }

  lemma OwnedStatus(l: Ledger<PooledConn>, pc: PooledConn)
    requires Sound(l) && Statuses(l)
    ensures pc in l.lent ==> !pc.closed
    ensures pc in l.dead ==> pc.closed && pc !in l.lent
  {
  }

  /** Clears the flag of a connection, which a lent one has clear anyway. */
  method ReopenLent(pc: PooledConn, ghost l: Ledger<PooledConn>)
    modifies pc
    ensures old(Statuses(l)) && pc in l.lent ==> Statuses(l)
  {
    pc.closed := false;
  }

  /** Statuses while the idle list has been worked through up to position i, closing what `doomed` names. */
  ghost predicate Halfway(l: Ledger<PooledConn>, i: nat, doomed: PooledConn -> bool)
    reads l.idle, l.lent, l.dead
  {
    && (forall j :: 0 <= j < |l.idle| ==>
          if j < i && doomed(l.idle[j]) then !l.idle[j].open && l.idle[j].closed
          else l.idle[j].open && !l.idle[j].closed)
    && (forall c :: c in l.lent ==> c.open && !c.closed)
    && (forall c :: c in l.dead ==> !c.open && c.closed)
  }

  lemma HalfwayMoves(l: Ledger<PooledConn>, i: nat, doomed: PooledConn -> bool)
    ensures Statuses(l) ==> Halfway(l, 0, doomed)
    ensures i < |l.idle| && !doomed(l.idle[i]) && Halfway(l, i, doomed) ==> Halfway(l, i + 1, doomed)
  {
  }

  /** Closes the i-th idle connection within a pass over the list. */
  method ShutAt(pc: PooledConn, ghost l: Ledger<PooledConn>, ghost i: nat, ghost doomed: PooledConn -> bool)
    requires i < |l.idle| && l.idle[i] == pc && doomed(pc) && Sound(l) && Halfway(l, i, doomed)
    modifies pc
    ensures Halfway(l, i + 1, doomed)
  {
    pc.Shut();
  }

  lemma PrunedStatuses(l: Ledger<PooledConn>, doomed: PooledConn -> bool)
    requires Halfway(l, |l.idle|, doomed)
    ensures Statuses(Pruned(l, doomed))
  {
    var live := Live(l.idle, doomed);
    forall i | 0 <= i < |live| ensures live[i].open && !live[i].closed {
      LiveMeans(l.idle, doomed, live[i]);
    }
    forall c | c in Doomed(l.idle, doomed) ensures !c.open && c.closed {
      LiveMeans(l.idle, doomed, c);
    }
  }

  lemma YoungEnough(c: PooledConn, maxAge: int, now: int)
    ensures !Expired(maxAge, now)(c) <==> maxAge <= 0 || now - c.createdAt <= maxAge
  {
  }

  class ConnPool {
    const maxIdle: nat
    const maxAge: int
    const buf: array<PooledConn?>
    var len: nat
    var created: int
    var reused: int
    var closedCount: int
    var shut: bool

    ghost var ledger: Ledger<PooledConn>
    /** Connections closed directly after the pool was shut, which the statistics miss. */
    ghost var unreported: nat

    ghost predicate Shape()
      reads this, buf
    {
      && len == |ledger.idle| <= maxIdle == buf.Length
      && forall i :: 0 <= i < len ==> buf[i] == ledger.idle[i]
    }

    ghost predicate Counters()
      reads this
    {
      && created == Total(ledger)
      && closedCount + unreported == |ledger.dead|
      && (!shut ==> unreported == 0)
      && (shut ==> len == 0)
    }

    ghost predicate Valid()
      reads this, buf, ledger.idle, ledger.lent, ledger.dead
    {
      Shape() && Sound(ledger) && Statuses(ledger) && Counters()
    }

    constructor (maxIdle: int, maxAge: int)
      ensures Valid() && !shut && ledger == Ledger([], {}, {}) && fresh(buf)
      ensures this.maxIdle == (if maxIdle <= 0 then 10 else maxIdle) && this.maxAge == maxAge
    {
      var size := if maxIdle <= 0 then 10 else maxIdle;
      this.maxIdle := size;
      this.maxAge := maxAge;
      buf := new PooledConn?[size](_ => null);
      len, created, reused, closedCount, shut := 0, 0, 0, 0, false;
      ledger, unreported := Ledger([], {}, {}), 0;
    }

    /** Every connection ever created is idle, lent or closed, and never two of these. */
    lemma Conservation()
      requires Valid()
      ensures created == len + |ledger.lent| + |ledger.dead|
      ensures !shut ==> created == len + |ledger.lent| + closedCount
      ensures len <= maxIdle && forall i, j :: 0 <= i < j < len ==> buf[i] != buf[j]
      ensures forall i :: 0 <= i < len ==> buf[i] != null && buf[i].open && !buf[i].closed && buf[i] !in ledger.lent
    {
    }

    /** Takes the last idle connection off the list. */
    method Pop() returns (pc: PooledConn)
      requires Valid() && len > 0
      modifies this`len, this`ledger
      ensures Valid() && ledger == Lent(old(ledger)) && pc == old(ledger.idle[len - 1])
    {
      TakeLast(ledger);
      LentStatuses(ledger);
      hide Sound, Total, Statuses;
      pc := buf[len - 1];
      len := len - 1;
      ledger := Lent(ledger);
    }

    method Create(born: int) returns (pc: PooledConn)
      requires Valid()
      modifies this`created, this`ledger
      ensures Valid() && fresh(pc) && pc.createdAt == born
      ensures ledger == Created(old(ledger), pc) && created == old(created) + 1
    {
      pc := new PooledConn(born);
      MakeNew(ledger, pc);
      CreatedStatuses(ledger, pc);
      hide Sound, Total, Statuses;
      created := created + 1;
      ledger := Created(ledger, pc);
    }

    /** Closes a connection for good; `reported` says whether the statistics see it. */
    method Discard(pc: PooledConn, reported: bool)
      requires Shape() && Counters() && (reported || shut)
      modifies this`closedCount, this`unreported, this`ledger, pc
      ensures ledger == Discarded(old(ledger), pc)
      ensures unreported == old(unreported) + if reported then 0 else 1
      ensures old(Sound(ledger) && Statuses(ledger)) && pc in old(ledger.lent) ==> Valid()
      ensures pc !in old(ledger.lent) ==> !Valid()
    {
      hide Sound, Total, Statuses, Discarded;
      ghost var l := ledger;
      if Sound(l) && Statuses(l) && pc in l.lent {
        GiveBack(l, pc);
      } else if pc !in l.lent {
        NotLent(l, pc);
      }
      ShutLent(pc, l);
      if reported {
        closedCount := closedCount + 1;
      } else {
        unreported := unreported + 1;
      }
      ledger := Discarded(l, pc);
      DiscardedIdle(l, pc);
    }

    /** The popping loop of Get: expired connections are closed on the way to the first usable one. */
    method PopUnexpired(now: int) returns (pc: PooledConn?)
      requires Valid() && !shut
      modifies this`len, this`closedCount, this`unreported, this`ledger, ledger.idle
      ensures Valid()
      ensures var m := Popped(old(ledger), Expired(maxAge, now));
              if m.idle == [] then pc == null && ledger == m
              else pc == m.idle[|m.idle| - 1] && ledger == Lent(m)
      ensures pc != null ==> maxAge <= 0 || now - pc.createdAt <= maxAge
    {
      var expired := Expired(maxAge, now);
      hide Sound, Total, Statuses, Lent, Discarded, Dropped, Expired;
      while len > 0
        invariant Valid() && len <= old(len) && ledger.idle == old(ledger.idle)[..len]
        invariant Popped(ledger, expired) == Popped(old(ledger), expired)
        decreases len
      {
        PopAndDiscard(ledger);
        pc := Pop();
        if !expired(pc) {
          YoungEnough(pc, maxAge, now);
          return;
        }
        Discard(pc, true);
      }
      pc := null;
    }

    /** Get: a pooled connection if one is left, else a new one if the factory makes one. */
    method Get(now: int, dialed: bool, born: int) returns (r: GetResult)
      requires Valid()
      modifies this, ledger.idle
      ensures Valid() && shut == old(shut)
      ensures shut ==> r == PoolClosed && ledger == old(ledger)
      ensures r.Got? && reused > old(reused) ==> maxAge <= 0 || now - r.conn.createdAt <= maxAge
      ensures !shut ==>
        var m := Popped(old(ledger), Expired(maxAge, now));
        if m.idle != [] then
          && r == Got(m.idle[|m.idle| - 1]) && ledger == Lent(m)
          && reused == old(reused) + 1 && created == old(created)
        else if dialed then
          && r.Got? && fresh(r.conn) && r.conn.createdAt == born && ledger == Created(m, r.conn)
          && reused == old(reused) && created == old(created) + 1
        else r == DialFailed && ledger == m && reused == old(reused) && created == old(created)
    {
      hide Sound, Total, Statuses, Popped, Lent, Created, Expired;
      if shut {
        return PoolClosed;
      }
      var idle := PopUnexpired(now);
      if idle != null {
        reused := reused + 1;
        return Got(idle);
      }
      if !dialed {
        return DialFailed;
      }
      var pc := Create(born);
      r := Got(pc);
    }

    method Append(pc: PooledConn)
      requires Shape() && Counters() && len < maxIdle && !shut
      modifies this`len, this`ledger, buf
      ensures ledger == Returned(old(ledger), pc)
      ensures old(Sound(ledger) && Statuses(ledger)) && pc in old(ledger.lent) ==> Valid()
      ensures pc !in old(ledger.lent) ==> !Valid()
    {
      ghost var l := ledger;
      hide Sound, Total, Statuses;
      if Sound(l) && Statuses(l) && pc in l.lent {
        GiveBack(l, pc);
        ReturnedStatuses(l, pc);
      } else if pc !in l.lent {
        NotLent(l, pc);
      }
      buf[len] := pc;
      len := len + 1;
      ledger := Returned(l, pc);
    }

    /** What Put does on an open pool: back on the list while there is room, otherwise closed. */
    method Return(pc: PooledConn)
      requires Shape() && Counters() && !shut
      modifies this`len, this`closedCount, this`unreported, this`ledger, buf, pc
      ensures ledger == if old(len) < maxIdle then Returned(old(ledger), pc) else Discarded(old(ledger), pc)
      ensures unreported == old(unreported)
      ensures old(Sound(ledger) && Statuses(ledger)) && pc in old(ledger.lent) ==> Valid()
      ensures pc !in old(ledger.lent) ==> !Valid()
    {
      hide Sound, Total, Statuses;
      if len >= maxIdle {
        Discard(pc, true);
      } else {
        Append(pc);
      }
    }

    /** Connections of this pool. */
    ghost predicate Owns(pc: PooledConn)
      reads this
    {
      pc in ledger.idle || pc in ledger.lent || pc in ledger.dead
    }

    /**
     Put takes anything. It keeps the pool's books right if and only if it gets
     nothing, a connection of its own that is lent out, or a foreign one while the
     pool is open: a second return spoils them, and so does another pool's
     connection, or a foreign one that a shut pool counts. A shut pool closes
     another pool's connection, which returns it to that pool.
     */
    method Put(conn: Conn)
      requires Valid() && (conn.Pooled? ==> Owns(conn.pc))
      requires conn.Elsewhere? ==> conn.home != this && conn.home.Valid() && conn.home.Owns(conn.pc) && !Owns(conn.pc)
      modifies this`len, this`closedCount, this`unreported, this`ledger, buf, Touched(conn)
      ensures conn.Pooled? || (conn.Elsewhere? && !shut) ==>
                ledger == if !shut && old(len) < maxIdle then Returned(old(ledger), conn.pc)
                          else Discarded(old(ledger), conn.pc)
      ensures conn.Nil? || conn.Foreign? || (conn.Elsewhere? && shut) ==> ledger == old(ledger)
      ensures conn.Foreign? ==> !conn.net.open
      ensures conn.Elsewhere? && shut && !conn.home.shut ==>
                conn.home.ledger == if old(conn.home.len) < conn.home.maxIdle
                                    then Returned(old(conn.home.ledger), conn.pc)
                                    else Discarded(old(conn.home.ledger), conn.pc)
      ensures unreported == old(unreported)
      ensures Valid() <==> match conn
                           case Nil => true
                           case Foreign(_) => !shut
                           case Pooled(pc) => pc in old(ledger.lent)
                           case Elsewhere(_, _) => false
    {
      hide Sound, Total, Statuses;
      if conn == Nil {
        return;
      }
      if conn.Foreign? {
        conn.net.open := false;
        if shut {
          closedCount := closedCount + 1;
        }
      } else if conn.Elsewhere? && shut {
        conn.home.CloseConn(conn.pc);
        closedCount := closedCount + 1;
      } else if shut {
        Discard(conn.pc, true);
      } else {
        Return(conn.pc);
      }
    }

    /**
     Close on a pooled connection returns it to an open pool, which keeps the
     books right if and only if it was lent out. Once the pool is shut it really
     closes, unreported, and closing it again does nothing.
     */
    method CloseConn(pc: PooledConn)
      requires Valid() && Owns(pc)
      modifies this`len, this`closedCount, this`ledger, this`unreported, buf, pc
      ensures !shut ==>
                ledger == if old(len) < maxIdle then Returned(old(ledger), pc) else Discarded(old(ledger), pc)
      ensures shut ==> ledger == if pc in old(ledger.lent) then Discarded(old(ledger), pc) else old(ledger)
      ensures unreported == old(unreported) + if shut && pc in old(ledger.lent) then 1 else 0
      ensures Valid() <==> shut || pc in old(ledger.lent)
    {
      OwnedStatus(ledger, pc);
      hide Sound, Total, Statuses;
      if !shut {
        ReopenLent(pc, ledger);
        Return(pc);
      } else if !pc.closed {
        Discard(pc, false);
      }
    }

    /** Ends a pass over the list that left its first k places holding the survivors. */
    method Settle(k: nat, ghost l: Ledger<PooledConn>, ghost doomed: PooledConn -> bool)
      requires Sound(l) && |l.idle| <= maxIdle == buf.Length && Halfway(l, |l.idle|, doomed)
      requires k == |Live(l.idle, doomed)| <= |l.idle|
      requires forall j :: 0 <= j < k ==> buf[j] == Live(l.idle, doomed)[j]
      requires created == Total(l) && closedCount + unreported == |l.dead| + |l.idle| - k
      requires if shut then k == 0 else unreported == 0
      modifies this`len, this`ledger
      ensures Valid() && len == k && ledger == Pruned(l, doomed)
    {
      PruneLedger(l, doomed);
      PrunedStatuses(l, doomed);
      hide Sound, Total, Live, Doomed, Halfway, Statuses;
      ledger := Pruned(l, doomed);
      len := k;
    }

    /** Close: every idle connection is closed; lent ones stay with their users. A second call does nothing. */
    method Close()
      requires Valid()
      modifies this`len, this`closedCount, this`ledger, this`shut, ledger.idle
      ensures Valid() && shut
      ensures ledger == Ledger([], old(ledger).lent, old(ledger).dead + Elems(old(ledger).idle))
    {
      ghost var every := (_: PooledConn) => true;
      AllPruned(ledger, every);
      if !shut {
        hide Elems, Pruned;
        CloseIdle(every);
      }
    }

    /** The pass of Close over the idle list. */
    method CloseIdle(ghost every: PooledConn -> bool)
      requires Valid() && !shut && forall c :: every(c)
      modifies this`len, this`closedCount, this`ledger, this`shut, ledger.idle
      ensures Valid() && shut && ledger == Pruned(old(ledger), every)
    {
      hide Total, Sound, Statuses, Halfway, Live, Doomed, Elems, Pruned;
      ghost var l := ledger;
      AllDoomed(l.idle, every);
      HalfwayMoves(l, 0, every);
      assert Halfway(l, 0, every) && |Live(l.idle, every)| == 0;
      shut := true;
      ShutAll(l, every);
      Settle(0, l, every);
    }

    method ShutAll(ghost l: Ledger<PooledConn>, ghost every: PooledConn -> bool)
      requires len == |l.idle| <= buf.Length && forall i :: 0 <= i < len ==> buf[i] == l.idle[i]
      requires Sound(l) && Halfway(l, 0, every) && forall c :: every(c)
      modifies this`closedCount, l.idle
      ensures Halfway(l, |l.idle|, every) && closedCount == old(closedCount) + len
    {
      hide Sound, Halfway;
      var i := 0;
      while i < len
        invariant 0 <= i <= len && Halfway(l, i, every) && closedCount == old(closedCount) + i
      {
        ShutAt(buf[i], l, i, every);
        closedCount := closedCount + 1;
        i := i + 1;
      }
    }

    /** Prune: the list is compacted in place to its unexpired connections, in order; the others are closed. */
    method Prune(now: int) returns (pruned: nat)
      requires Valid()
      modifies this`len, this`closedCount, this`ledger, buf, ledger.idle
      ensures Valid() && ledger == Pruned(old(ledger), Expired(maxAge, now))
      ensures pruned == old(len) - len
    {
      var expired := Expired(maxAge, now);
      ghost var l := ledger;
      if maxAge <= 0 {
        NothingPruned(l, expired);
        return 0;
      }
      HalfwayMoves(l, 0, expired);
      hide Sound, Total, Expired, Statuses, Halfway, Live, Pruned;
      var k := Compact(expired, l);
      assert l.idle[..len] == l.idle;
      pruned := len - k;
      Settle(k, l, expired);
    }

    /** The pass of Prune at position i: the first k places hold the survivors so far, the rest is untouched. */
    ghost predicate Compacted(l: Ledger<PooledConn>, i: nat, k: nat, expired: PooledConn -> bool)
      reads buf
    {
      && k <= i <= |l.idle| <= buf.Length
      && k == |Live(l.idle[..i], expired)|
      && (forall j :: 0 <= j < k ==> buf[j] == Live(l.idle[..i], expired)[j])
      && (forall j :: i <= j < |l.idle| ==> buf[j] == l.idle[j])
    }

    /** A survivor moves down to place k, over places already read. */
    method KeepAt(pc: PooledConn, ghost i: nat, k: nat, ghost l: Ledger<PooledConn>, ghost expired: PooledConn -> bool)
      requires Compacted(l, i, k, expired) && i < |l.idle| && l.idle[i] == pc && !expired(pc)
      modifies buf
      ensures Compacted(l, i + 1, k + 1, expired)
    {
      LiveSnoc(l.idle, i, expired);
      hide Live;
      buf[k] := pc;
    }

    lemma Skipped(i: nat, k: nat, l: Ledger<PooledConn>, expired: PooledConn -> bool)
      requires Compacted(l, i, k, expired) && i < |l.idle| && expired(l.idle[i])
      ensures Compacted(l, i + 1, k, expired)
    {
      LiveSnoc(l.idle, i, expired);
      hide Live;
    }

    /** The in-place pass of Prune. */
    method Compact(expired: PooledConn -> bool, ghost l: Ledger<PooledConn>) returns (k: nat)
      requires len == |l.idle| <= buf.Length && forall i :: 0 <= i < len ==> buf[i] == l.idle[i]
      requires Sound(l) && Halfway(l, 0, expired)
      modifies this`closedCount, buf, l.idle
      ensures Halfway(l, len, expired)
      ensures Compacted(l, len, k, expired) && closedCount == old(closedCount) + len - k
    {
      hide Sound, Halfway;
      k := 0;
      var i := 0;
      while i < len
        invariant 0 <= k <= i <= len && closedCount == old(closedCount) + i - k
        invariant Compacted(l, i, k, expired) && Halfway(l, i, expired)
      {
        hide Live;
        var pc := buf[i];
        if expired(pc) {
          Skipped(i, k, l, expired);
          ShutAt(pc, l, i, expired);
          closedCount := closedCount + 1;
        } else {
          HalfwayMoves(l, i, expired);
          KeepAt(pc, i, k, l, expired);
          k := k + 1;
        }
        i := i + 1;
      }
    }
  }

  /**
   In terms of ages: what Get pops stops at the last connection returned that is
   not older than the maximum age, if there is one; all returned later are older,
   and they are the ones closed.
   */
  lemma PoppedByAge(l: Ledger<PooledConn>, maxAge: int, now: int, k: nat)
    ensures var m := Popped(l, Expired(maxAge, now));
            var n := |m.idle|;
            && m.idle <= l.idle && m.lent == l.lent && m.dead == l.dead + Elems(l.idle[n..])
            && (n > 0 ==> maxAge <= 0 || now - m.idle[n - 1].createdAt <= maxAge)
            && (n <= k < |l.idle| ==> maxAge > 0 && now - l.idle[k].createdAt > maxAge)
  {
    PoppedToLastLive(l, Expired(maxAge, now));
    LastLiveMeans(l.idle, Expired(maxAge, now));
    var j := LastLive(l.idle, Expired(maxAge, now));
    hide Popped, LastLive, Elems;
    if j >= 0 {
      assert !Expired(maxAge, now)(l.idle[j]);
    }
    if j < k < |l.idle| {
      assert Expired(maxAge, now)(l.idle[k]);
    }
  }

  /** In terms of ages: Prune keeps exactly the idle connections that are not too old and closes exactly the others. */
  lemma PrunedByAge(l: Ledger<PooledConn>, maxAge: int, now: int, c: PooledConn)
    ensures var m := Pruned(l, Expired(maxAge, now));
            && (c in m.idle <==> c in l.idle && (maxAge <= 0 || now - c.createdAt <= maxAge))
            && (c in m.dead <==> c in l.dead || (c in l.idle && maxAge > 0 && now - c.createdAt > maxAge))
            && m.lent == l.lent
  {
    LiveMeans(l.idle, Expired(maxAge, now), c);
    hide Live, Doomed;
  }
}

/**
 The bookkeeping of a pool, over any kind of item: which items are idle, in the
 order they were returned, which are lent out and which are closed for good.
 */
module Ledgers {
  predicate Distinct<T(==)>(s: seq<T>) {
    forall i, j :: 0 <= i < j < |s| ==> s[i] != s[j]
  }

  /** The position of the last item that is not stale, or -1. */
  function LastLive<T>(s: seq<T>, stale: T -> bool): int {
    if s == [] then -1
    else if !stale(s[|s| - 1]) then |s| - 1
    else LastLive(s[..|s| - 1], stale)
  }

  lemma {:induction false} LastLiveMeans<T>(s: seq<T>, stale: T -> bool)
    ensures var j := LastLive(s, stale);
            && -1 <= j < |s|
            && (j >= 0 ==> !stale(s[j]))
            && forall k :: j < k < |s| ==> stale(s[k])
  {
    if s != [] && stale(s[|s| - 1]) {
      LastLiveMeans(s[..|s| - 1], stale);
    }
  }

  /** The items that are not stale, in order. */
  function Live<T>(s: seq<T>, stale: T -> bool): seq<T> {
    if s == [] then []
    else Live(s[..|s| - 1], stale) + if stale(s[|s| - 1]) then [] else [s[|s| - 1]]
  }

  lemma LiveSnoc<T>(s: seq<T>, i: nat, stale: T -> bool)
    requires i < |s|
    ensures Live(s[..i + 1], stale) == Live(s[..i], stale) + if stale(s[i]) then [] else [s[i]]
  {
    assert s[..i + 1][..i] == s[..i];
  }

  /** The items of a list. */
  function Elems<T(==)>(s: seq<T>): set<T> {
    if s == [] then {} else Elems(s[..|s| - 1]) + {s[|s| - 1]}
  }

  /** The stale items of a list. */
  function Doomed<T(==)>(s: seq<T>, stale: T -> bool): set<T> {
    if s == [] then {}
    else Doomed(s[..|s| - 1], stale) + if stale(s[|s| - 1]) then {s[|s| - 1]} else {}
  }

  lemma {:induction false} ElemsMeans<T>(s: seq<T>, c: T)
    ensures c in Elems(s) <==> c in s
  {
    if s != [] {
      ElemsMeans(s[..|s| - 1], c);
    }
  }

  lemma ElemsOfTail<T>(s: seq<T>, k: nat)
    requires k < |s|
    ensures Elems(s[k..]) == Elems(s[..|s| - 1][k..]) + {s[|s| - 1]}
  {
    assert s[k..][..|s| - 1 - k] == s[..|s| - 1][k..];
  }

  /** Filtering keeps exactly the items that are not stale, and dooms exactly the others. */
  lemma {:induction false} LiveMeans<T>(s: seq<T>, stale: T -> bool, c: T)
    ensures c in Live(s, stale) <==> c in s && !stale(c)
    ensures c in Doomed(s, stale) <==> c in s && stale(c)
  {
    if s != [] {
      var before, last := s[..|s| - 1], s[|s| - 1];
      LiveMeans(before, stale, c);
      assert s == before + [last];
    }
  }

  /** What is kept stays in order: of two kept items the earlier one came from an earlier place. */
  lemma {:induction false} LiveInOrder<T>(s: seq<T>, stale: T -> bool, i: nat, j: nat) returns (p: nat, q: nat)
    requires i < j < |Live(s, stale)|
    ensures p < q < |s| && s[p] == Live(s, stale)[i] && s[q] == Live(s, stale)[j]
  {
    var before, n := s[..|s| - 1], |s| - 1;
    if j < |Live(before, stale)| {
      p, q := LiveInOrder(before, stale, i, j);
    } else {
      q := n;
      LiveMeans(before, stale, Live(s, stale)[i]);
      assert Live(s, stale)[i] == Live(before, stale)[i];
      assert Live(before, stale)[i] in Live(before, stale);
      p :| 0 <= p < n && before[p] == Live(s, stale)[i];
    }
  }

  lemma {:induction false} LiveCount<T>(s: seq<T>, stale: T -> bool)
    requires Distinct(s)
    ensures Distinct(Live(s, stale)) && |Doomed(s, stale)| + |Live(s, stale)| == |s| == |Elems(s)|
  {
    if s != [] {
      var before, last := s[..|s| - 1], s[|s| - 1];
      LiveCount(before, stale);
      assert last !in before;
      LiveMeans(before, stale, last);
      ElemsMeans(before, last);
    }
  }

  lemma {:induction false} NothingStale<T>(s: seq<T>, stale: T -> bool)
    requires forall c :: !stale(c)
    ensures Live(s, stale) == s && Doomed(s, stale) == {}
  {
    if s != [] {
      NothingStale(s[..|s| - 1], stale);
    }
  }

  lemma NothingPruned<T>(l: Ledger<T>, stale: T -> bool)
    requires forall c :: !stale(c)
    ensures Pruned(l, stale) == l
  {
    NothingStale(l.idle, stale);
  }

  // ---- ledgers ----

  datatype Ledger<T(==)> = Ledger(idle: seq<T>, lent: set<T>, dead: set<T>)

  function Total<T>(l: Ledger<T>): nat {
    |l.idle| + |l.lent| + |l.dead|
  }

  /** No item is in two places. */
  ghost predicate Sound<T>(l: Ledger<T>) {
    && Distinct(l.idle) && l.lent !! l.dead
    && forall i :: 0 <= i < |l.idle| ==> l.idle[i] !in l.lent && l.idle[i] !in l.dead
  }

  /** The last idle item is closed. */
  function Dropped<T>(l: Ledger<T>): Ledger<T>
    requires l.idle != []
  {
    var n := |l.idle| - 1;
    Ledger(l.idle[..n], l.lent, l.dead + {l.idle[n]})
  }

  /** The last idle item is lent out. */
  function Lent<T>(l: Ledger<T>): Ledger<T>
    requires l.idle != []
  {
    var n := |l.idle| - 1;
    Ledger(l.idle[..n], l.lent + {l.idle[n]}, l.dead)
  }

  function Returned<T>(l: Ledger<T>, c: T): Ledger<T> {
    Ledger(l.idle + [c], l.lent - {c}, l.dead)
  }

  function Discarded<T>(l: Ledger<T>, c: T): Ledger<T> {
    Ledger(l.idle, l.lent - {c}, l.dead + {c})
  }

  function Created<T>(l: Ledger<T>, c: T): Ledger<T> {
    Ledger(l.idle, l.lent + {c}, l.dead)
  }

  function Pruned<T>(l: Ledger<T>, stale: T -> bool): Ledger<T> {
    Ledger(Live(l.idle, stale), l.lent, l.dead + Doomed(l.idle, stale))
  }

  lemma TakeLast<T>(l: Ledger<T>)
    requires Sound(l) && l.idle != []
    ensures Sound(Dropped(l)) && Total(Dropped(l)) == Total(l) && |Dropped(l).dead| == |l.dead| + 1
    ensures Sound(Lent(l)) && Total(Lent(l)) == Total(l)
  {
  }

  lemma GiveBack<T>(l: Ledger<T>, c: T)
    requires Sound(l) && c in l.lent
    ensures Sound(Returned(l, c)) && Total(Returned(l, c)) == Total(l)
    ensures Sound(Discarded(l, c)) && Total(Discarded(l, c)) == Total(l) && |Discarded(l, c).dead| == |l.dead| + 1
  {
  }

  /** An item that is not lent cannot be given back without the totals going wrong. */
  lemma NotLent<T>(l: Ledger<T>, c: T)
    requires c !in l.lent
    ensures Total(Returned(l, c)) != Total(l)
    ensures Total(Discarded(l, c)) != Total(l) || |Discarded(l, c).dead| == |l.dead|
  {
    assert l.lent - {c} == l.lent;
    if c in l.dead {
      assert l.dead + {c} == l.dead;
    }
  }

  /** Lending what was just returned undoes the return. */
  lemma ReturnThenLend<T>(l: Ledger<T>, c: T, stale: T -> bool)
    requires c in l.lent && !stale(c)
    ensures Popped(Returned(l, c), stale) == Returned(l, c)
    ensures Returned(l, c).idle[|l.idle|] == c && Lent(Returned(l, c)) == l
  {
    assert Returned(l, c).idle[..|l.idle|] == l.idle;
    assert l.lent - {c} + {c} == l.lent;
  }

  lemma MakeNew<T>(l: Ledger<T>, c: T)
    requires Sound(l) && c !in l.lent && c !in l.dead && c !in l.idle
    ensures Sound(Created(l, c)) && Total(Created(l, c)) == Total(l) + 1
  {
  }

  /** What Get closes on its way: stale items at the end of the list. */
  function Popped<T>(l: Ledger<T>, stale: T -> bool): Ledger<T>
    decreases |l.idle|
  {
    if l.idle == [] || !stale(l.idle[|l.idle| - 1]) then l else Popped(Dropped(l), stale)
  }

  /** The ledger once everything after position j has been closed. */
  function ClosedAfter<T>(l: Ledger<T>, j: int): Ledger<T>
    requires -1 <= j < |l.idle|
  {
    Ledger(l.idle[..j + 1], l.lent, l.dead + Elems(l.idle[j + 1..]))
  }

  lemma NothingAfterLast<T>(l: Ledger<T>)
    ensures ClosedAfter(l, |l.idle| - 1) == l
  {
    assert l.idle[..|l.idle|] == l.idle;
  }

  lemma DropThenClose<T>(l: Ledger<T>, j: int)
    requires -1 <= j < |l.idle| - 1
    ensures ClosedAfter(Dropped(l), j) == ClosedAfter(l, j)
  {
    ElemsOfTail(l.idle, j + 1);
    hide Elems;
    assert l.idle[..|l.idle| - 1][..j + 1] == l.idle[..j + 1];
  }

  /** Get picks the most recently returned item that is not stale; everything returned after it is closed. */
  lemma {:induction false} PoppedToLastLive<T>(l: Ledger<T>, stale: T -> bool)
    ensures -1 <= LastLive(l.idle, stale) < |l.idle|
    ensures Popped(l, stale) == ClosedAfter(l, LastLive(l.idle, stale))
    decreases |l.idle|
  {
    hide ClosedAfter;
    if l.idle == [] || !stale(l.idle[|l.idle| - 1]) {
      NothingAfterLast(l);
    } else {
      PoppedToLastLive(Dropped(l), stale);
      DropThenClose(l, LastLive(l.idle, stale));
    }
  }

  lemma PruneLedger<T>(l: Ledger<T>, stale: T -> bool)
    requires Sound(l)
    ensures var m := Pruned(l, stale);
            Sound(m) && Total(m) == Total(l) && |m.dead| == |l.dead| + |l.idle| - |m.idle|
  {
    var live, doomed := Live(l.idle, stale), Doomed(l.idle, stale);
    LiveCount(l.idle, stale);
    forall c ensures c in live <==> c in l.idle && !stale(c)
             ensures c in doomed <==> c in l.idle && stale(c) {
      LiveMeans(l.idle, stale, c);
    }
    hide Live, Doomed, Distinct;
    assert doomed !! l.dead && doomed !! l.lent;
    assert |l.dead + doomed| == |l.dead| + |doomed|;
    forall i | 0 <= i < |live| ensures live[i] !in l.lent && live[i] !in l.dead && live[i] !in doomed {
      LiveMeans(l.idle, stale, live[i]);
    }
  }

  lemma {:induction false} AllDoomed<T>(s: seq<T>, stale: T -> bool)
    requires forall c :: stale(c)
    ensures Live(s, stale) == [] && Doomed(s, stale) == Elems(s)
  {
    if s != [] {
      AllDoomed(s[..|s| - 1], stale);
    }
  }

  lemma AllPruned<T>(l: Ledger<T>, stale: T -> bool)
    requires forall c :: stale(c)
    ensures Pruned(l, stale) == Ledger([], l.lent, l.dead + Elems(l.idle))
  {
    AllDoomed(l.idle, stale);
  }

  /** Popping an item and then discarding it drops it. */
  lemma PopAndDiscard<T>(l: Ledger<T>)
    requires Sound(l) && l.idle != []
    ensures Discarded(Lent(l), l.idle[|l.idle| - 1]) == Dropped(l)
    ensures l.idle[|l.idle| - 1] in Lent(l).lent && Dropped(l).idle == Lent(l).idle == l.idle[..|l.idle| - 1]
  {
  }
}

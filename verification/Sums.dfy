/** Sums of a weight over a list of threads: the bookkeeping of every interleaving argument. */
module Sums {
  function Sum<T>(s: seq<T>, f: T -> int): int {
    if s == [] then 0 else Sum(s[..|s| - 1], f) + f(s[|s| - 1])
  }

  lemma SumAppend<T>(s: seq<T>, x: T, f: T -> int)
    ensures Sum(s + [x], f) == Sum(s, f) + f(x)
  {
    assert (s + [x])[..|s|] == s;
  }

  lemma {:induction false} SumUpdate<T>(s: seq<T>, i: nat, x: T, f: T -> int)
    requires i < |s|
    ensures Sum(s[i := x], f) == Sum(s, f) - f(s[i]) + f(x)
  {
    var n := |s| - 1;
    if i == n {
      assert s[i := x][..n] == s[..n];
    } else {
      SumUpdate(s[..n], i, x, f);
      assert s[i := x][..n] == s[..n][i := x];
    }
  }

  lemma {:induction false} SumZero<T>(s: seq<T>, f: T -> int)
    requires forall i :: 0 <= i < |s| ==> f(s[i]) == 0
    ensures Sum(s, f) == 0
  {
    if s != [] {
      SumZero(s[..|s| - 1], f);
    }
  }

  /** A sum of weights that are never negative is at least any one of them. */
  lemma {:induction false} SumAtLeast<T>(s: seq<T>, f: T -> int, i: nat)
    requires i < |s|
    requires forall j :: 0 <= j < |s| ==> f(s[j]) >= 0
    ensures Sum(s, f) >= f(s[i])
  {
    var n := |s| - 1;
    if i < n {
      SumAtLeast(s[..n], f, i);
    } else {
      SumNonNegative(s[..n], f);
    }
  }

  lemma {:induction false} SumNonNegative<T>(s: seq<T>, f: T -> int)
    requires forall j :: 0 <= j < |s| ==> f(s[j]) >= 0
    ensures Sum(s, f) >= 0
  {
    if s != [] {
      SumNonNegative(s[..|s| - 1], f);
    }
  }

  lemma {:induction false} SumDominates<T>(s: seq<T>, f: T -> int, g: T -> int)
    requires forall j :: 0 <= j < |s| ==> f(s[j]) <= g(s[j])
    ensures Sum(s, f) <= Sum(s, g)
  {
    if s != [] {
      SumDominates(s[..|s| - 1], f, g);
    }
  }

  /** An element of a nonempty set. */
  lemma Pick<T>(x: set<T>) returns (e: T)
    requires x != {}
    ensures e in x
  {
    e :| e in x;
  }

  lemma MapGrows<K, V>(m: map<K, V>, k: K, v: V)
    requires k !in m
    ensures |m[k := v]| == |m| + 1
  {
    assert m[k := v].Keys == m.Keys + {k};
  }

  lemma MapShrinks<K, V>(m: map<K, V>, k: K)
    requires k in m
    ensures |m - {k}| == |m| - 1
  {
    assert (m - {k}).Keys == m.Keys - {k};
  }
}

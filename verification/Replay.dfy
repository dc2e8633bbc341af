/**
 The replay window: a cache of recently accepted (client, timestamp) pairs that
 is pruned on every acceptance, compared with the full history of the run.
 */
module Replay {
  import opened Bytes
  import opened Decimal

  // ---- the cache over any kind of key ----

  function AfterCheck<K>(ttl: int, cache: map<K, int>, key: K, now: int): (map<K, int>, bool) {
    if key in cache then (cache, false)
    else ((map k | k in cache && now - cache[k] <= ttl :: cache[k])[key := now], true)
  }

  datatype Event<K> = Event(key: K, now: int, accepted: bool)

  /** A run on a clock that does not run backwards; caches[i] is what event i finds. */
  ghost predicate Run<K>(ttl: int, caches: seq<map<K, int>>, events: seq<Event<K>>) {
    && |caches| == |events| + 1
    && caches[0] == map[]
    && (forall i :: 0 <= i < |events| ==>
          (caches[i + 1], events[i].accepted) == AfterCheck(ttl, caches[i], events[i].key, events[i].now))
    && (forall i, j :: 0 <= i < j < |events| ==> events[i].now <= events[j].now)
  }

  /** Event i was accepted, and before event n no acceptance came more than ttl after it. */
  ghost predicate Remembered<K>(ttl: int, events: seq<Event<K>>, n: nat, i: int)
    requires n <= |events|
  {
    && 0 <= i < n && events[i].accepted
    && forall j :: i < j < n && events[j].accepted ==> events[j].now - events[i].now <= ttl
  }

  /** The cache found by event n holds exactly the acceptances still remembered, each with its time. */
  ghost predicate Exact<K>(ttl: int, cache: map<K, int>, events: seq<Event<K>>, n: nat)
    requires n <= |events|
  {
    && (forall i :: Remembered(ttl, events, n, i) ==> events[i].key in cache && cache[events[i].key] == events[i].now)
    && (forall k :: k in cache ==> exists i :: Remembered(ttl, events, n, i) && events[i].key == k)
  }

  lemma StillRemembered<K>(ttl: int, cache: map<K, int>, next: map<K, int>, events: seq<Event<K>>, n: nat, k: K)
    requires n < |events| && Exact(ttl, cache, events, n) && k in next
    requires (next, events[n].accepted) == AfterCheck(ttl, cache, events[n].key, events[n].now)
    ensures exists i :: Remembered(ttl, events, n + 1, i) && events[i].key == k
  {
    if events[n].accepted && k == events[n].key {
      assert Remembered(ttl, events, n + 1, n);
    } else {
      var i :| Remembered(ttl, events, n, i) && events[i].key == k;
      assert Remembered(ttl, events, n + 1, i);
    }
  }

  lemma ExactStep<K>(ttl: int, caches: seq<map<K, int>>, events: seq<Event<K>>, n: nat)
    requires Run(ttl, caches, events) && n < |events| && Exact(ttl, caches[n], events, n)
    ensures Exact(ttl, caches[n + 1], events, n + 1)
  {
    var cache, next, e := caches[n], caches[n + 1], events[n];
    assert (next, e.accepted) == AfterCheck(ttl, cache, e.key, e.now);
    forall i | Remembered(ttl, events, n + 1, i) ensures events[i].key in next && next[events[i].key] == events[i].now {
      if i < n {
        assert Remembered(ttl, events, n, i);
      }
    }
    forall k | k in next ensures exists i :: Remembered(ttl, events, n + 1, i) && events[i].key == k {
      StillRemembered(ttl, cache, next, events, n, k);
    }
  }

  /** The pruned cache agrees with the full history at every point of every run. */
  lemma {:induction false} CacheAgreesWithHistory<K>(ttl: int, caches: seq<map<K, int>>, events: seq<Event<K>>, n: nat)
    requires Run(ttl, caches, events) && n <= |events|
    ensures Exact(ttl, caches[n], events, n)
  {
    if n > 0 {
      CacheAgreesWithHistory(ttl, caches, events, n - 1);
      ExactStep(ttl, caches, events, n - 1);
    }
  }

  /** A key is rejected if and only if an earlier acceptance of it is still remembered. */
  lemma RejectedIff<K>(ttl: int, caches: seq<map<K, int>>, events: seq<Event<K>>, n: nat)
    requires Run(ttl, caches, events) && n < |events|
    ensures !events[n].accepted <==> exists i :: Remembered(ttl, events, n, i) && events[i].key == events[n].key
  {
    assert (caches[n + 1], events[n].accepted) == AfterCheck(ttl, caches[n], events[n].key, events[n].now);
    CacheAgreesWithHistory(ttl, caches, events, n);
  }

  /** Two acceptances of the same key are more than ttl apart. */
  lemma AcceptancesApart<K>(ttl: int, caches: seq<map<K, int>>, events: seq<Event<K>>, i: nat, j: nat)
    requires Run(ttl, caches, events) && i < j < |events|
    requires events[i].key == events[j].key && events[i].accepted && events[j].accepted
    ensures events[j].now - events[i].now > ttl
  {
    RejectedIff(ttl, caches, events, j);
    assert !Remembered(ttl, events, j, i);
  }

  // ---- the key of a request ----

  function Key(client: bytes, timestamp: int): bytes {
    client + [COLON] + FormatInt(timestamp)
  }

  /** The colon that ends the client name is the last one. */
  lemma LastColon(client: bytes, t: int)
    ensures var k := Key(client, t);
            && |client| < |k| && k[|client|] == COLON
            && forall i :: |client| < i < |k| ==> k[i] != COLON
  {
    var d := Digits(if t < 0 then -t else t);
    DigitsParse(if t < 0 then -t else t);
    assert forall i :: 0 <= i < |d| ==> IsDigit(d[i]);
    var f := FormatInt(t);
    assert forall i :: 0 <= i < |f| ==> f[i] != COLON;
    hide FormatInt, Digits;
  }

  /** Distinct pairs never share a key, even when the client name contains colons or digits. */
  lemma KeyInjective(c1: bytes, t1: int, c2: bytes, t2: int)
    requires Key(c1, t1) == Key(c2, t2)
    ensures c1 == c2 && t1 == t2
  {
    var k := Key(c1, t1);
    LastColon(c1, t1);
    LastColon(c2, t2);
    hide FormatInt;
    assert |c1| == |c2|;
    assert k[..|c1|] == c1 && k[..|c1|] == c2;
    assert k[|c1| + 1..] == FormatInt(t1) && k[|c1| + 1..] == FormatInt(t2);
    FormatInjective(t1, t2);
  }

  datatype Pair = Pair(client: bytes, timestamp: int)

  ghost predicate KeysOf(pairs: seq<Pair>, events: seq<Event<bytes>>) {
    && |pairs| == |events|
    && forall i :: 0 <= i < |events| ==> events[i].key == Key(pairs[i].client, pairs[i].timestamp)
  }

  /**
   In terms of the pairs themselves: a pair is rejected if and only if that very
   pair was accepted earlier and is still remembered, so a first use is never
   rejected and two acceptances of one pair are more than ttl apart.
   */
  lemma WindowAgreesWithPairs(
    ttl: int, caches: seq<map<bytes, int>>, events: seq<Event<bytes>>, pairs: seq<Pair>, n: nat)
    requires Run(ttl, caches, events) && KeysOf(pairs, events) && n < |events|
    ensures !events[n].accepted <==> exists i :: Remembered(ttl, events, n, i) && pairs[i] == pairs[n]
    ensures events[n].accepted ==>
              forall i :: 0 <= i < n && events[i].accepted && pairs[i] == pairs[n] ==>
                events[n].now - events[i].now > ttl
  {
    RejectedIff(ttl, caches, events, n);
    forall i | 0 <= i < n ensures pairs[i] == pairs[n] <==> events[i].key == events[n].key {
      if events[i].key == events[n].key {
        KeyInjective(pairs[i].client, pairs[i].timestamp, pairs[n].client, pairs[n].timestamp);
      }
    }
    forall i | 0 <= i < n && events[i].accepted && pairs[i] == pairs[n] && events[n].accepted
      ensures events[n].now - events[i].now > ttl
    {
      AcceptancesApart(ttl, caches, events, i, n);
    }
  }

  /**
   The converse of the ttl bound fails: expiry is looked at only on acceptance, so
   without another acceptance in between a key is rejected however late it returns.
   */
  lemma RejectedHoweverLate<K>(ttl: int, caches: seq<map<K, int>>, events: seq<Event<K>>, i: nat, n: nat)
    requires Run(ttl, caches, events) && i < n < |events|
    requires events[i].accepted && events[i].key == events[n].key
    requires forall j :: i < j < n ==> !events[j].accepted
    ensures !events[n].accepted
  {
    RejectedIff(ttl, caches, events, n);
    assert Remembered(ttl, events, n, i);
  }

  class AntiReplay {
    var cache: map<bytes, int>
    const ttl: int

    constructor (ttl: int)
      ensures this.ttl == ttl && cache == map[]
    {
      this.ttl := ttl;
      cache := map[];
    }

    method Check(client: bytes, timestamp: int, now: int) returns (ok: bool)
      modifies this
      ensures (cache, ok) == AfterCheck(ttl, old(cache), Key(client, timestamp), now)
    {
      var key := Key(client, timestamp);
      if key in cache {
        return false;
      }
      var todo := cache.Keys;
      while todo != {}
        invariant todo <= cache.Keys <= old(cache.Keys)
        invariant forall k :: k in cache ==> cache[k] == old(cache)[k]
        invariant forall k :: k in old(cache) && k !in todo ==> (k in cache <==> now - old(cache)[k] <= ttl)
        decreases todo
      {
        var k :| k in todo;
        if now - cache[k] > ttl {
          cache := cache - {k};
        }
        todo := todo - {k};
      }
      assert cache == map k | k in old(cache) && now - old(cache)[k] <= ttl :: old(cache)[k];
      cache := cache[key := now];
      ok := true;
    }
  }

  /** The key is the client name, a colon (58) and the timestamp in decimal. */
  lemma KeyLayout(client: bytes, t: nat)
    ensures Key(client, t) == client + [58] + Digits(t)
    ensures t > 0 ==> Key(client, -(t as int)) == client + [58, 45] + Digits(t)
  {
    hide Digits;
    assert client + [58] + ([45] + Digits(t)) == client + [58, 45] + Digits(t);
  }
}

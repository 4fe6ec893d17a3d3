/** The rate limiter of the auth endpoints: a Redis counter for each client whose expiry every hit renews. */
module RateLimit {
  import opened Models

  type Key = nat

  /** A counter that Redis drops at `expiresAt`. */
  datatype Counter = Counter(count: nat, expiresAt: Time)

  type Store = map<Key, Counter>

  /** A request. Redis has a clock of its own, which gives `at`; `reached` tells whether its transaction ran. */
  datatype Hit = Hit(key: Key, at: Time, reached: bool)

  function Incremented(store: Store, key: Key, at: Time): nat {
    if key in store && at < store[key].expiresAt then store[key].count + 1 else 1
  }

  /** `INCR key; EXPIRE key window`, as one transaction. */
  function Count(store: Store, hit: Hit, window: int): Store {
    if hit.reached then store[hit.key := Counter(Incremented(store, hit.key, hit.at), hit.at + window)] else store
  }

  /** A request passes if its own count is within the limit. If Redis cannot be reached it does not. */
  predicate Passes(store: Store, hit: Hit, limit: nat) {
    hit.reached && Incremented(store, hit.key, hit.at) <= limit
  }

  /** The counters after the first `n` hits. */
  function After(hits: seq<Hit>, n: nat, window: int): Store
    requires n <= |hits|
  {
    if n == 0 then map[] else Count(After(hits, n - 1, window), hits[n - 1], window)
  }

  predicate Accepted(hits: seq<Hit>, i: nat, window: int, limit: nat)
    requires i < |hits|
  {
    Passes(After(hits, i, window), hits[i], limit)
  }

  ghost predicate Monotone(hits: seq<Hit>) {
    forall i, j :: 0 <= i < j < |hits| ==> hits[i].at <= hits[j].at
  }

  // ----- The counter is the length of the burst -----

  /** The times at which a key's first `n` hits reached Redis. */
  function TimesOf(hits: seq<Hit>, n: nat, key: Key): seq<Time>
    requires n <= |hits|
  {
    if n == 0 then []
    else if hits[n - 1].reached && hits[n - 1].key == key then TimesOf(hits, n - 1, key) + [hits[n - 1].at]
    else TimesOf(hits, n - 1, key)
  }

  /** Hits `first` and later follow each other at less than a window, and `first` is the first of them. */
  ghost predicate IsBurst(times: seq<Time>, first: int, window: int) {
    && 0 <= first < |times|
    && (forall k :: first < k < |times| ==> times[k] - times[k - 1] < window)
    && (first > 0 ==> times[first] - times[first - 1] >= window)
  }

  lemma {:induction false} CounterIsBurst(hits: seq<Hit>, n: nat, key: Key, window: int)
    requires n <= |hits|
    ensures var times, store := TimesOf(hits, n, key), After(hits, n, window);
            && (key in store <==> times != [])
            && (key in store ==>
                  && store[key].expiresAt == times[|times| - 1] + window
                  && IsBurst(times, |times| - store[key].count, window))
  {
    if n == 0 {
    } else {
      CounterIsBurst(hits, n - 1, key, window);
      var before, times := TimesOf(hits, n - 1, key), TimesOf(hits, n, key);
      if times != before {
        forall k | 0 <= k < |before| ensures times[k] == before[k] {}
      }
    }
  }

  // ----- What the limiter guarantees -----

  /** Within less than a window of hit `i`, counts keep rising. */
  lemma {:induction false} CountsRise(hits: seq<Hit>, i: nat, n: nat, window: int)
    requires i < n <= |hits| && Monotone(hits) && hits[i].reached
    requires hits[n - 1].at < hits[i].at + window
    ensures var key, store := hits[i].key, After(hits, n, window);
            && key in store
            && store[key].count >= Incremented(After(hits, i, window), key, hits[i].at)
            && store[key].expiresAt >= hits[i].at + window
    decreases n
  {
    if n == i + 1 {
    } else {
      CountsRise(hits, i, n - 1, window);
    }
  }

  lemma CountsDiffer(hits: seq<Hit>, i: nat, j: nat, window: int)
    requires i < j < |hits| && Monotone(hits)
    requires hits[i].reached && hits[j].key == hits[i].key && hits[j].at < hits[i].at + window
    ensures Incremented(After(hits, i, window), hits[i].key, hits[i].at)
            < Incremented(After(hits, j, window), hits[j].key, hits[j].at)
  {
    CountsRise(hits, i, j, window);
  }

  function AcceptedWithin(hits: seq<Hit>, key: Key, from: Time, window: int, limit: nat): set<nat> {
    set i: nat | i < |hits| && hits[i].key == key && from <= hits[i].at < from + window
                 && Accepted(hits, i, window, limit)
  }

  lemma {:induction false} AtMostLimit(s: set<nat>, counts: map<nat, nat>, limit: nat)
    requires s <= counts.Keys && forall i :: i in s ==> 1 <= counts[i] <= limit
    requires forall i, j :: i in s && j in s && counts[i] == counts[j] ==> i == j
    ensures |s| <= limit
    decreases limit
  {
    if s == {} {
    } else {
      if i :| i in s && counts[i] == limit {
        AtMostLimit(s - {i}, counts, limit - 1);
      } else {
        var i :| i in s;
        assert counts[i] < limit;
        AtMostLimit(s, counts, limit - 1);
      }
    }
  }

  /** Any stretch of time no longer than the window contains at most `limit` accepted requests of a key. */
  lemma AcceptedPerWindow(hits: seq<Hit>, key: Key, from: Time, window: int, limit: nat)
    requires Monotone(hits)
    ensures |AcceptedWithin(hits, key, from, window, limit)| <= limit
  {
    var accepted := AcceptedWithin(hits, key, from, window, limit);
    var counts := map i | i in accepted :: Incremented(After(hits, i, window), key, hits[i].at);
    forall i, j | i in accepted && j in accepted && counts[i] == counts[j]
      ensures i == j
    {
      if i < j {
        CountsDiffer(hits, i, j, window);
      } else if j < i {
        CountsDiffer(hits, j, i, window);
      }
    }
    AtMostLimit(accepted, counts, limit);
  }

  // ----- How it differs from the fixed window it is described as -----

  /** A fixed window: opened by the first hit after the last window closed, and counting from one. */
  datatype Window = Window(count: nat, start: Time)

  function FixedWindow(times: seq<Time>, window: int): Window
    requires times != []
  {
    var last := times[|times| - 1];
    if |times| == 1 then Window(1, last)
    else
      var before := FixedWindow(times[..|times| - 1], window);
      if last < before.start + window then Window(before.count + 1, before.start) else Window(1, last)
  }

  ghost predicate Ascending(times: seq<Time>) {
    forall i, j :: 0 <= i < j < |times| ==> times[i] <= times[j]
  }

  lemma BurstPrefix(times: seq<Time>, first: int, window: int)
    requires IsBurst(times, first, window) && first < |times| - 1
    ensures IsBurst(times[..|times| - 1], first, window)
  {
    var init := times[..|times| - 1];
    forall k | first < k < |init| ensures init[k] - init[k - 1] < window {
      assert times[k] - times[k - 1] < window;
    }
  }

  lemma {:induction false} FixedAgainstBurst(times: seq<Time>, first: int, window: int)
    requires window > 0 && IsBurst(times, first, window)
    requires Ascending(times)
    ensures var fixed := FixedWindow(times, window);
            && fixed.count <= |times| - first && fixed.start <= times[|times| - 1]
            && (first == |times| - 1 ==> fixed == Window(1, times[first]))
            && times[first] <= fixed.start
            && (fixed.count == |times| - first <==> times[|times| - 1] < times[first] + window)
            && (fixed.count == |times| - first ==> fixed.start == times[first])
    decreases |times|
  {
    var init := times[..|times| - 1];
    if first == |times| - 1 {
      if first > 0 {
        OpenedInPast(init, window);
      }
    } else {
      BurstPrefix(times, first, window);
      FixedAgainstBurst(init, first, window);
    }
  }

  lemma {:induction false} OpenedInPast(times: seq<Time>, window: int)
    requires times != [] && Ascending(times)
    ensures FixedWindow(times, window).start <= times[|times| - 1]
    decreases |times|
  {
    if |times| == 1 {
    } else {
      OpenedInPast(times[..|times| - 1], window);
      assert times[|times| - 2] <= times[|times| - 1];
    }
  }

  lemma {:induction false} TimesAscend(hits: seq<Hit>, n: nat, key: Key)
    requires n <= |hits| && Monotone(hits)
    ensures Ascending(TimesOf(hits, n, key))
    ensures forall i, m :: 0 <= i < |TimesOf(hits, n, key)| && n <= m < |hits| ==>
              TimesOf(hits, n, key)[i] <= hits[m].at
  {
    if n == 0 {
    } else {
      TimesAscend(hits, n - 1, key);
    }
  }

  /** The limiter is never more generous than a fixed window, and counts the same exactly while the burst that the hit
      belongs to has lasted for less than a window. */
  lemma StricterThanFixedWindow(hits: seq<Hit>, i: nat, window: int, limit: nat)
    requires i < |hits| && Monotone(hits) && window > 0 && hits[i].reached
    ensures var times := TimesOf(hits, i + 1, hits[i].key);
            var count := Incremented(After(hits, i, window), hits[i].key, hits[i].at);
            && IsBurst(times, |times| - count, window)
            && (Accepted(hits, i, window, limit) ==> FixedWindow(times, window).count <= limit)
            && (FixedWindow(times, window).count == count <==> hits[i].at < times[|times| - count] + window)
  {
    CounterIsBurst(hits, i + 1, hits[i].key, window);
    TimesAscend(hits, i + 1, hits[i].key);
    var times := TimesOf(hits, i + 1, hits[i].key);
    FixedAgainstBurst(times, |times| - After(hits, i + 1, window)[hits[i].key].count, window);
  }

  /** A client that never pauses for a whole window is let through `limit` times, and never again. */
  lemma {:induction false} SteadyClientStarves(hits: seq<Hit>, i: nat, window: int, limit: nat)
    requires i < |hits| && Monotone(hits)
    requires forall k :: 0 <= k < |hits| ==> hits[k].reached && hits[k].key == hits[0].key
    requires forall k :: 0 < k < |hits| ==> hits[k].at < hits[k - 1].at + window
    ensures Incremented(After(hits, i, window), hits[i].key, hits[i].at) == i + 1
    ensures Accepted(hits, i, window, limit) <==> i < limit
    decreases i
  {
    if i == 0 {
    } else {
      SteadyClientStarves(hits, i - 1, window, limit);
    }
  }

  // ----- The middleware -----

  class Limiter {
    const configured: bool  // whether there is a Redis client at all
    var store: Store

    constructor (configured: bool)
      ensures this.configured == configured && store == map[]
    {
      this.configured := configured;
      store := map[];
    }

    /** Increment the client's counter, renew its expiry, and let the request pass or not. Without a client everything
        passes; when Redis cannot be reached nothing does. */
    method Allow(hit: Hit, limit: nat, window: int) returns (pass: bool)
      modifies this`store
      ensures store == if configured then Count(old(store), hit, window) else old(store)
      ensures pass == (configured ==> Passes(old(store), hit, limit))
      ensures !configured ==> pass && store == old(store)
      ensures configured && !hit.reached ==> !pass && store == old(store)
      ensures configured && hit.reached ==>
                && hit.key in store && (pass <==> store[hit.key].count <= limit)
                && store[hit.key].expiresAt - hit.at == window
                && store[hit.key].count == 1 + (if hit.key in old(store) && hit.at < old(store)[hit.key].expiresAt
                                                then old(store)[hit.key].count else 0)
                && store - {hit.key} == old(store) - {hit.key}
    {
      if !configured {
        return true;
      }
      if !hit.reached {
        return false;
      }
      var count := 1;
      if hit.key in store && hit.at < store[hit.key].expiresAt {
        count := store[hit.key].count + 1;
      }
      store := store[hit.key := Counter(count, hit.at + window)];
      if count > limit {
        return false;
      }
      return true;
    }
  }
}

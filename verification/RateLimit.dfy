/** The API's rate limiter in process: one sliding window per key, pruned when it is used and
    by a periodic clean-up, and the admission decision. */
module RateLimit {
  import opened SlidingWindow

  type Key = string

  function EventsOf(m: map<Key, seq<real>>, k: Key): seq<real> {
    if k in m then m[k] else []
  }

  /** The bucket of k still holds every hit that can count at `now`. */
  predicate KeyOk(buckets: map<Key, seq<real>>, history: map<Key, seq<real>>, k: Key, now: real, window: real) {
    History(EventsOf(history, k), now) && Covers(EventsOf(buckets, k), EventsOf(history, k), now - window)
  }

  lemma KeyOkLater(buckets: map<Key, seq<real>>, history: map<Key, seq<real>>, k: Key, now: real, time: real, window: real)
    requires KeyOk(buckets, history, k, now, window) && now <= time
    ensures KeyOk(buckets, history, k, time, window)
    ensures Covers(Pruned(EventsOf(buckets, k), time - window), EventsOf(history, k), time - window)
    ensures |Pruned(EventsOf(buckets, k), time - window)| == CountAfter(EventsOf(history, k), time - window)
  {
    CoversLater(EventsOf(buckets, k), EventsOf(history, k), now - window, time - window);
    PrunedIsWindow(EventsOf(buckets, k), EventsOf(history, k), time - window);
  }

  lemma HitKeepsKey(buckets: map<Key, seq<real>>, history: map<Key, seq<real>>, k: Key, now: real, time: real, window: real, j: Key)
    requires now <= time && KeyOk(buckets, history, k, now, window) && KeyOk(buckets, history, j, now, window)
    ensures KeyOk(buckets[k := Pruned(EventsOf(buckets, k), time - window) + [time]], history[k := EventsOf(history, k) + [time]], j, time, window)
  {
    hide Covers, History, Pruned, CountAfter;
    KeyOkLater(buckets, history, j, now, time, window);
    if j == k {
      var hits := EventsOf(history, k);
      CoversAppend(Pruned(EventsOf(buckets, k), time - window), hits, time - window, time);
      HistoryAppend(hits, now, time);
    }
  }

  /** A bucket may be pruned, or dropped if nothing is left of it. */
  lemma PruneKeepsKey(buckets: map<Key, seq<real>>, buckets': map<Key, seq<real>>, history: map<Key, seq<real>>, k: Key, time: real, window: real, j: Key)
    requires KeyOk(buckets, history, k, time, window) && KeyOk(buckets, history, j, time, window)
    requires EventsOf(buckets', k) == Pruned(EventsOf(buckets, k), time - window)
    requires j != k ==> EventsOf(buckets', j) == EventsOf(buckets, j)
    ensures KeyOk(buckets', history, j, time, window)
  {
    KeyOkLater(buckets, history, k, time, time, window);
  }

  ghost predicate AllOk(buckets: map<Key, seq<real>>, history: map<Key, seq<real>>, now: real, window: real) {
    forall k :: KeyOk(buckets, history, k, now, window)
  }

  lemma AllOkLater(buckets: map<Key, seq<real>>, history: map<Key, seq<real>>, now: real, time: real, window: real)
    requires AllOk(buckets, history, now, window) && now <= time
    ensures AllOk(buckets, history, time, window)
  {
    hide KeyOk;
    forall k ensures KeyOk(buckets, history, k, time, window) {
      KeyOkLater(buckets, history, k, now, time, window);
    }
  }

  /** A hit prunes its bucket and adds to it, and to the history. */
  lemma HitKeepsAll(buckets: map<Key, seq<real>>, history: map<Key, seq<real>>, k: Key, now: real, time: real, window: real, bucket: seq<real>, hits: seq<real>)
    requires AllOk(buckets, history, now, window) && now <= time
    requires bucket == Pruned(EventsOf(buckets, k), time - window) + [time] && hits == EventsOf(history, k) + [time]
    ensures AllOk(buckets[k := bucket], history[k := hits], time, window)
    ensures |bucket| == CountAfter(EventsOf(history, k), time - window) + 1
  {
    hide KeyOk, Pruned, CountAfter;
    var buckets', history' := buckets[k := bucket], history[k := hits];
    KeyOkLater(buckets, history, k, now, time, window);
    forall j ensures KeyOk(buckets', history', j, time, window) {
      HitKeepsKey(buckets, history, k, now, time, window, j);
    }
  }

  lemma PruneKeepsAll(buckets: map<Key, seq<real>>, buckets': map<Key, seq<real>>, history: map<Key, seq<real>>, k: Key, time: real, window: real)
    requires AllOk(buckets, history, time, window) && EventsOf(buckets', k) == Pruned(EventsOf(buckets, k), time - window)
    requires forall j :: j != k ==> EventsOf(buckets', j) == EventsOf(buckets, j)
    ensures AllOk(buckets', history, time, window)
    ensures |Pruned(EventsOf(buckets, k), time - window)| == CountAfter(EventsOf(history, k), time - window)
  {
    hide KeyOk, Pruned, CountAfter;
    KeyOkLater(buckets, history, k, time, time, window);
    forall j ensures KeyOk(buckets', history, j, time, window) {
      PruneKeepsKey(buckets, buckets', history, k, time, window, j);
    }
  }

  class SlidingWindowCounter {
    const window: real
    var buckets: map<Key, seq<real>>
    /** Every hit of every key, and the clock at the last call. */
    ghost var history: map<Key, seq<real>>
    ghost var now: real

    ghost predicate Valid()
      reads this
    {
      AllOk(buckets, history, now, window)
    }

    constructor (window: real, ghost start: real)
      ensures Valid() && this.window == window && history == map[] && now == start
    {
      this.window := window;
      buckets, history, now := map[], map[], start;
    }

    /** The result counts the hits of the whole history that are later than time - window,
        and this one. */
    method Hit(k: Key, time: real) returns (count: nat)
      requires Valid() && now <= time
      modifies this
      ensures Valid() && now == time
      ensures history == old(history)[k := old(EventsOf(history, k)) + [time]]
      ensures count == CountAfter(old(EventsOf(history, k)), time - window) + 1
      ensures window > 0.0 ==> count == CountAfter(EventsOf(history, k), time - window)
    {
      hide AllOk, Pruned, CountAfter;
      ghost var hits := EventsOf(history, k);
      CountAppend(hits, time, time - window);
      var bucket := PopExpired(EventsOf(buckets, k), time - window);
      bucket := bucket + [time];
      count := |bucket|;
      HitKeepsAll(buckets, history, k, now, time, window, bucket, hits + [time]);
      buckets, history, now := buckets[k := bucket], history[k := hits + [time]], time;
    }

    method Count(k: Key, time: real) returns (count: nat)
      requires Valid() && now <= time
      modifies this
      ensures Valid() && now == time && history == old(history)
      ensures count == CountAfter(EventsOf(history, k), time - window)
    {
      hide AllOk, Pruned, CountAfter;
      AllOkLater(buckets, history, now, time, window);
      now := time;
      if k !in buckets {
        NothingKept(buckets, history, k, time, window);
        return 0;
      }
      var bucket := PopExpired(buckets[k], time - window);
      PruneKeepsAll(buckets, buckets[k := bucket], history, k, time, window);
      buckets := buckets[k := bucket];
      count := |bucket|;
    }

    /** Prunes every bucket and drops those left empty; no hit that can still count is lost. */
    method Cleanup(time: real)
      requires Valid() && now <= time
      modifies this
      ensures Valid() && now == time && history == old(history)
      ensures forall k :: k in buckets <==> k in old(buckets) && CountAfter(EventsOf(history, k), time - window) > 0
    {
      hide AllOk, Pruned, CountAfter;
      AllOkLater(buckets, history, now, time, window);
      now := time;
      var keys := buckets.Keys;
      while keys != {}
        invariant keys <= old(buckets.Keys)
        invariant Valid() && now == time && history == old(history)
        invariant forall k :: k in buckets <==> k in keys || (k in old(buckets) && CountAfter(EventsOf(history, k), time - window) > 0)
        decreases |keys|
      {
        var k :| k in keys;
        keys := keys - {k};
        var bucket := PopExpired(buckets[k], time - window);
        var after := if bucket == [] then buckets - {k} else buckets[k := bucket];
        PruneKeepsAll(buckets, after, history, k, time, window);
        buckets := after;
      }
    }
  }

  lemma NothingKept(buckets: map<Key, seq<real>>, history: map<Key, seq<real>>, k: Key, time: real, window: real)
    requires AllOk(buckets, history, time, window) && k !in buckets
    ensures CountAfter(EventsOf(history, k), time - window) == 0
  {
    assert KeyOk(buckets, history, k, time, window);
    hide KeyOk, CountAfter;
    KeyOkLater(buckets, history, k, time, time, window);
  }

  // ---- admission ------------------------------------------------------------------------------

  function BurstLimit(baseLimit: int, multiplier: real): int {
    Truncated(baseLimit as real * multiplier)
  }

  /** Whether the i-th hit of a key is let through: its count, itself included, is within the
      limit. Hits that are turned away count as well. */
  predicate Admitted(hits: seq<real>, i: nat, window: real, limit: int)
    requires i < |hits|
  {
    CountAfter(hits[..i], hits[i] - window) + 1 <= limit
  }

  /** Cutting off the fraction does not matter to a whole, positive count. */
  lemma WithinBurst(n: nat, baseLimit: int, multiplier: real)
    requires n >= 1
    ensures n <= BurstLimit(baseLimit, multiplier) <==> n as real <= baseLimit as real * multiplier
  {
    var x := baseLimit as real * multiplier;
    assert x.Floor as real <= x < x.Floor as real + 1.0;
  }

  /** The admission decision of `dispatch` for one key: the hits in the window, this one included,
      are at most the base limit times the burst multiplier. Base limit 0 is no limit, and such a
      request is not counted. */
  method Dispatch(counter: SlidingWindowCounter, k: Key, baseLimit: int, multiplier: real, time: real) returns (admitted: bool)
    requires counter.Valid() && counter.now <= time
    modifies counter
    ensures counter.Valid()
    ensures baseLimit == 0 ==> admitted && counter.history == old(counter.history)
    ensures baseLimit != 0 ==>
      var hits := EventsOf(counter.history, k);
      && hits == old(EventsOf(counter.history, k)) + [time]
      && admitted == Admitted(hits, |hits| - 1, counter.window, BurstLimit(baseLimit, multiplier))
      && (admitted <==> (CountAfter(old(EventsOf(counter.history, k)), time - counter.window) + 1) as real <= baseLimit as real * multiplier)
  {
    if baseLimit == 0 {
      return true;
    }
    ghost var before := EventsOf(counter.history, k);
    var count := counter.Hit(k, time);
    admitted := count <= BurstLimit(baseLimit, multiplier);
    assert (before + [time])[..|before|] == before;
    WithinBurst(CountAfter(before, time - counter.window) + 1, baseLimit, multiplier);
    hide BurstLimit;
  }

  /** The hits that were let through, in order. */
  function AdmittedOf(hits: seq<real>, n: nat, window: real, limit: int): seq<real>
    requires n <= |hits|
  {
    if n == 0 then []
    else AdmittedOf(hits, n - 1, window, limit) + (if Admitted(hits, n - 1, window, limit) then [hits[n - 1]] else [])
  }

  lemma {:induction false} FewerAdmitted(hits: seq<real>, n: nat, window: real, limit: int, cutoff: real)
    requires n <= |hits|
    ensures CountAfter(AdmittedOf(hits, n, window, limit), cutoff) <= CountAfter(hits[..n], cutoff)
  {
    if n > 0 {
      FewerAdmitted(hits, n - 1, window, limit, cutoff);
      var init := AdmittedOf(hits, n - 1, window, limit);
      assert hits[..n] == hits[..n - 1] + [hits[n - 1]];
      CountAppend(hits[..n - 1], hits[n - 1], cutoff);
      CountAppend(init, hits[n - 1], cutoff);
      assert init + [] == init;
    }
  }

  lemma {:induction false} AdmittedWithin(hits: seq<real>, n: nat, window: real, limit: int, i: nat)
    requires n <= |hits| && i < |AdmittedOf(hits, n, window, limit)|
    ensures BelowAt(AdmittedOf(hits, n, window, limit), i, window, limit)
  {
    var a, init := AdmittedOf(hits, n, window, limit), AdmittedOf(hits, n - 1, window, limit);
    if i < |init| {
      AdmittedWithin(hits, n - 1, window, limit, i);
      assert a[..i] == init[..i];
    } else {
      FewerAdmitted(hits, n - 1, window, limit, hits[n - 1] - window);
      assert a[..i] == init;
    }
  }

  /** The hits let through later than lo and up to hi, by their places. */
  function AdmittedIn(hits: seq<real>, n: nat, window: real, limit: int, lo: real, hi: real): set<nat>
    requires n <= |hits|
  {
    set i: nat | i < n && Admitted(hits, i, window, limit) && lo < hits[i] && hits[i] <= hi
  }

  lemma {:induction false} AdmittedCount(hits: seq<real>, n: nat, window: real, limit: int, lo: real, hi: real)
    requires n <= |hits|
    ensures |AdmittedIn(hits, n, window, limit, lo, hi)| == CountBetween(AdmittedOf(hits, n, window, limit), lo, hi)
  {
    if n > 0 {
      AdmittedCount(hits, n - 1, window, limit, lo, hi);
      var init, t := AdmittedOf(hits, n - 1, window, limit), hits[n - 1];
      var more := Admitted(hits, n - 1, window, limit) && lo < t <= hi;
      assert AdmittedIn(hits, n, window, limit, lo, hi) == AdmittedIn(hits, n - 1, window, limit, lo, hi) + (if more then {n - 1} else {});
      hide Admitted;
      assert (init + [t])[..|init|] == init && init + [] == init;
    }
  }

  /** However the hits of a key fall, no interval of the window's length holds more admitted
      ones than the burst limit. */
  lemma AtMostBurst(hits: seq<real>, window: real, limit: int, lo: real)
    ensures |AdmittedIn(hits, |hits|, window, limit, lo, lo + window)| <= if limit > 0 then limit else 0
  {
    AdmittedCount(hits, |hits|, window, limit, lo, lo + window);
    hide AdmittedIn;
    var a := AdmittedOf(hits, |hits|, window, limit);
    forall i | 0 <= i < |a| ensures BelowAt(a, i, window, limit) {
      AdmittedWithin(hits, |hits|, window, limit, i);
    }
    NoWindowExceeds(a, window, limit, lo);
  }
}

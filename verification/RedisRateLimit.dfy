/** The sliding window kept in a Redis sorted set, with an expiry on the key. It counts what
    the in-process window counts. */
module RedisRateLimit {
  import opened SlidingWindow
  import opened RateLimit

  /** A member has a unique name and a score, its time. */
  datatype Member = Member(id: string, time: real)

  datatype SortedSet = SortedSet(members: map<string, real>, expireAt: real)

  function Times(hits: seq<Member>): seq<real> {
    if hits == [] then [] else Times(hits[..|hits| - 1]) + [hits[|hits| - 1].time]
  }

  predicate Unused(hits: seq<Member>, id: string) {
    forall h :: h in hits ==> h.id != id
  }

  predicate Distinct(hits: seq<Member>) {
    hits == [] || (Unused(hits[..|hits| - 1], hits[|hits| - 1].id) && Distinct(hits[..|hits| - 1]))
  }

  /** The hits later than cutoff, as the members of a sorted set. */
  function Scores(hits: seq<Member>, cutoff: real): map<string, real> {
    if hits == [] then map[]
    else
      var last := hits[|hits| - 1];
      var m := Scores(hits[..|hits| - 1], cutoff);
      if last.time > cutoff then m[last.id := last.time] else m
  }

  lemma {:induction false} UnusedNotIn(hits: seq<Member>, id: string, cutoff: real)
    requires Unused(hits, id)
    ensures id !in Scores(hits, cutoff)
  {
    if hits != [] {
      var init, last := hits[..|hits| - 1], hits[|hits| - 1];
      assert last in hits;
      UnusedNotIn(init, id, cutoff);
    }
  }

  lemma {:induction false} ScoresCount(hits: seq<Member>, cutoff: real)
    requires Distinct(hits)
    ensures |Scores(hits, cutoff)| == CountAfter(Times(hits), cutoff)
  {
    if hits != [] {
      var init, last := hits[..|hits| - 1], hits[|hits| - 1];
      ScoresCount(init, cutoff);
      UnusedNotIn(init, last.id, cutoff);
      CountAppend(Times(init), last.time, cutoff);
    }
  }

  /** ZREMRANGEBYSCORE from minus infinity to cutoff. */
  function RemoveUpTo(m: map<string, real>, cutoff: real): map<string, real> {
    map k | k in m && m[k] > cutoff :: m[k]
  }

  lemma RemoveTwice(m: map<string, real>, c: real, d: real)
    requires c <= d
    ensures RemoveUpTo(RemoveUpTo(m, c), d) == RemoveUpTo(m, d)
  {
  }

  lemma RemoveAdded(m: map<string, real>, id: string, time: real, cutoff: real)
    requires id !in m
    ensures RemoveUpTo(m[id := time], cutoff) == if time > cutoff then RemoveUpTo(m, cutoff)[id := time] else RemoveUpTo(m, cutoff)
  {
  }

  lemma {:induction false} RemoveFromScores(hits: seq<Member>, c: real, d: real)
    requires Distinct(hits) && c <= d
    ensures RemoveUpTo(Scores(hits, c), d) == Scores(hits, d)
  {
    if hits != [] {
      var init, last := hits[..|hits| - 1], hits[|hits| - 1];
      RemoveFromScores(init, c, d);
      UnusedNotIn(init, last.id, c);
      RemoveAdded(Scores(init, c), last.id, last.time, d);
    }
  }

  lemma {:induction false} NoScores(hits: seq<Member>, cutoff: real)
    requires forall h :: h in hits ==> h.time <= cutoff
    ensures Scores(hits, cutoff) == map[]
  {
    if hits != [] { NoScores(hits[..|hits| - 1], cutoff); }
  }

  function HitsOf(history: map<Key, seq<Member>>, k: Key): seq<Member> {
    if k in history then history[k] else []
  }

  /** What Redis still has of k at `time`: nothing from its expiry on. */
  function StoredAt(keys: map<Key, SortedSet>, k: Key, time: real): map<string, real> {
    if k in keys && time < keys[k].expireAt then keys[k].members else map[]
  }

  /** EXPIRE int(window) + 2. */
  function Lifetime(window: real): real {
    (Truncated(window) + 2) as real
  }

  /** The whole seconds of the window and two more. */
  lemma LifetimeIs(window: real)
    requires window >= 0.0
    ensures Lifetime(window) == Lifetime(window).Floor as real && window + 1.0 < Lifetime(window) <= window + 2.0
  {
  }

  /** Removing by score gives exactly the hits in the window, and no hit outlives the key. */
  ghost predicate KeyHolds(keys: map<Key, SortedSet>, history: map<Key, seq<Member>>, k: Key, now: real, window: real) {
    var hits := HitsOf(history, k);
    && Distinct(hits)
    && RemoveUpTo(if k in keys then keys[k].members else map[], now - window) == Scores(hits, now - window)
    && (k in keys ==> forall h :: h in hits ==> h.time + Lifetime(window) <= keys[k].expireAt)
  }

  lemma StoredWindow(keys: map<Key, SortedSet>, history: map<Key, seq<Member>>, k: Key, now: real, time: real, window: real)
    requires KeyHolds(keys, history, k, now, window) && now <= time
    ensures RemoveUpTo(StoredAt(keys, k, time), time - window) == Scores(HitsOf(history, k), time - window)
    ensures KeyHolds(keys, history, k, time, window)
    ensures k in keys && keys[k].expireAt <= time ==> KeyHolds(keys - {k}, history, k, time, window)
  {
    var hits := HitsOf(history, k);
    var m: map<string, real> := if k in keys then keys[k].members else map[];
    RemoveTwice(m, now - window, time - window);
    RemoveFromScores(hits, now - window, time - window);
    if k in keys && keys[k].expireAt <= time {
      NoScores(hits, time - window);
    }
  }

  lemma Appended(hits: seq<Member>, h: Member, cutoff: real)
    requires Distinct(hits) && Unused(hits, h.id)
    ensures Distinct(hits + [h])
    ensures Scores(hits + [h], cutoff) == if h.time > cutoff then Scores(hits, cutoff)[h.id := h.time] else Scores(hits, cutoff)
  {
    assert (hits + [h])[..|hits|] == hits;
  }

  predicate AllPast(hits: seq<Member>, now: real) {
    forall h :: h in hits ==> h.time <= now
  }

  lemma HitHolds(keys: map<Key, SortedSet>, history: map<Key, seq<Member>>, k: Key, id: string, time: real, window: real)
    requires KeyHolds(keys, history, k, time, window) && Unused(HitsOf(history, k), id) && AllPast(HitsOf(history, k), time)
    ensures var kept := RemoveUpTo(StoredAt(keys, k, time), time - window);
      && |kept[id := time]| == CountAfter(Times(HitsOf(history, k)), time - window) + 1
      && KeyHolds(keys[k := SortedSet(kept[id := time], time + Lifetime(window))], history[k := HitsOf(history, k) + [Member(id, time)]], k, time, window)
  {
    hide Scores, Distinct, CountAfter, Times, Unused, Lifetime, RemoveUpTo;
    var hits := HitsOf(history, k);
    StoredWindow(keys, history, k, time, time, window);
    var kept := RemoveUpTo(StoredAt(keys, k, time), time - window);
    UnusedNotIn(hits, id, time - window);
    ScoresCount(hits, time - window);
    Appended(hits, Member(id, time), time - window);
    RemoveAdded(kept, id, time, time - window);
    RemoveTwice(StoredAt(keys, k, time), time - window, time - window);
  }

  lemma OtherKey(keys: map<Key, SortedSet>, history: map<Key, seq<Member>>, keys': map<Key, SortedSet>, history': map<Key, seq<Member>>, j: Key, time: real, window: real)
    requires KeyHolds(keys, history, j, time, window) && HitsOf(history, j) == HitsOf(history', j)
    requires j in keys <==> j in keys'
    requires j in keys ==> keys[j] == keys'[j]
    ensures KeyHolds(keys', history', j, time, window)
  {
  }

  /** What a count leaves: a sorted set without members does not exist. */
  function Swept(keys: map<Key, SortedSet>, k: Key, time: real, window: real): map<Key, SortedSet> {
    var kept := RemoveUpTo(StoredAt(keys, k, time), time - window);
    if kept == map[] || k !in keys then keys - {k} else keys[k := SortedSet(kept, keys[k].expireAt)]
  }

  lemma CountHolds(keys: map<Key, SortedSet>, history: map<Key, seq<Member>>, k: Key, time: real, window: real)
    requires KeyHolds(keys, history, k, time, window)
    ensures var kept := RemoveUpTo(StoredAt(keys, k, time), time - window);
      |kept| == CountAfter(Times(HitsOf(history, k)), time - window) && (kept != map[] ==> k in keys)
  {
    hide Scores, CountAfter, Times, Lifetime;
    StoredWindow(keys, history, k, time, time, window);
    ScoresCount(HitsOf(history, k), time - window);
  }

  lemma SweptHolds(keys: map<Key, SortedSet>, history: map<Key, seq<Member>>, k: Key, time: real, window: real, j: Key)
    requires KeyHolds(keys, history, k, time, window) && KeyHolds(keys, history, j, time, window)
    ensures KeyHolds(Swept(keys, k, time, window), history, j, time, window)
  {
    hide Scores, CountAfter, Times, Distinct, Lifetime;
    StoredWindow(keys, history, k, time, time, window);
    RemoveTwice(StoredAt(keys, k, time), time - window, time - window);
  }

  /** Shared by all replicas; each call is one transaction, at one time of one clock. */
  class RedisBackend {
    const window: real
    var keys: map<Key, SortedSet>
    ghost var history: map<Key, seq<Member>>
    ghost var now: real

    ghost predicate Valid()
      reads this
    {
      && (forall k :: KeyHolds(keys, history, k, now, window))
      && (forall k :: AllPast(HitsOf(history, k), now))
    }

    constructor (window: real, ghost start: real)
      ensures Valid() && this.window == window && history == map[] && now == start
    {
      this.window := window;
      keys, history, now := map[], map[], start;
    }

    ghost method Advance(time: real)
      requires Valid() && now <= time
      modifies this`now
      ensures Valid() && now == time
    {
      forall k ensures KeyHolds(keys, history, k, time, window) && AllPast(HitsOf(history, k), time) {
        hide KeyHolds;
        StoredWindow(keys, history, k, now, time, window);
        assert AllPast(HitsOf(history, k), now);
      }
      hide KeyHolds, AllPast;
      now := time;
    }

    /** The same count as the in-process window over the same hits. No member name repeats. */
    method Hit(k: Key, time: real, id: string) returns (count: nat)
      requires Valid() && now <= time && Unused(HitsOf(history, k), id)
      modifies this
      ensures Valid() && now == time
      ensures history == old(history)[k := old(HitsOf(history, k)) + [Member(id, time)]]
      ensures count == CountAfter(Times(old(HitsOf(history, k))), time - window) + 1
      ensures k in keys && keys[k].expireAt == time + Lifetime(window)
    {
      hide KeyHolds, CountAfter, Times, RemoveUpTo, Unused, Lifetime;
      Advance(time);
      HitHolds(keys, history, k, id, time, window);
      var kept := RemoveUpTo(StoredAt(keys, k, time), time - window);
      var members := kept[id := time];
      count := |members|;
      ghost var before, hits := keys, history;
      keys := keys[k := SortedSet(members, time + Lifetime(window))];
      history := history[k := HitsOf(history, k) + [Member(id, time)]];
      forall j ensures KeyHolds(keys, history, j, time, window) && AllPast(HitsOf(history, j), time) {
        assert AllPast(HitsOf(hits, j), time);
        if j != k { OtherKey(before, hits, keys, history, j, time, window); }
      }
    }

    method Count(k: Key, time: real) returns (count: nat)
      requires Valid() && now <= time
      modifies this
      ensures Valid() && now == time && history == old(history)
      ensures count == CountAfter(Times(HitsOf(history, k)), time - window)
    {
      hide KeyHolds, CountAfter, Times, AllPast, RemoveUpTo, StoredAt;
      Advance(time);
      CountHolds(keys, history, k, time, window);
      ghost var before := keys;
      var kept := RemoveUpTo(StoredAt(keys, k, time), time - window);
      count := |kept|;
      keys := if kept == map[] then keys - {k} else keys[k := SortedSet(kept, keys[k].expireAt)];
      assert keys == Swept(before, k, time, window);
      forall j ensures KeyHolds(keys, history, j, time, window) {
        SweptHolds(before, history, k, time, window, j);
      }
    }

    /** Redis may delete a key any time from its expiry on. */
    method Expire(k: Key, time: real)
      requires Valid() && now <= time && k in keys && keys[k].expireAt <= time
      modifies this
      ensures Valid() && now == time && history == old(history) && keys == old(keys) - {k}
    {
      hide KeyHolds, RemoveUpTo, AllPast;
      Advance(time);
      ghost var before := keys;
      StoredWindow(keys, history, k, time, time, window);
      keys := keys - {k};
      forall j ensures KeyHolds(keys, history, j, time, window) {
        if j != k { OtherKey(before, history, keys, history, j, time, window); }
      }
    }
  }

  /** The two backends have seen the same hits. */
  ghost predicate Agree(inProcess: map<Key, seq<real>>, inRedis: map<Key, seq<Member>>) {
    forall k :: EventsOf(inProcess, k) == Times(HitsOf(inRedis, k))
  }

  /** Fed the same hits, the two backends return the same counts for ever, whatever clean-ups
      and expiries come in between. */
  method HitBoth(counter: SlidingWindowCounter, backend: RedisBackend, k: Key, time: real, id: string) returns (a: nat, b: nat)
    requires counter.Valid() && backend.Valid() && counter.window == backend.window
    requires counter.now <= time && backend.now <= time && Unused(HitsOf(backend.history, k), id)
    requires Agree(counter.history, backend.history)
    modifies counter, backend
    ensures counter.Valid() && backend.Valid()
    ensures a == b && Agree(counter.history, backend.history)
  {
    ghost var hits, members := counter.history, backend.history;
    assert EventsOf(hits, k) == Times(HitsOf(members, k));
    a := counter.Hit(k, time);
    b := backend.Hit(k, time, id);
    ghost var before := HitsOf(members, k);
    assert (before + [Member(id, time)])[..|before|] == before;
    forall j ensures EventsOf(counter.history, j) == Times(HitsOf(backend.history, j)) {
      assert EventsOf(hits, j) == Times(HitsOf(members, j));
    }
  }
}

/** The in-process response cache: entries with a time to live, lazy expiry, eviction of the
    oldest, and hit statistics. */
module ResponseCache {
  import opened Options

  type Key = string

  datatype Entry<V> = Entry(value: V, expiresAt: int, requestType: string, createdAt: int)

  type Store<V> = map<Key, Entry<V>>

  const FALLBACK_TTL: int := 900
  const DEFAULT_TTL: map<string, int> :=
    map["semantic_classify" := 3600, "predict_cost" := 900, "risk_score" := 3600, "optimize_sql" := 1800]

  /** Hours and parts of an hour, in seconds. */
  lemma TtlsByType()
    ensures DEFAULT_TTL.Keys == {"semantic_classify", "predict_cost", "risk_score", "optimize_sql"}
    ensures DEFAULT_TTL["semantic_classify"] == DEFAULT_TTL["risk_score"] == 60 * 60
    ensures DEFAULT_TTL["optimize_sql"] == 30 * 60 && DEFAULT_TTL["predict_cost"] == FALLBACK_TTL == 15 * 60
  {
  }

  function Max(x: int, y: int): int {
    if x > y then x else y
  }

  predicate Expired<V>(e: Entry<V>, now: int) {
    now > e.expiresAt
  }

  function Unexpired<V>(s: Store<V>, now: int): Store<V> {
    map k | k in s && !Expired(s[k], now) :: s[k]
  }

  function OfOtherTypes<V>(s: Store<V>, requestType: string): Store<V> {
    map k | k in s && s[k].requestType != requestType :: s[k]
  }

  predicate Submap<V(==)>(s: Store<V>, t: Store<V>) {
    forall k :: k in s ==> k in t && s[k] == t[k]
  }

  lemma {:induction false} SubsetSize<T>(a: set<T>, b: set<T>)
    requires a <= b
    ensures |a| <= |b| && (|a| == |b| ==> a == b)
  {
    if a != {} {
      var x :| x in a;
      SubsetSize(a - {x}, b - {x});
      assert a == (a - {x}) + {x} && b == (b - {x}) + {x};
    } else if b != {} {
      assert |b| > 0;
    }
  }

  // ---- eviction --------------------------------------------------------------------------------------

  type Ages = map<Key, int>

  function AgesOf<V>(s: Store<V>): Ages {
    map k | k in s :: s[k].createdAt
  }

  /** keys[i..] are not older than keys[i]. */
  predicate OldestFirst(keys: seq<Key>, ages: Ages) {
    && (forall i :: 0 <= i < |keys| ==> keys[i] in ages)
    && (forall i, j :: 0 <= i < j < |keys| ==> ages[keys[i]] <= ages[keys[j]])
  }

  function KeySet(keys: seq<Key>): set<Key> {
    set k | k in keys
  }

  predicate NotYounger(k: Key, among: set<Key>, ages: Ages) {
    k in ages && forall j :: j in among && j in ages ==> ages[k] <= ages[j]
  }

  method OldestIn(ages: Ages, among: set<Key>) returns (oldest: Key)
    requires among != {} && among <= ages.Keys
    ensures oldest in among && NotYounger(oldest, among, ages)
  {
    oldest :| oldest in among;
    var rest := among - {oldest};
    while rest != {}
      invariant oldest in among && rest <= among && NotYounger(oldest, among - rest, ages)
      decreases |rest|
    {
      var k :| k in rest;
      rest := rest - {k};
      if ages[k] < ages[oldest] {
        oldest := k;
      }
    }
    assert among - rest == among;
  }

  /** keys are the oldest, in order; the rest are not older than any of them. */
  predicate TakenOldest(keys: seq<Key>, rest: set<Key>, ages: Ages) {
    && rest <= ages.Keys && OldestFirst(keys, ages)
    && KeySet(keys) == ages.Keys - rest && |keys| == |ages.Keys - rest|
    && forall i :: 0 <= i < |keys| ==> NotYounger(keys[i], rest, ages)
  }

  lemma TakeNext(keys: seq<Key>, rest: set<Key>, ages: Ages, k: Key)
    requires TakenOldest(keys, rest, ages) && k in rest && NotYounger(k, rest, ages)
    ensures TakenOldest(keys + [k], rest - {k}, ages)
  {
    NextInOrder(keys, rest, ages, k);
    hide OldestFirst;
    assert ages.Keys - (rest - {k}) == (ages.Keys - rest) + {k};
    assert KeySet(keys + [k]) == KeySet(keys) + {k};
    var more := keys + [k];
    forall i | 0 <= i < |more| ensures NotYounger(more[i], rest - {k}, ages) {
      if i < |keys| { assert more[i] == keys[i] && NotYounger(keys[i], rest, ages); }
    }
  }

  lemma NextInOrder(keys: seq<Key>, rest: set<Key>, ages: Ages, k: Key)
    requires OldestFirst(keys, ages) && k in rest && k in ages
    requires forall i :: 0 <= i < |keys| ==> NotYounger(keys[i], rest, ages)
    ensures OldestFirst(keys + [k], ages)
  {
    forall i | 0 <= i < |keys| ensures ages[keys[i]] <= ages[k] {
      assert NotYounger(keys[i], rest, ages);
    }
  }

  /** `sorted` by creation time; the order of entries created at the same time is left open. */
  method SortedKeys(ages: Ages) returns (keys: seq<Key>)
    ensures OldestFirst(keys, ages) && KeySet(keys) == ages.Keys && |keys| == |ages|
  {
    keys := [];
    var rest := ages.Keys;
    while rest != {}
      invariant TakenOldest(keys, rest, ages)
      decreases |rest|
    {
      var k := OldestIn(ages, rest);
      TakeNext(keys, rest, ages, k);
      hide TakenOldest;
      keys, rest := keys + [k], rest - {k};
    }
    assert ages.Keys - rest == ages.Keys;
  }

  /** No survivor is older than an entry that was evicted before its time. */
  predicate EvictsOldest<V(==)>(before: Store<V>, after: Store<V>, now: int) {
    && Submap(after, before)
    && (forall k :: k in after ==> !Expired(after[k], now))
    && (forall k, j :: k in before && k !in after && j in after ==>
          Expired(before[k], now) || before[k].createdAt <= after[j].createdAt)
  }

  /** How many entries go: all expired ones; if that makes no room, a tenth more, at least one. */
  predicate EvictsEnough<V(==)>(before: Store<V>, after: Store<V>, maxEntries: int, now: int) {
    var live := Unexpired(before, now);
    if |live| < maxEntries then after == live else |after| == Max(0, |live| - Max(1, maxEntries / 10))
  }

  /** First all expired entries; if that makes no room, the oldest tenth, at least one. */
  method EvictOldest<V(==)>(store: Store<V>, maxEntries: int, now: int) returns (r: Store<V>)
    ensures Submap(r, store) && EvictsOldest(store, r, now)
    ensures |store| <= Max(1, maxEntries) ==> |r| + 1 <= Max(1, maxEntries)
    ensures EvictsEnough(store, r, maxEntries, now)
    ensures var live := set k | k in store && !Expired(store[k], now);
      if |live| < maxEntries then r.Keys == live else |r| == Max(0, |live| - Max(1, maxEntries / 10))
  {
    assert Unexpired(store, now).Keys == set k | k in store && !Expired(store[k], now);
    r := Unexpired(store, now);
    SubsetSize(r.Keys, store.Keys);
    if |r| < maxEntries {
      return;
    }
    var count := Max(1, maxEntries / 10);
    ghost var all := r;
    var sorted := SortedKeys(AgesOf(r));
    assert |AgesOf(r)| == |r| by { assert AgesOf(r).Keys == r.Keys; }
    var n := if count < |sorted| then count else |sorted|;
    r := RemoveFirst(r, sorted, n);
    forall k, j | k in all && k !in r && j in r ensures all[k].createdAt <= all[j].createdAt {
      FirstAreOldest(AgesOf(all), sorted, n, k, j);
    }
    EvictedOldest(store, all, r, now);
  }

  lemma EvictedOldest<V>(store: Store<V>, all: Store<V>, r: Store<V>, now: int)
    requires all == Unexpired(store, now) && Submap(r, all)
    requires forall k, j :: k in all && k !in r && j in r ==> all[k].createdAt <= all[j].createdAt
    ensures EvictsOldest(store, r, now)
  {
  }

  /** Deletes the first n keys, one by one. */
  method RemoveFirst<V(==)>(s: Store<V>, sorted: seq<Key>, n: nat) returns (r: Store<V>)
    requires OldestFirst(sorted, AgesOf(s)) && KeySet(sorted) == s.Keys && |sorted| == |s| && n <= |sorted|
    ensures r == s - KeySet(sorted[..n]) && |r| == |s| - n
  {
    NoRepeats(sorted);
    AllInside(s, sorted);
    hide OldestFirst, AgesOf, AllDifferent, KeySet;
    WithoutSize(s, sorted, n);
    r := s;
    NoneRemoved(s, sorted);
    for i := 0 to n
      invariant r == Without(s, sorted, i)
    {
      hide Without;
      WithoutNext(s, sorted, i);
      r := r - {sorted[i]};
    }
  }

  lemma AllInside<V>(s: Store<V>, sorted: seq<Key>)
    requires KeySet(sorted) == s.Keys
    ensures forall k :: k in sorted ==> k in s
  {
    assert forall k :: k in sorted ==> k in KeySet(sorted);
  }

  lemma NoneRemoved<V>(s: Store<V>, sorted: seq<Key>)
    ensures Without(s, sorted, 0) == s
  {
    assert KeySet(sorted[..0]) == {};
  }

  predicate AllDifferent(keys: seq<Key>) {
    forall a, b :: 0 <= a < b < |keys| ==> keys[a] != keys[b]
  }

  lemma PrefixKeys(sorted: seq<Key>, i: nat)
    requires i < |sorted| && AllDifferent(sorted)
    ensures KeySet(sorted[..i + 1]) == KeySet(sorted[..i]) + {sorted[i]} && sorted[i] !in KeySet(sorted[..i])
  {
    assert sorted[..i + 1] == sorted[..i] + [sorted[i]];
  }

  /** s without the first n keys. */
  function Without<V>(s: Store<V>, sorted: seq<Key>, n: nat): Store<V>
    requires n <= |sorted|
  {
    s - KeySet(sorted[..n])
  }

  lemma WithoutNext<V>(s: Store<V>, sorted: seq<Key>, i: nat)
    requires i < |sorted| && AllDifferent(sorted) && sorted[i] in s
    ensures Without(s, sorted, i) - {sorted[i]} == Without(s, sorted, i + 1)
    ensures |Without(s, sorted, i + 1)| == |Without(s, sorted, i)| - 1
  {
    PrefixKeys(sorted, i);
    hide KeySet, AllDifferent;
    RemoveOne(s, KeySet(sorted[..i]), sorted[i]);
  }

  lemma {:induction false} WithoutSize<V>(s: Store<V>, sorted: seq<Key>, n: nat)
    requires n <= |sorted| && AllDifferent(sorted) && forall k :: k in sorted ==> k in s
    ensures |Without(s, sorted, n)| == |s| - n
  {
    hide AllDifferent;
    if n == 0 {
      assert KeySet(sorted[..0]) == {};
    } else {
      WithoutSize(s, sorted, n - 1);
      WithoutNext(s, sorted, n - 1);
    }
  }

  lemma RemoveOne<V>(s: Store<V>, done: set<Key>, k: Key)
    requires k in s && k !in done
    ensures (s - done) - {k} == s - (done + {k}) && |(s - done) - {k}| == |s - done| - 1
  {
    assert (s - done).Keys == ((s - done) - {k}).Keys + {k};
  }

  lemma InPrefix(keys: seq<Key>, b: nat, n: nat)
    requires b < |keys| && n <= |keys|
    ensures b < n ==> keys[b] in KeySet(keys[..n])
  {
    if b < n { assert keys[..n][b] == keys[b]; }
  }

  lemma FirstAreOldest(ages: Ages, sorted: seq<Key>, n: nat, k: Key, j: Key)
    requires OldestFirst(sorted, ages) && KeySet(sorted) == ages.Keys && n <= |sorted|
    requires k in KeySet(sorted[..n]) && j in ages && j !in KeySet(sorted[..n])
    ensures k in ages && ages[k] <= ages[j]
  {
    assert j in KeySet(sorted);
    var a :| 0 <= a < n && sorted[..n][a] == k;
    var b :| 0 <= b < |sorted| && sorted[b] == j;
    InPrefix(sorted, b, n);
  }

  /** As many elements as the sequence is long: none repeats. */
  lemma {:induction false} NoRepeats(keys: seq<Key>)
    requires |KeySet(keys)| == |keys|
    ensures AllDifferent(keys)
  {
    if keys != [] {
      var init, last := keys[..|keys| - 1], keys[|keys| - 1];
      assert KeySet(keys) == KeySet(init) + {last};
      KeySetSize(init);
      assert last !in KeySet(init);
      NoRepeats(init);
    }
  }

  lemma {:induction false} KeySetSize(keys: seq<Key>)
    ensures |KeySet(keys)| <= |keys|
  {
    if keys != [] {
      var init, last := keys[..|keys| - 1], keys[|keys| - 1];
      assert KeySet(keys) == KeySet(init) + {last};
      KeySetSize(init);
    }
  }

  // ---- the cache ---------------------------------------------------------------------------------------

  /** latest holds the last put of every key since it was last invalidated; what is in the
      store is that, and what is missing has been dropped. */
  predicate Backed<V(==)>(store: Store<V>, latest: Store<V>, dropped: set<Key>) {
    && (forall k :: k in store ==> k in latest && store[k] == latest[k] && k !in dropped)
    && (forall k :: k in latest ==> k in store || k in dropped)
  }

  lemma BackedWithout<V>(store: Store<V>, latest: Store<V>, dropped: set<Key>, key: Key)
    requires Backed(store, latest, dropped)
    ensures Backed(store - {key}, latest - {key}, dropped - {key})
  {
  }

  class ResponseCache<V(==)> {
    const ttls: map<string, int>
    const maxEntries: int
    const enabled: bool
    var store: Store<V>
    var hits: nat
    var misses: nat
    /** The last put of every key not invalidated since, the keys among them dropped by expiry
        or eviction, and the number of lookups since the last full invalidation. */
    ghost var latest: Store<V>
    ghost var dropped: set<Key>
    ghost var gets: nat

    ghost predicate Valid()
      reads this
    {
      && Backed(store, latest, dropped)
      && |store| <= Max(1, maxEntries)
      && hits + misses == gets
    }

    constructor (ttlOverrides: map<string, int>, maxEntries: int, enabled: bool)
      ensures Valid() && this.maxEntries == maxEntries && this.enabled == enabled && ttls == DEFAULT_TTL + ttlOverrides
      ensures latest == map[] && gets == 0
    {
      this.ttls, this.maxEntries, this.enabled := DEFAULT_TTL + ttlOverrides, maxEntries, enabled;
      store, hits, misses, latest, dropped, gets := map[], 0, 0, map[], {}, 0;
    }

    function Ttl(requestType: string): int {
      if requestType in ttls then ttls[requestType] else FALLBACK_TTL
    }

    /** A value comes back exactly when the key's last put has been neither invalidated nor
        dropped and has not expired; it is the value of that put. */
    method Get(key: Key, now: int) returns (r: Option<V>)
      requires Valid()
      modifies this
      ensures Valid() && latest == old(latest)
      ensures r == if enabled && key in latest && key !in old(dropped) && !Expired(latest[key], now) then Some(latest[key].value) else None
      ensures dropped == old(dropped) + (if enabled && key in latest && Expired(latest[key], now) then {key} else {})
      ensures gets == old(gets) + (if enabled then 1 else 0)
    {
      if !enabled {
        return None;
      }
      gets := gets + 1;
      if key !in store {
        misses := misses + 1;
        if key in latest && Expired(latest[key], now) {
          dropped := dropped + {key};
        }
        return None;
      }
      if now > store[key].expiresAt {
        SubsetSize((store - {key}).Keys, store.Keys);
        dropped := dropped + {key};
        store := store - {key};
        misses := misses + 1;
        return None;
      }
      hits := hits + 1;
      r := Some(store[key].value);
    }

    /** `now` and `evictAt` are the clock readings of the put and of an eviction. The key is
        stored, and only when it is new and the cache full is anything else lost. */
    method Put(key: Key, value: V, requestType: string, now: int, evictAt: int)
      requires Valid()
      modifies this
      ensures Valid() && gets == old(gets)
      ensures !enabled ==> store == old(store) && latest == old(latest) && dropped == old(dropped)
      ensures enabled ==>
        var e := Entry(value, now + Ttl(requestType), requestType, now);
        && latest == old(latest)[key := e] && key in store
        && e.expiresAt == now + (if requestType in ttls then ttls[requestType] else FALLBACK_TTL)
        && (if |old(store)| >= maxEntries && key !in old(store)
            then EvictsOldest(old(store), store - {key}, evictAt) && EvictsEnough(old(store), store - {key}, maxEntries, evictAt)
            else store == old(store)[key := e])
        && dropped == old(dropped) + (old(store).Keys - store.Keys) - {key}
    {
      if !enabled {
        return;
      }
      var e := Entry(value, now + Ttl(requestType), requestType, now);
      SubmapSelf(store);
      hide Backed, EvictsOldest, EvictsEnough, Submap;
      var kept := store;
      if |store| >= maxEntries && key !in store {
        kept := EvictOldest(store, maxEntries, evictAt);
      }
      PutBacked(store, latest, dropped, kept, key, e);
      latest := latest[key := e];
      dropped := dropped + (store.Keys - kept[key := e].Keys) - {key};
      store := kept[key := e];
    }

    method Invalidate(key: Key) returns (found: bool)
      requires Valid()
      modifies this
      ensures Valid() && gets == old(gets)
      ensures found == (key in old(store)) && store == old(store) - {key} && latest == old(latest) - {key}
    {
      found := key in store;
      SubsetSize((store - {key}).Keys, store.Keys);
      BackedWithout(store, latest, dropped, key);
      hide Backed, Max;
      store, latest, dropped := store - {key}, latest - {key}, dropped - {key};
    }

    method InvalidateByType(requestType: string) returns (count: nat)
      requires Valid()
      modifies this
      ensures Valid() && gets == old(gets)
      ensures store == OfOtherTypes(old(store), requestType) && latest == OfOtherTypes(old(latest), requestType)
      ensures forall k :: k in store <==> k in old(store) && old(store)[k].requestType != requestType
      ensures count == |old(store)| - |store|
    {
      var kept := OfOtherTypes(store, requestType);
      SubsetSize(kept.Keys, store.Keys);
      count := |store| - |kept|;
      store, latest := kept, OfOtherTypes(latest, requestType);
    }

    method InvalidateAll() returns (count: nat)
      requires Valid()
      modifies this
      ensures Valid() && gets == 0 && count == |old(store)| && store == map[] && latest == map[]
    {
      count := |store|;
      store, hits, misses := map[], 0, 0;
      latest, dropped, gets := map[], {}, 0;
    }
  }

  lemma SubmapSelf<V>(s: Store<V>)
    ensures Submap(s, s)
  {
  }

  lemma PutBacked<V>(before: Store<V>, latest: Store<V>, dropped: set<Key>, kept: Store<V>, key: Key, e: Entry<V>)
    requires Backed(before, latest, dropped) && Submap(kept, before) && (key in before ==> key in kept)
    ensures Backed(kept[key := e], latest[key := e], dropped + (before.Keys - kept[key := e].Keys) - {key})
    ensures |kept[key := e]| == |kept| + (if key in kept then 0 else 1)
    ensures key !in before ==> kept[key := e] - {key} == kept
  {
    Grown(kept, key, e);
  }

  lemma Grown<V>(s: Store<V>, key: Key, e: Entry<V>)
    ensures |s[key := e]| == |s| + (if key in s then 0 else 1)
  {
    assert s[key := e].Keys == s.Keys + {key};
  }
}

/** One replica's token revocation check: an in-process cache with a time to live over a
    shared store over the database, and the batch form of the same check. */
module Revocation {
  import opened Options

  type Jti = string

  /** A cached status and when it was stored. */
  datatype Stamp = Stamp(revoked: bool, at: real)

  type Entries = map<Jti, Stamp>

  predicate IsLive(s: Stamp, ttl: real, now: real) {
    now - s.at <= ttl
  }

  /** What a lookup at `now` or later can still see: the entries that have not expired. */
  function Live(cache: Entries, ttl: real, now: real): Entries {
    map j | j in cache && IsLive(cache[j], ttl, now) :: cache[j]
  }

  /** The time to live, the cap, and the clock. */
  datatype Setting = Setting(ttl: real, maxEntries: int, now: real)

  /** The dictionary after a lookup: an expired entry is dropped. */
  function AfterGet(cache: Entries, p: Setting, j: Jti): Entries {
    if j in cache && !IsLive(cache[j], p.ttl, p.now) then cache - {j} else cache
  }

  /** The dictionary after a store: at the cap the expired entries go first. */
  function AfterSet(cache: Entries, p: Setting, j: Jti, revoked: bool): Entries {
    (if |cache| >= p.maxEntries then Live(cache, p.ttl, p.now) else cache)[j := Stamp(revoked, p.now)]
  }

  lemma LiveAfterGet(cache: Entries, p: Setting, j: Jti)
    ensures Live(AfterGet(cache, p, j), p.ttl, p.now) == Live(cache, p.ttl, p.now)
    ensures j in AfterGet(cache, p, j) <==> j in Live(cache, p.ttl, p.now)
  {
  }

  lemma LiveAfterSet(cache: Entries, p: Setting, j: Jti, revoked: bool)
    requires p.ttl >= 0.0
    ensures Live(AfterSet(cache, p, j, revoked), p.ttl, p.now) == Live(cache, p.ttl, p.now)[j := Stamp(revoked, p.now)]
    ensures AfterGet(AfterSet(cache, p, j, revoked), p, j) == AfterSet(cache, p, j, revoked)
  {
  }

  function AfterGets(cache: Entries, p: Setting, js: seq<Jti>): Entries {
    if js == [] then cache else AfterGet(AfterGets(cache, p, js[..|js| - 1]), p, js[|js| - 1])
  }

  /** Stores for each of ks the verdict learned on it. */
  function AfterSets(cache: Entries, p: Setting, ks: seq<Jti>, learned: map<Jti, bool>): Entries {
    if ks == [] then cache
    else
      var k := ks[|ks| - 1];
      AfterSet(AfterSets(cache, p, ks[..|ks| - 1], learned), p, k, k in learned && learned[k])
  }

  lemma {:induction false} LiveAfterGets(cache: Entries, p: Setting, js: seq<Jti>)
    ensures Live(AfterGets(cache, p, js), p.ttl, p.now) == Live(cache, p.ttl, p.now)
  {
    if js != [] {
      LiveAfterGets(cache, p, js[..|js| - 1]);
      LiveAfterGet(AfterGets(cache, p, js[..|js| - 1]), p, js[|js| - 1]);
    }
  }

  lemma AfterGetsAppend(cache: Entries, p: Setting, js: seq<Jti>, j: Jti)
    ensures AfterGets(cache, p, js + [j]) == AfterGet(AfterGets(cache, p, js), p, j)
  {
    assert (js + [j])[..|js|] == js;
  }

  lemma AfterSetsAppend(cache: Entries, p: Setting, ks: seq<Jti>, k: Jti, learned: map<Jti, bool>)
    ensures AfterSets(cache, p, ks + [k], learned) == AfterSet(AfterSets(cache, p, ks, learned), p, k, k in learned && learned[k])
  {
    assert (ks + [k])[..|ks|] == ks;
  }

  lemma {:induction false} AfterSetsJoin(cache: Entries, p: Setting, ks: seq<Jti>, ls: seq<Jti>, learned: map<Jti, bool>)
    ensures AfterSets(AfterSets(cache, p, ks, learned), p, ls, learned) == AfterSets(cache, p, ks + ls, learned)
  {
    if ls == [] {
      assert ks + ls == ks;
    } else {
      AfterSetsJoin(cache, p, ks, ls[..|ls| - 1], learned);
      assert ks + ls == (ks + ls[..|ls| - 1]) + [ls[|ls| - 1]];
      AfterSetsAppend(cache, p, ks + ls[..|ls| - 1], ls[|ls| - 1], learned);
    }
  }

  function Stamped(learned: map<Jti, bool>, now: real): Entries {
    map j | j in learned :: Stamp(learned[j], now)
  }

  /** The live entries of the cache and those just stored. */
  lemma {:induction false} LiveAfterSets(cache: Entries, p: Setting, ks: seq<Jti>, learned: map<Jti, bool>)
    requires p.ttl >= 0.0 && forall k :: k in ks ==> k in learned
    ensures var live := Live(AfterSets(cache, p, ks, learned), p.ttl, p.now);
      && (forall j :: j in live <==> j in Live(cache, p.ttl, p.now) || j in ks)
      && (forall j :: j in live ==> live[j] == if j in ks then Stamp(learned[j], p.now) else cache[j])
  {
    if ks != [] {
      var init, k := ks[..|ks| - 1], ks[|ks| - 1];
      assert ks == init + [k];
      LiveAfterSets(cache, p, init, learned);
      LiveAfterSet(AfterSets(cache, p, init, learned), p, k, learned[k]);
    }
  }

  /** Stores add nothing but what is stored, and a lookup drops what has expired. */
  lemma {:induction false} AfterSetsMembers(cache: Entries, p: Setting, ks: seq<Jti>, learned: map<Jti, bool>, j: Jti)
    requires j in AfterSets(cache, p, ks, learned)
    ensures j in cache || j in ks
  {
    if ks != [] && j != ks[|ks| - 1] {
      AfterSetsMembers(cache, p, ks[..|ks| - 1], learned, j);
    }
  }

  lemma {:induction false} AfterGetsMembers(cache: Entries, p: Setting, js: seq<Jti>, j: Jti)
    requires j in AfterGets(cache, p, js)
    ensures j in cache && (j in js ==> IsLive(cache[j], p.ttl, p.now)) && AfterGets(cache, p, js)[j] == cache[j]
  {
    if js != [] {
      AfterGetsMembers(cache, p, js[..|js| - 1], j);
      assert js == js[..|js| - 1] + [js[|js| - 1]];
    }
  }

  class RevocationCache {
    var cache: Entries
    const ttl: real
    const maxEntries: int

    constructor (ttl: real, maxEntries: int)
      requires ttl >= 0.0
      ensures cache == map[] && this.ttl == ttl && this.maxEntries == maxEntries
    {
      this.cache, this.ttl, this.maxEntries := map[], ttl, maxEntries;
    }

    function At(now: real): Setting {
      Setting(ttl, maxEntries, now)
    }

    /** An expired entry is dropped and reported as missing; nothing live changes. */
    method Get(j: Jti, now: real) returns (r: Option<bool>)
      modifies this
      ensures r == var live := Live(old(cache), ttl, now); if j in live then Some(live[j].revoked) else None
      ensures cache == AfterGet(old(cache), At(now), j)
      ensures Live(cache, ttl, now) == Live(old(cache), ttl, now)
    {
      if j !in cache {
        return None;
      }
      if now - cache[j].at > ttl {
        cache := cache - {j};
        return None;
      }
      r := Some(cache[j].revoked);
    }

    /** At the cap the expired entries go first. The new entry is stored in any case, so the
        cap holds only as far as expired entries make room. */
    method Set(j: Jti, revoked: bool, now: real)
      requires ttl >= 0.0
      modifies this
      ensures cache == AfterSet(old(cache), At(now), j, revoked)
      ensures Live(cache, ttl, now) == Live(old(cache), ttl, now)[j := Stamp(revoked, now)]
      ensures |cache| <= maxEntries || |cache| <= |Live(old(cache), ttl, now)| + 1
    {
      if |cache| >= maxEntries {
        Cleanup(now);
      }
      SizeOfUpdate(cache, j, Stamp(revoked, now));
      cache := cache[j := Stamp(revoked, now)];
    }

    method Cleanup(now: real)
      modifies this
      ensures cache == Live(old(cache), ttl, now)
    {
      var stale := set k | k in cache && now - cache[k].at > ttl;
      cache := cache - stale;
    }

    /** One entry of the result for each distinct identifier asked for. */
    method GetBatch(js: seq<Jti>, now: real) returns (r: map<Jti, Option<bool>>)
      modifies this
      ensures cache == AfterGets(old(cache), At(now), js)
      ensures forall j :: j in r <==> j in js
      ensures forall j :: j in r ==> r[j] == var live := Live(old(cache), ttl, now); if j in live then Some(live[j].revoked) else None
    {
      r := map[];
      for i := 0 to |js|
        invariant cache == AfterGets(old(cache), At(now), js[..i])
        invariant forall j :: j in r <==> j in js[..i]
        invariant forall j :: j in r ==> r[j] == var live := Live(old(cache), ttl, now); if j in live then Some(live[j].revoked) else None
      {
        LiveAfterGets(old(cache), At(now), js[..i]);
        AfterGetsAppend(old(cache), At(now), js[..i], js[i]);
        assert js[..i + 1] == js[..i] + [js[i]];
        var status := Get(js[i], now);
        r := r[js[i] := status];
      }
      assert js[..|js|] == js;
    }
  }

  lemma SizeOfUpdate(m: Entries, j: Jti, s: Stamp)
    ensures |m[j := s]| == |m| + (if j in m then 0 else 1)
  {
    assert m[j := s].Keys == m.Keys + {j};
  }

  // ---- one check, on values --------------------------------------------------------------

  /** What the services do at this instant: whether the shared store is configured and can be
      reached, for which identifiers reading it alone, the database lookup and writing the
      store raise, whether reading it for all at once raises, whether closing a database
      session raises, and which tokens the database lists as revoked. */
  datatype Env = Env(
    redisConfigured: bool, redisUp: bool, getFails: set<Jti>, mgetFails: bool, lookupFails: set<Jti>, setFails: set<Jti>,
    closeFails: bool, revoked: set<Jti>)

  /** Live cache entries and the shared store. */
  datatype State = State(live: Entries, redis: map<Jti, string>)

  predicate RedisDown(env: Env) {
    env.redisConfigured && !env.redisUp
  }

  predicate CanPopulate(env: Env, j: Jti) {
    env.redisConfigured && env.redisUp && j !in env.setFails
  }

  /** The shared store answers a check of j alone, or a batch. */
  predicate ReadAlone(s: State, env: Env, j: Jti) {
    env.redisConfigured && j in s.redis && j !in env.getFails
  }

  predicate ReadTogether(s: State, env: Env, j: Jti) {
    env.redisConfigured && j in s.redis && !env.mgetFails
  }

  /** `repo.is_revoked`, or None for the exception. */
  function Looked(env: Env, j: Jti): Option<bool> {
    if j in env.lookupFails then None else Some(j in env.revoked)
  }

  /** What a check of j finds out when the cache does not know it; None fails closed. */
  function Alone(s: State, env: Env, j: Jti): Option<bool> {
    if RedisDown(env) then None
    else if ReadAlone(s, env, j) then Some(s.redis[j] == "1")
    else Looked(env, j)
  }

  /** Whether a check of j writes it to the shared store. */
  predicate WritesAlone(s: State, env: Env, j: Jti) {
    !RedisDown(env) && !ReadAlone(s, env, j) && Looked(env, j) == Some(true) && CanPopulate(env, j)
  }

  function Answer(s: State, env: Env, j: Jti): bool {
    if j in s.live then s.live[j].revoked
    else match Alone(s, env, j)
         case Some(v) => v
         case None => true
  }

  /** What the check stores. */
  function Found(s: State, env: Env, j: Jti): Option<bool> {
    if j in s.live then None else Alone(s, env, j)
  }

  function After(s: State, env: Env, now: real, j: Jti): State {
    match Found(s, env, j)
    case None => s
    case Some(v) => State(s.live[j := Stamp(v, now)], if WritesAlone(s, env, j) then s.redis[j := "1"] else s.redis)
  }

  /** The single check, called on one identifier after the other. */
  function Sequential(s: State, env: Env, now: real, js: seq<Jti>): (map<Jti, bool>, State) {
    if js == [] then (map[], s)
    else
      var j := js[|js| - 1];
      var (r, s') := Sequential(s, env, now, js[..|js| - 1]);
      (r[j := Answer(s', env, j)], After(s', env, now, j))
  }

  // ---- identifiers do not interfere ------------------------------------------------------------

  function LearnedAlone(s: State, env: Env, js: seq<Jti>): map<Jti, bool> {
    map j | j in js && Found(s, env, j).Some? :: Found(s, env, j).value
  }

  function WrittenAlone(s: State, env: Env, js: seq<Jti>): map<Jti, string> {
    map j | j in js && j !in s.live && WritesAlone(s, env, j) :: "1"
  }

  /** The answers when the cache knows what is live and the rest is as learned, or rejected. */
  function AnswersWith(s: State, js: seq<Jti>, learned: map<Jti, bool>): map<Jti, bool> {
    map j | j in js :: if j in s.live then s.live[j].revoked else if j in learned then learned[j] else true
  }

  function StateAlone(s: State, env: Env, now: real, js: seq<Jti>): State {
    State(s.live + Stamped(LearnedAlone(s, env, js), now), s.redis + WrittenAlone(s, env, js))
  }

  /** A check changes nothing that another identifier's check sees, and is not repeated. */
  lemma FoundLater(s: State, env: Env, now: real, init: seq<Jti>, j: Jti)
    ensures var s' := StateAlone(s, env, now, init);
      && Found(s', env, j) == (if j in init then None else Found(s, env, j))
      && Answer(s', env, j) == Answer(s, env, j)
      && (j !in init ==> WritesAlone(s', env, j) == WritesAlone(s, env, j))
  {
  }

  lemma PutLast<V>(a: map<Jti, V>, l: map<Jti, V>, x: Jti, v: V)
    ensures a + l[x := v] == (a + l)[x := v]
  {
  }

  lemma LearnedMore(s: State, env: Env, init: seq<Jti>, j: Jti)
    ensures LearnedAlone(s, env, init + [j])
         == if Found(s, env, j).Some? then LearnedAlone(s, env, init)[j := Found(s, env, j).value] else LearnedAlone(s, env, init)
    ensures WrittenAlone(s, env, init + [j])
         == if j !in s.live && WritesAlone(s, env, j) then WrittenAlone(s, env, init)[j := "1"] else WrittenAlone(s, env, init)
    ensures j in init ==> LearnedAlone(s, env, init + [j]) == LearnedAlone(s, env, init)
    ensures j in init ==> WrittenAlone(s, env, init + [j]) == WrittenAlone(s, env, init)
  {
    hide Found, WritesAlone;
  }

  lemma StampedMore(learned: map<Jti, bool>, now: real, j: Jti, v: bool)
    ensures Stamped(learned[j := v], now) == Stamped(learned, now)[j := Stamp(v, now)]
  {
  }

  lemma OneMoreAlone(s: State, env: Env, now: real, init: seq<Jti>, j: Jti)
    ensures After(StateAlone(s, env, now, init), env, now, j) == StateAlone(s, env, now, init + [j])
  {
    FoundLater(s, env, now, init, j);
    LearnedMore(s, env, init, j);
    if j !in init && Found(s, env, j).Some? {
      var v := Found(s, env, j).value;
      StampedMore(LearnedAlone(s, env, init), now, j, v);
      PutLast(s.live, Stamped(LearnedAlone(s, env, init), now), j, Stamp(v, now));
      PutLast(s.redis, WrittenAlone(s, env, init), j, "1");
    }
    assert WritesAlone(s, env, j) && j !in s.live ==> Found(s, env, j).Some?;
    hide WritesAlone, Found, LearnedAlone, WrittenAlone, Stamped;
  }

  function AnswersAlone(s: State, env: Env, js: seq<Jti>): map<Jti, bool> {
    map j | j in js :: Answer(s, env, j)
  }

  lemma AnswersMore(s: State, env: Env, init: seq<Jti>, j: Jti)
    ensures AnswersAlone(s, env, init + [j]) == AnswersAlone(s, env, init)[j := Answer(s, env, j)]
  {
    hide Answer;
  }

  /** Checking one after the other: every identifier is answered as if it were the only one. */
  lemma {:induction false} SequentialIsPointwise(s: State, env: Env, now: real, js: seq<Jti>)
    ensures Sequential(s, env, now, js) == (AnswersAlone(s, env, js), StateAlone(s, env, now, js))
  {
    if js == [] {
      assert s.live + Stamped(LearnedAlone(s, env, []), now) == s.live;
      assert s.redis + WrittenAlone(s, env, []) == s.redis;
    } else {
      var init, j := js[..|js| - 1], js[|js| - 1];
      assert js == init + [j];
      SequentialIsPointwise(s, env, now, init);
      FoundLater(s, env, now, init, j);
      OneMoreAlone(s, env, now, init, j);
      AnswersMore(s, env, init, j);
      hide Answer, After, StateAlone, AnswersAlone;
    }
  }

  // ---- the batch, on values ----------------------------------------------------------------------

  /** The distinct identifiers the live cache does not answer, by first occurrence. */
  function Missing(s: State, js: seq<Jti>): seq<Jti> {
    if js == [] then []
    else
      var j, rest := js[|js| - 1], Missing(s, js[..|js| - 1]);
      if j in s.live || j in rest then rest else rest + [j]
  }

  /** Those of them one read of the shared store answers, or does not. */
  function Stored(s: State, env: Env, ms: seq<Jti>): seq<Jti> {
    if ms == [] then []
    else
      var rest := Stored(s, env, ms[..|ms| - 1]);
      if ReadTogether(s, env, ms[|ms| - 1]) then rest + [ms[|ms| - 1]] else rest
  }

  function Pending(s: State, env: Env, ms: seq<Jti>): seq<Jti> {
    if ms == [] then []
    else
      var rest := Pending(s, env, ms[..|ms| - 1]);
      if ReadTogether(s, env, ms[|ms| - 1]) then rest else rest + [ms[|ms| - 1]]
  }

  /** The first lookup that raises, or the number of lookups. */
  function FirstFailing(env: Env, ps: seq<Jti>): (n: nat)
    ensures n <= |ps| && (n < |ps| ==> ps[n] in env.lookupFails)
    ensures forall i :: 0 <= i < n ==> ps[i] !in env.lookupFails
  {
    if ps == [] || ps[0] in env.lookupFails then 0 else 1 + FirstFailing(env, ps[1..])
  }

  /** Those the database answers before a lookup raises. */
  function Served(env: Env, ps: seq<Jti>): seq<Jti> {
    ps[..FirstFailing(env, ps)]
  }

  function ServedOf(s: State, env: Env, js: seq<Jti>): seq<Jti> {
    Served(env, Pending(s, env, Missing(s, js)))
  }

  /** What the batch finds out about an identifier the cache does not know. */
  function Together(s: State, env: Env, served: seq<Jti>, j: Jti): Option<bool> {
    if RedisDown(env) then None
    else if ReadTogether(s, env, j) then Some(s.redis[j] == "1")
    else if j in served then Some(j in env.revoked)
    else None
  }

  function LearnedTogether(s: State, env: Env, js: seq<Jti>): map<Jti, bool> {
    var served := ServedOf(s, env, js);
    map j | j in js && j !in s.live && Together(s, env, served, j).Some? :: Together(s, env, served, j).value
  }

  function Written(env: Env, served: seq<Jti>): map<Jti, string> {
    map j | j in served && j in env.revoked && CanPopulate(env, j) :: "1"
  }

  /** What the batch stores in the cache, in order. */
  function StoresOf(s: State, env: Env, js: seq<Jti>): seq<Jti> {
    if RedisDown(env) then [] else Stored(s, env, Missing(s, js)) + ServedOf(s, env, js)
  }

  function StateTogether(s: State, env: Env, now: real, js: seq<Jti>): State {
    State(s.live + Stamped(LearnedTogether(s, env, js), now),
          if RedisDown(env) then s.redis else s.redis + Written(env, ServedOf(s, env, js)))
  }

  lemma {:induction false} MissingMembers(s: State, js: seq<Jti>)
    ensures forall j :: j in Missing(s, js) <==> j in js && j !in s.live
  {
    if js != [] {
      MissingMembers(s, js[..|js| - 1]);
      assert js == js[..|js| - 1] + [js[|js| - 1]];
    }
  }

  lemma {:induction false} LayerMembers(s: State, env: Env, ms: seq<Jti>)
    ensures forall j :: j in Stored(s, env, ms) <==> j in ms && ReadTogether(s, env, j)
    ensures forall j :: j in Pending(s, env, ms) <==> j in ms && !ReadTogether(s, env, j)
  {
    if ms != [] {
      LayerMembers(s, env, ms[..|ms| - 1]);
      assert ms == ms[..|ms| - 1] + [ms[|ms| - 1]];
    }
  }

  lemma LayersAppend(s: State, env: Env, ms: seq<Jti>, j: Jti)
    ensures Stored(s, env, ms + [j]) == if ReadTogether(s, env, j) then Stored(s, env, ms) + [j] else Stored(s, env, ms)
    ensures Pending(s, env, ms + [j]) == if ReadTogether(s, env, j) then Pending(s, env, ms) else Pending(s, env, ms) + [j]
  {
    assert (ms + [j])[..|ms|] == ms;
  }

  lemma {:induction false} NothingRead(s: State, env: Env, ms: seq<Jti>)
    requires forall j :: !ReadTogether(s, env, j)
    ensures Pending(s, env, ms) == ms && Stored(s, env, ms) == []
  {
    if ms != [] { NothingRead(s, env, ms[..|ms| - 1]); }
  }

  /** The stores of the batch are what it learns. */
  lemma StoresAreLearned(s: State, env: Env, js: seq<Jti>)
    ensures forall j :: j in StoresOf(s, env, js) <==> j in LearnedTogether(s, env, js)
    ensures !RedisDown(env) ==> forall j :: j in Stored(s, env, Missing(s, js)) ==>
      j in s.redis && LearnedTogether(s, env, js)[j] == (s.redis[j] == "1")
    ensures !RedisDown(env) ==> forall j :: j in ServedOf(s, env, js) ==> LearnedTogether(s, env, js)[j] == (j in env.revoked)
    ensures !RedisDown(env) ==> forall j :: j in ServedOf(s, env, js) ==> j !in s.live && !ReadTogether(s, env, j) && j in js
  {
    var ms := Missing(s, js);
    MissingMembers(s, js);
    LayerMembers(s, env, ms);
    var ps := Pending(s, env, ms);
    assert forall j :: j in ServedOf(s, env, js) ==> j in ps;
    hide Missing, Stored, Pending, FirstFailing, ReadTogether;
  }

  // ---- the shared store as an object, and the checks -----------------------------------------------

  class SharedStore {
    var store: map<Jti, string>

    constructor ()
      ensures store == map[]
    {
      store := map[];
    }
  }

  /** Hits and misses of the first pass, the misses by first occurrence. */
  method Split(ghost s: State, js: seq<Jti>, cached: map<Jti, Option<bool>>) returns (result: map<Jti, bool>, misses: seq<Jti>)
    requires forall j :: j in js ==> j in cached && cached[j] == if j in s.live then Some(s.live[j].revoked) else None
    ensures misses == Missing(s, js) && result == CacheAnswers(s, js)
  {
    result, misses := map[], [];
    for i := 0 to |js|
      invariant misses == Missing(s, js[..i]) && result == CacheAnswers(s, js[..i])
    {
      assert js[..i + 1] == js[..i] + [js[i]];
      SplitMore(s, js[..i], js[i]);
      var status := cached[js[i]];
      if status.Some? {
        result := result[js[i] := status.value];
      } else if js[i] !in misses {
        misses := misses + [js[i]];
      }
    }
    assert js[..|js|] == js;
  }

  lemma SplitMore(s: State, js: seq<Jti>, j: Jti)
    ensures Missing(s, js + [j]) == if j in s.live || j in Missing(s, js) then Missing(s, js) else Missing(s, js) + [j]
    ensures CacheAnswers(s, js + [j]) == if j in s.live then CacheAnswers(s, js)[j := s.live[j].revoked] else CacheAnswers(s, js)
  {
    assert (js + [j])[..|js|] == js;
  }

  /** The dictionary after a check of j that finds out `found`. */
  function AfterCheck(cache: Entries, p: Setting, found: Option<bool>, j: Jti): Entries {
    var kept := AfterGet(cache, p, j);
    if found.Some? then AfterSet(kept, p, j, found.value) else kept
  }

  class Checker {
    const l1: RevocationCache
    const redis: SharedStore

    constructor (l1: RevocationCache, redis: SharedStore)
      ensures this.l1 == l1 && this.redis == redis
    {
      this.l1, this.redis := l1, redis;
    }

    function View(now: real): State
      reads l1, redis
    {
      State(Live(l1.cache, l1.ttl, now), redis.store)
    }

    /** `_checker`, at one instant: the verdict, what the replica can see afterwards, and the
        cache's dictionary. */
    method Check(env: Env, now: real, j: Jti) returns (revoked: bool)
      requires l1.ttl >= 0.0
      modifies l1, redis
      ensures revoked == Answer(old(View(now)), env, j)
      ensures View(now) == After(old(View(now)), env, now, j)
      ensures l1.cache == AfterCheck(old(l1.cache), l1.At(now), Found(old(View(now)), env, j), j)
    {
      var cached := l1.Get(j, now);
      if cached.Some? {
        return cached.value;
      }
      if env.redisConfigured {
        if !env.redisUp {
          return true;
        }
        if j !in env.getFails && j in redis.store {
          revoked := redis.store[j] == "1";
          l1.Set(j, revoked, now);
          return;
        }
      }
      var looked := Looked(env, j);
      if looked.Some? {
        revoked := looked.value;
        LiveAfterSet(l1.cache, l1.At(now), j, revoked);
        l1.Set(j, revoked, now);
        PopulateRedis(env, j, revoked);
        if !env.closeFails {
          return;
        }
      }
      // the exception path: whatever the cache holds by now, else fail closed
      var stale := l1.Get(j, now);
      revoked := if stale.Some? then stale.value else true;
    }

    method PopulateRedis(env: Env, j: Jti, revoked: bool)
      modifies redis
      ensures redis.store == if revoked && CanPopulate(env, j) then old(redis.store)[j := "1"] else old(redis.store)
    {
      if env.redisConfigured && revoked && env.redisUp && j !in env.setFails {
        redis.store := redis.store[j := "1"];
      }
    }

    /** `_batch_checker`, at one instant, in the same three respects. */
    method CheckBatch(env: Env, now: real, js: seq<Jti>) returns (result: map<Jti, bool>)
      requires l1.ttl >= 0.0
      modifies l1, redis
      ensures result == AnswersWith(old(View(now)), js, LearnedTogether(old(View(now)), env, js))
      ensures View(now) == StateTogether(old(View(now)), env, now, js)
      ensures l1.cache == AfterSets(AfterGets(old(l1.cache), l1.At(now), js), l1.At(now),
                                    StoresOf(old(View(now)), env, js), LearnedTogether(old(View(now)), env, js))
    {
      ghost var s, c, p := View(now), l1.cache, l1.At(now);
      var misses;
      result, misses := CacheLayer(now, js);
      LiveAfterGets(c, p, js);
      MissingDropped(s, c, p, js);
      if misses == [] {
        NothingToStore(s, env, now, js);
        AnswersOfCache(s, js);
      } else if env.redisConfigured && !env.redisUp {
        NothingToStore(s, env, now, js);
        result := RejectAll(misses, result);
        AnswersOfRejected(s, js);
      } else {
        result := SharedLayers(env, now, s, js, misses, result);
        BatchView(s, env, c, p, js);
      }
    }

    /** L1: every distinct identifier is looked up once, in order of first occurrence. */
    method CacheLayer(now: real, js: seq<Jti>) returns (result: map<Jti, bool>, misses: seq<Jti>)
      modifies l1
      ensures l1.cache == AfterGets(old(l1.cache), l1.At(now), js)
      ensures misses == Missing(old(View(now)), js)
      ensures result == CacheAnswers(old(View(now)), js)
    {
      var cached := l1.GetBatch(js, now);
      result, misses := Split(old(View(now)), js, cached);
    }

    /** The shared store is configured but cannot be reached: all misses are rejected. */
    method RejectAll(misses: seq<Jti>, cached: map<Jti, bool>) returns (result: map<Jti, bool>)
      ensures result == cached + PendingAnswers(misses, map[])
    {
      result := cached;
      assert cached + PendingAnswers([], map[]) == cached;
      for i := 0 to |misses|
        invariant result == cached + PendingAnswers(misses[..i], map[])
      {
        OneMorePending(cached, misses[..i], misses[i], map[]);
        assert misses[..i + 1] == misses[..i] + [misses[i]];
        result := result[misses[i] := true];
      }
      assert misses[..|misses|] == misses;
    }

    /** L2 and L3. */
    method SharedLayers(env: Env, now: real, ghost s: State, ghost js: seq<Jti>, misses: seq<Jti>, cached: map<Jti, bool>) returns (result: map<Jti, bool>)
      requires l1.ttl >= 0.0 && View(now) == s && !RedisDown(env)
      requires misses == Missing(s, js) && cached == CacheAnswers(s, js)
      requires forall j :: j in misses ==> j !in l1.cache
      modifies l1, redis
      ensures result == AnswersWith(s, js, LearnedTogether(s, env, js))
      ensures l1.cache == AfterSets(old(l1.cache), l1.At(now), StoresOf(s, env, js), LearnedTogether(s, env, js))
      ensures redis.store == s.redis + Written(env, ServedOf(s, env, js))
    {
      ghost var learned := LearnedTogether(s, env, js);
      StoresAreLearned(s, env, js);
      MissingMembers(s, js);
      LayerMembers(s, env, misses);
      var pending;
      result, pending := RedisLayer(env, now, s, misses, cached, learned);
      forall j | j in pending ensures j !in l1.cache {
        if j in l1.cache { AfterSetsMembers(old(l1.cache), l1.At(now), Stored(s, env, misses), learned, j); }
      }
      AfterSetsJoin(old(l1.cache), l1.At(now), Stored(s, env, misses), Served(env, pending), learned);
      result := DatabaseLayer(env, now, pending, result, learned);
      AnswersOfLayers(s, env, js);
    }

    /** L2: one read of the shared store for all misses, or none when it fails. */
    method RedisLayer(env: Env, now: real, ghost s: State, misses: seq<Jti>, before: map<Jti, bool>, ghost learned: map<Jti, bool>)
      returns (result: map<Jti, bool>, pending: seq<Jti>)
      requires l1.ttl >= 0.0 && redis.store == s.redis
      requires forall j :: j in misses && ReadTogether(s, env, j) ==> j in learned && learned[j] == (s.redis[j] == "1")
      modifies l1
      ensures pending == Pending(s, env, misses)
      ensures l1.cache == AfterSets(old(l1.cache), l1.At(now), Stored(s, env, misses), learned)
      ensures result == before + Verdicts(Stored(s, env, misses), learned)
    {
      hide AfterSets, Stored, Pending, Verdicts;
      result, pending := before, misses;
      NothingReadUp(s, env, l1.cache, l1.At(now), before, learned, misses);
      if !env.redisConfigured || env.mgetFails {
        return;
      }
      ghost var c := l1.cache;
      pending := [];
      for i := 0 to |misses|
        invariant redis.store == s.redis
        invariant ReadUp(s, env, c, l1.At(now), before, learned, misses[..i], l1.cache, pending, result)
      {
        hide ReadUp;
        var j := misses[i];
        assert misses[..i + 1] == misses[..i] + [j];
        OneMoreRead(s, env, c, l1.At(now), before, learned, misses[..i], j, l1.cache, pending, result);
        if j in redis.store {
          var revoked := redis.store[j] == "1";
          l1.Set(j, revoked, now);
          result := result[j := revoked];
        } else {
          pending := pending + [j];
        }
      }
      assert misses[..|misses|] == misses;
    }

    /** L3: one lookup after the other until one raises; if one does, or closing the session
        does, every pending identifier gets what the cache then holds, or is rejected. */
    method DatabaseLayer(env: Env, now: real, pending: seq<Jti>, before: map<Jti, bool>, ghost learned: map<Jti, bool>) returns (result: map<Jti, bool>)
      requires l1.ttl >= 0.0 && forall j :: j in pending ==> j !in l1.cache
      requires forall j :: j in Served(env, pending) ==> j in learned && learned[j] == (j in env.revoked)
      requires forall j :: j in pending && j in learned ==> j in Served(env, pending)
      modifies l1, redis
      ensures l1.cache == AfterSets(old(l1.cache), l1.At(now), Served(env, pending), learned)
      ensures redis.store == old(redis.store) + Written(env, Served(env, pending))
      ensures result == before + PendingAnswers(pending, learned)
    {
      hide Served, Written, AfterSets, PendingAnswers, Verdicts;
      ghost var c := l1.cache;
      var failed;
      result, failed := Lookups(env, now, pending, before, learned);
      if failed || env.closeFails {
        LiveAfterSets(c, l1.At(now), Served(env, pending), learned);
        forall j | j in pending && j in l1.cache ensures j in View(now).live {
          AfterSetsMembers(c, l1.At(now), Served(env, pending), learned, j);
        }
        result := StaleAnswers(now, pending, result, learned);
        ServedWerePending(env, pending);
        Overwrite(before, pending, Served(env, pending), learned);
      } else {
        AllLearned(pending, learned);
      }
    }

    /** The lookups, until one raises. */
    method Lookups(env: Env, now: real, pending: seq<Jti>, before: map<Jti, bool>, ghost learned: map<Jti, bool>) returns (result: map<Jti, bool>, failed: bool)
      requires l1.ttl >= 0.0
      requires forall j :: j in Served(env, pending) ==> j in learned && learned[j] == (j in env.revoked)
      modifies l1, redis
      ensures LookedUp(env, old(l1.cache), l1.At(now), old(redis.store), before, learned, Served(env, pending), l1.cache, redis.store, result)
      ensures !failed ==> Served(env, pending) == pending
    {
      hide AfterSets, Written, Verdicts;
      result := before;
      ghost var c, store, n := l1.cache, redis.store, FirstFailing(env, pending);
      NothingLookedUp(env, c, l1.At(now), store, before, learned);
      failed := false;
      var i := 0;
      while i < |pending| && !failed
        invariant i <= n && (failed ==> i == n)
        invariant LookedUp(env, c, l1.At(now), store, before, learned, pending[..i], l1.cache, redis.store, result)
        decreases |pending| - i, !failed
      {
        hide LookedUp;
        assert pending[..i + 1] == pending[..i] + [pending[i]];
        var looked := Looked(env, pending[i]);
        if looked.None? {
          failed := true;
        } else {
          assert i < n && pending[i] == Served(env, pending)[i];
          result := Record(env, now, c, store, before, learned, pending[..i], pending[i], looked.value, result);
          i := i + 1;
        }
      }
      assert !failed ==> pending[..i] == pending;
    }

    /** One lookup of the batch, cached here and in the shared store. */
    method Record(env: Env, now: real, ghost c: Entries, ghost store: map<Jti, string>, ghost before: map<Jti, bool>,
                  ghost learned: map<Jti, bool>, ghost done: seq<Jti>, j: Jti, revoked: bool, result: map<Jti, bool>) returns (result': map<Jti, bool>)
      requires l1.ttl >= 0.0 && j in learned && learned[j] == revoked == (j in env.revoked)
      requires LookedUp(env, c, l1.At(now), store, before, learned, done, l1.cache, redis.store, result)
      modifies l1, redis
      ensures LookedUp(env, c, l1.At(now), store, before, learned, done + [j], l1.cache, redis.store, result')
    {
      OneMoreStored(c, l1.At(now), done, j, learned, before);
      OneMoreWritten(store, env, done, j);
      l1.Set(j, revoked, now);
      result' := result[j := revoked];
      PopulateRedis(env, j, revoked);
    }

    /** The exception path of the batch: each pending identifier gets what the cache holds. */
    method StaleAnswers(now: real, pending: seq<Jti>, before: map<Jti, bool>, ghost learned: map<Jti, bool>) returns (result: map<Jti, bool>)
      requires forall j :: j in pending ==> (j in View(now).live <==> j in learned)
      requires forall j :: j in pending && j in learned ==> View(now).live[j].revoked == learned[j]
      requires forall j :: j in pending && j in l1.cache ==> j in View(now).live
      modifies l1
      ensures l1.cache == old(l1.cache)
      ensures result == before + PendingAnswers(pending, learned)
    {
      result := before;
      assert before + PendingAnswers([], learned) == before;
      for k := 0 to |pending|
        invariant l1.cache == old(l1.cache)
        invariant result == before + PendingAnswers(pending[..k], learned)
      {
        var j := pending[k];
        var stale := l1.Get(j, now);
        assert pending[..k + 1] == pending[..k] + [j];
        OneMorePending(before, pending[..k], j, learned);
        result := result[j := if stale.Some? then stale.value else true];
      }
      assert pending[..|pending|] == pending;
    }
  }

  /** What the shared store had of `done` is in the cache and in the result, the rest pending. */
  ghost predicate ReadUp(s: State, env: Env, c: Entries, p: Setting, before: map<Jti, bool>, learned: map<Jti, bool>,
                         done: seq<Jti>, cache: Entries, pending: seq<Jti>, result: map<Jti, bool>) {
    && cache == AfterSets(c, p, Stored(s, env, done), learned)
    && pending == Pending(s, env, done)
    && result == before + Verdicts(Stored(s, env, done), learned)
  }

  lemma NothingReadUp(s: State, env: Env, c: Entries, p: Setting, before: map<Jti, bool>, learned: map<Jti, bool>, misses: seq<Jti>)
    ensures ReadUp(s, env, c, p, before, learned, [], c, [], before)
    ensures !env.redisConfigured || env.mgetFails ==> ReadUp(s, env, c, p, before, learned, misses, c, misses, before)
  {
    assert before + Verdicts([], learned) == before;
    if !env.redisConfigured || env.mgetFails { NothingRead(s, env, misses); }
  }

  lemma OneMoreRead(s: State, env: Env, c: Entries, p: Setting, before: map<Jti, bool>, learned: map<Jti, bool>,
                    done: seq<Jti>, j: Jti, cache: Entries, pending: seq<Jti>, result: map<Jti, bool>)
    requires ReadUp(s, env, c, p, before, learned, done, cache, pending, result)
    requires env.redisConfigured && !env.mgetFails && (j in s.redis ==> j in learned)
    ensures if j in s.redis then ReadUp(s, env, c, p, before, learned, done + [j], AfterSet(cache, p, j, learned[j]), pending, result[j := learned[j]])
            else ReadUp(s, env, c, p, before, learned, done + [j], cache, pending + [j], result)
  {
    LayersAppend(s, env, done, j);
    if j in s.redis { OneMoreStored(c, p, Stored(s, env, done), j, learned, before); }
    hide AfterSets, Stored, Pending, Verdicts, AfterSet;
  }

  /** The lookups of `done` are in the cache, in the shared store and in the result. */
  ghost predicate LookedUp(env: Env, c: Entries, p: Setting, store: map<Jti, string>, before: map<Jti, bool>, learned: map<Jti, bool>,
                           done: seq<Jti>, cache: Entries, redis: map<Jti, string>, result: map<Jti, bool>) {
    && cache == AfterSets(c, p, done, learned)
    && redis == store + Written(env, done)
    && result == before + Verdicts(done, learned)
  }

  function CacheAnswers(s: State, js: seq<Jti>): map<Jti, bool> {
    map j | j in js && j in s.live :: s.live[j].revoked
  }

  function Verdicts(ks: seq<Jti>, learned: map<Jti, bool>): map<Jti, bool> {
    map k | k in ks :: k in learned && learned[k]
  }

  function PendingAnswers(ps: seq<Jti>, learned: map<Jti, bool>): map<Jti, bool> {
    map j | j in ps :: j in learned ==> learned[j]
  }

  lemma NothingLookedUp(env: Env, c: Entries, p: Setting, store: map<Jti, string>, before: map<Jti, bool>, learned: map<Jti, bool>)
    ensures LookedUp(env, c, p, store, before, learned, [], c, store, before)
  {
    assert before + Verdicts([], learned) == before && store + Written(env, []) == store;
  }

  lemma ServedWerePending(env: Env, ps: seq<Jti>)
    ensures forall j :: j in Served(env, ps) ==> j in ps
  {
  }

  lemma AllLearned(ps: seq<Jti>, learned: map<Jti, bool>)
    requires forall j :: j in ps ==> j in learned
    ensures Verdicts(ps, learned) == PendingAnswers(ps, learned)
  {
  }

  lemma MissingDropped(s: State, c: Entries, p: Setting, js: seq<Jti>)
    requires s.live == Live(c, p.ttl, p.now)
    ensures forall j :: j in Missing(s, js) ==> j !in AfterGets(c, p, js)
  {
    MissingMembers(s, js);
    forall j | j in Missing(s, js) ensures j !in AfterGets(c, p, js) {
      if j in AfterGets(c, p, js) { AfterGetsMembers(c, p, js, j); }
    }
  }

  lemma NothingToStore(s: State, env: Env, now: real, js: seq<Jti>)
    requires Missing(s, js) == [] || RedisDown(env)
    ensures StoresOf(s, env, js) == [] && LearnedTogether(s, env, js) == map[] && StateTogether(s, env, now, js) == s
  {
    MissingMembers(s, js);
    assert s.live + Stamped(map[], now) == s.live && s.redis + Written(env, []) == s.redis;
  }

  lemma AnswersOfRejected(s: State, js: seq<Jti>)
    ensures CacheAnswers(s, js) + PendingAnswers(Missing(s, js), map[]) == AnswersWith(s, js, map[])
  {
    MissingMembers(s, js);
    hide Missing;
  }

  lemma AnswersOfCache(s: State, js: seq<Jti>)
    requires Missing(s, js) == []
    ensures CacheAnswers(s, js) == AnswersWith(s, js, map[])
  {
    MissingMembers(s, js);
    assert forall j :: j in js ==> j in s.live;
  }

  /** The answers of the three layers together. */
  lemma AnswersOfLayers(s: State, env: Env, js: seq<Jti>)
    requires !RedisDown(env)
    ensures var ms, learned := Missing(s, js), LearnedTogether(s, env, js);
      CacheAnswers(s, js) + Verdicts(Stored(s, env, ms), learned) + PendingAnswers(Pending(s, env, ms), learned) == AnswersWith(s, js, learned)
  {
    var ms, learned := Missing(s, js), LearnedTogether(s, env, js);
    MissingMembers(s, js);
    LayerMembers(s, env, ms);
    StoresAreLearned(s, env, js);
    assert forall j :: j in Stored(s, env, ms) ==> j in StoresOf(s, env, js);
    assert forall j :: j in learned ==> j !in s.live;
    hide LearnedTogether, Missing, Stored, Pending, ReadTogether, StoresOf;
    Combined(s, js, Stored(s, env, ms), Pending(s, env, ms), learned);
  }

  lemma Combined(s: State, js: seq<Jti>, stored: seq<Jti>, pending: seq<Jti>, learned: map<Jti, bool>)
    requires forall j :: j in stored || j in pending <==> j in js && j !in s.live
    requires forall j :: j in stored ==> j in learned
    ensures CacheAnswers(s, js) + Verdicts(stored, learned) + PendingAnswers(pending, learned) == AnswersWith(s, js, learned)
  {
  }

  /** What the replica sees after the batch. */
  lemma BatchView(s: State, env: Env, c: Entries, p: Setting, js: seq<Jti>)
    requires !RedisDown(env) && p.ttl >= 0.0 && s.live == Live(c, p.ttl, p.now)
    ensures Live(AfterSets(AfterGets(c, p, js), p, StoresOf(s, env, js), LearnedTogether(s, env, js)), p.ttl, p.now)
         == StateTogether(s, env, p.now, js).live
  {
    var learned, got := LearnedTogether(s, env, js), AfterGets(c, p, js);
    StoresAreLearned(s, env, js);
    LiveAfterGets(c, p, js);
    LiveAfterSets(got, p, StoresOf(s, env, js), learned);
    hide LearnedTogether, StoresOf, AfterSets, AfterGets;
    Merged(Live(AfterSets(got, p, StoresOf(s, env, js), learned), p.ttl, p.now), s.live, StoresOf(s, env, js), learned, p.now);
  }

  lemma Merged(live: Entries, base: Entries, ks: seq<Jti>, learned: map<Jti, bool>, now: real)
    requires forall j :: j in ks <==> j in learned
    requires forall j :: j in live <==> j in base || j in ks
    requires forall j :: j in live ==> live[j] == if j in ks then Stamp(learned[j], now) else base[j]
    ensures live == base + Stamped(learned, now)
  {
  }

  lemma OneMoreStored(c: Entries, p: Setting, ks: seq<Jti>, k: Jti, learned: map<Jti, bool>, before: map<Jti, bool>)
    requires k in learned
    ensures AfterSets(c, p, ks + [k], learned) == AfterSet(AfterSets(c, p, ks, learned), p, k, learned[k])
    ensures before + Verdicts(ks + [k], learned) == (before + Verdicts(ks, learned))[k := learned[k]]
  {
    AfterSetsAppend(c, p, ks, k, learned);
    assert Verdicts(ks + [k], learned) == Verdicts(ks, learned)[k := learned[k]];
    PutLast(before, Verdicts(ks, learned), k, learned[k]);
  }

  lemma OneMoreWritten(store: map<Jti, string>, env: Env, ks: seq<Jti>, k: Jti)
    ensures store + Written(env, ks + [k])
         == if k in env.revoked && CanPopulate(env, k) then (store + Written(env, ks))[k := "1"] else store + Written(env, ks)
  {
    if k in env.revoked && CanPopulate(env, k) {
      assert Written(env, ks + [k]) == Written(env, ks)[k := "1"];
      PutLast(store, Written(env, ks), k, "1");
    } else {
      assert Written(env, ks + [k]) == Written(env, ks);
    }
  }

  lemma OneMorePending(before: map<Jti, bool>, ps: seq<Jti>, j: Jti, learned: map<Jti, bool>)
    ensures before + PendingAnswers(ps + [j], learned) == (before + PendingAnswers(ps, learned))[j := j in learned ==> learned[j]]
  {
    var answer := j in learned ==> learned[j];
    assert PendingAnswers(ps + [j], learned) == PendingAnswers(ps, learned)[j := answer];
    PutLast(before, PendingAnswers(ps, learned), j, answer);
  }

  lemma Overwrite(before: map<Jti, bool>, ps: seq<Jti>, served: seq<Jti>, learned: map<Jti, bool>)
    requires forall j :: j in served ==> j in ps
    ensures before + Verdicts(served, learned) + PendingAnswers(ps, learned) == before + PendingAnswers(ps, learned)
  {
  }
}

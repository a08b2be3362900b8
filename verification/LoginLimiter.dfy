/** Brute-force protection of the login: failed attempts per key, and a growing lock-out. */
module LoginLimiter {
  type Key = (string, string)

  datatype Record = Record(failedCount: nat, lastFailedAt: real, lockedUntil: real)

  const FRESH := Record(0, 0.0, 0.0)
  const BACKOFF_SCHEDULE: seq<real> := [30.0, 60.0, 120.0, 240.0, 900.0]
  const MAX_ATTEMPTS: int := 5
  const REDIS_TTL: real := 3600.0

  function Backoff(failedCount: nat): (seconds: real)
    requires failedCount >= MAX_ATTEMPTS
    ensures 30.0 <= seconds <= 900.0
  {
    var excess := failedCount - MAX_ATTEMPTS;
    BACKOFF_SCHEDULE[if excess < |BACKOFF_SCHEDULE| - 1 then excess else |BACKOFF_SCHEDULE| - 1]
  }

  /** One more failure, at `at`; the lock starts at `lockAt`, a second reading of the clock. */
  function Failed(r: Record, at: real, lockAt: real): Record {
    var n := r.failedCount + 1;
    Record(n, at, if n >= MAX_ATTEMPTS then lockAt + Backoff(n) else r.lockedUntil)
  }

  predicate Allowed(r: Record, now: real) {
    r.lockedUntil <= now
  }

  /** Whole seconds to wait. */
  function RetryAfter(r: Record, now: real): int {
    if Allowed(r, now) then 0 else (r.lockedUntil - now).Floor + 1
  }

  /** The wait is enough, and positive exactly when it is needed. */
  lemma RetryAfterIsEnough(r: Record, now: real)
    ensures RetryAfter(r, now) > 0 <==> !Allowed(r, now)
    ensures Allowed(r, now + RetryAfter(r, now) as real)
    ensures !Allowed(r, now) ==> (RetryAfter(r, now) - 1) as real <= r.lockedUntil - now
  {
  }

  // ---- how far apart failures must be ------------------------------------------------------------

  /** The first k back-offs together. */
  function SumOfBackoffs(k: nat): real {
    if k == 0 then 0.0 else SumOfBackoffs(k - 1) + Backoff(MAX_ATTEMPTS + k - 1)
  }

  lemma {:induction false} SumClosedForm(k: nat)
    ensures k <= 4 ==> SumOfBackoffs(k) == [0.0, 30.0, 90.0, 210.0, 450.0][k]
    ensures k >= 4 ==> SumOfBackoffs(k) == 450.0 + 900.0 * (k - 4) as real
  {
    if k > 0 {
      SumClosedForm(k - 1);
      assert Backoff(MAX_ATTEMPTS + k - 1) == BACKOFF_SCHEDULE[if k < 5 then k - 1 else 4];
    }
  }

  /** Failure 5 + k is not before the fifth one plus the first k back-offs. */
  predicate Spaced(failures: seq<real>) {
    forall k :: 0 <= k < |failures| - 4 ==> SpacedAt(failures, k)
  }

  predicate SpacedAt(failures: seq<real>, k: nat)
    requires k < |failures| - 4
  {
    failures[4 + k] >= failures[4] + SumOfBackoffs(k)
  }

  /** The record stands for the failures since the last reset; locked, if need be, for at
      least the back-off after the last of them. */
  predicate Stands(r: Record, failures: seq<real>, now: real) {
    && r.failedCount == |failures|
    && (failures != [] ==> r.lastFailedAt == failures[|failures| - 1] <= now)
    && (if |failures| >= MAX_ATTEMPTS then failures[|failures| - 1] + Backoff(|failures|) <= r.lockedUntil <= now + Backoff(|failures|)
        else r.lockedUntil == 0.0)
  }

  lemma FailureStands(r: Record, failures: seq<real>, now: real, at: real, lockAt: real)
    requires Stands(r, failures, now) && now <= at <= lockAt
    ensures Stands(Failed(r, at, lockAt), failures + [at], lockAt)
    ensures Spaced(failures) && Allowed(r, at) ==> Spaced(failures + [at])
  {
    var more := failures + [at];
    if Spaced(failures) && Allowed(r, at) {
      forall k | 0 <= k < |more| - 4 ensures SpacedAt(more, k) {
        if k < |failures| - 4 {
          assert SpacedAt(failures, k);
        } else if k > 0 {
          assert SpacedAt(failures, k - 1);
        }
      }
    }
  }

  lemma StandsLater(r: Record, failures: seq<real>, now: real, time: real)
    requires Stands(r, failures, now) && now <= time
    ensures Stands(r, failures, time)
  {
  }

  /** The bound is attained by whoever tries again the moment it is allowed. */
  lemma {:induction false} SpacingAttained(k: nat) returns (r: Record, failures: seq<real>)
    ensures |failures| == 5 + k && Stands(r, failures, failures[4 + k]) && Spaced(failures)
    ensures failures[4 + k] == failures[4] + SumOfBackoffs(k)
    ensures r.lockedUntil == failures[4 + k] + Backoff(5 + k)
  {
    if k == 0 {
      failures := [0.0, 0.0, 0.0, 0.0, 0.0];
      r := Record(5, 0.0, 30.0);
    } else {
      r, failures := SpacingAttained(k - 1);
      var at := r.lockedUntil;
      FailureStands(r, failures, failures[3 + k], at, at);
      r, failures := Failed(r, at, at), failures + [at];
    }
  }

  // ---- forgetting old records ---------------------------------------------------------------------

  predicate Stale(r: Record, now: real, maxAge: real) {
    now - r.lastFailedAt > maxAge && r.lockedUntil < now
  }

  /** Two readings of the clock for each failure. */
  type Failures = seq<(real, real)>

  function AfterFailures(r: Record, fs: Failures): Record {
    if fs == [] then r else Failed(AfterFailures(r, fs[..|fs| - 1]), fs[|fs| - 1].0, fs[|fs| - 1].1)
  }

  function LastReading(now: real, fs: Failures): real {
    if fs == [] then now else fs[|fs| - 1].1
  }

  predicate InOrder(now: real, fs: Failures) {
    fs == [] || (InOrder(now, fs[..|fs| - 1]) && LastReading(now, fs[..|fs| - 1]) <= fs[|fs| - 1].0 <= fs[|fs| - 1].1)
  }

  lemma {:induction false} AfterFailuresIs(r: Record, now: real, fs: Failures)
    requires InOrder(now, fs)
    ensures now <= LastReading(now, fs) && AfterFailures(r, fs).failedCount == r.failedCount + |fs|
    ensures AfterFailures(r, fs).lockedUntil
         == if fs != [] && r.failedCount + |fs| >= MAX_ATTEMPTS then LastReading(now, fs) + Backoff(r.failedCount + |fs|) else r.lockedUntil
  {
    hide Backoff;
    if fs != [] { AfterFailuresIs(r, now, fs[..|fs| - 1]); }
  }

  /** Every check from `now` on is answered alike. */
  ghost predicate SameChecks(r: Record, s: Record, now: real) {
    forall t :: now <= t ==> Allowed(r, t) == Allowed(s, t)
  }

  /** What forgetting a record, whose lock is over, changes for the checks after any number of
      later failures: nothing exactly if there are none, or there were none to forget, or all of
      them together do not lock yet, or the later ones alone have reached the longest lock. */
  lemma ForgettingIff(r: Record, now: real, fs: Failures)
    requires 0.0 <= now && Allowed(r, now) && InOrder(now, fs)
    ensures SameChecks(AfterFailures(r, fs), AfterFailures(FRESH, fs), LastReading(now, fs))
       <==> fs == [] || r.failedCount == 0 || r.failedCount + |fs| < MAX_ATTEMPTS || |fs| >= 9
  {
    AfterFailuresIs(r, now, fs);
    AfterFailuresIs(FRESH, now, fs);
    var kept, forgotten, last := AfterFailures(r, fs), AfterFailures(FRESH, fs), LastReading(now, fs);
    SameChecksIff(kept, forgotten, last);
    hide SameChecks, AfterFailures;
    if fs != [] && r.failedCount + |fs| >= MAX_ATTEMPTS && |fs| >= MAX_ATTEMPTS {
      BackoffSame(r.failedCount, |fs|);
    }
  }

  lemma SameChecksIff(r: Record, s: Record, now: real)
    ensures SameChecks(r, s, now) <==> r.lockedUntil == s.lockedUntil || (Allowed(r, now) && Allowed(s, now))
  {
    if SameChecks(r, s, now) {
      var t := if r.lockedUntil < s.lockedUntil then r.lockedUntil else s.lockedUntil;
      assert Allowed(r, now) == Allowed(s, now);
      if now <= t { assert Allowed(r, t) == Allowed(s, t); }
    }
  }

  lemma BackoffSame(n: nat, m: nat)
    requires m >= MAX_ATTEMPTS
    ensures Backoff(n + m) == Backoff(m) <==> n == 0 || m >= 9
  {
  }

  // ---- in memory --------------------------------------------------------------------------------------

  function RecordOf(attempts: map<Key, Record>, k: Key): Record {
    if k in attempts then attempts[k] else FRESH
  }

  ghost function FailuresOf(failures: map<Key, seq<real>>, k: Key): seq<real> {
    if k in failures then failures[k] else []
  }

  /** slipped: some failure since the last reset was recorded while the key was locked. */
  ghost predicate KeyOk(attempts: map<Key, Record>, failures: map<Key, seq<real>>, slipped: set<Key>, k: Key, now: real) {
    Stands(RecordOf(attempts, k), FailuresOf(failures, k), now) && (k !in slipped ==> Spaced(FailuresOf(failures, k)))
  }

  class MemoryLimiter {
    var attempts: map<Key, Record>
    /** The failures of each key since its last reset, and the last reading of the clock. */
    ghost var failures: map<Key, seq<real>>
    ghost var slipped: set<Key>
    ghost var now: real

    ghost predicate Valid()
      reads this
    {
      now >= 0.0 && forall k :: KeyOk(attempts, failures, slipped, k, now)
    }

    constructor (ghost start: real)
      requires start >= 0.0
      ensures Valid() && now == start && failures == map[] && slipped == {}
    {
      attempts, failures, slipped, now := map[], map[], {}, start;
    }

    /** Looking up a key creates its record, as a defaultdict does. */
    method Check(k: Key, time: real) returns (allowed: bool, retryAfter: int)
      requires Valid() && now <= time
      modifies this
      ensures Valid() && now == time && failures == old(failures) && slipped == old(slipped)
      ensures allowed == Allowed(RecordOf(old(attempts), k), time) && retryAfter == RetryAfter(RecordOf(old(attempts), k), time)
      ensures forall j :: RecordOf(attempts, j) == RecordOf(old(attempts), j)
    {
      hide Stands, Spaced;
      var r := RecordOf(attempts, k);
      attempts := attempts[k := r];
      forall j ensures KeyOk(attempts, failures, slipped, j, time) {
        assert KeyOk(old(attempts), failures, slipped, j, now);
        StandsLater(RecordOf(attempts, j), FailuresOf(failures, j), now, time);
      }
      now := time;
      if r.lockedUntil > time {
        return false, (r.lockedUntil - time).Floor + 1;
      }
      return true, 0;
    }

    method RecordFailure(k: Key, at: real, lockAt: real)
      requires Valid() && now <= at <= lockAt
      modifies this
      ensures Valid() && now == lockAt
      ensures attempts == old(attempts)[k := Failed(RecordOf(old(attempts), k), at, lockAt)]
      ensures failures == old(failures)[k := old(FailuresOf(failures, k)) + [at]]
      ensures slipped == old(slipped) + (if Allowed(RecordOf(old(attempts), k), at) then {} else {k})
    {
      hide Stands, Spaced;
      var r := RecordOf(attempts, k);
      if !Allowed(r, at) {
        slipped := slipped + {k};
      }
      attempts := attempts[k := Failed(r, at, lockAt)];
      failures := failures[k := FailuresOf(failures, k) + [at]];
      forall j ensures KeyOk(attempts, failures, slipped, j, lockAt) {
        assert KeyOk(old(attempts), old(failures), old(slipped), j, now);
        if j == k {
          FailureStands(r, old(FailuresOf(failures, k)), now, at, lockAt);
        } else {
          StandsLater(RecordOf(attempts, j), FailuresOf(failures, j), now, lockAt);
        }
      }
      now := lockAt;
    }

    method RecordSuccess(k: Key)
      requires Valid()
      modifies this
      ensures Valid() && now == old(now)
      ensures attempts == old(attempts) - {k} && failures == old(failures) - {k} && slipped == old(slipped) - {k}
    {
      Forget(k);
    }

    method Forget(k: Key)
      requires Valid()
      modifies this
      ensures Valid() && now == old(now)
      ensures attempts == old(attempts) - {k} && failures == old(failures) - {k} && slipped == old(slipped) - {k}
    {
      attempts := attempts - {k};
      failures := failures - {k};
      slipped := slipped - {k};
      forall j ensures KeyOk(attempts, failures, slipped, j, now) {
        assert KeyOk(old(attempts), old(failures), old(slipped), j, now);
      }
    }

    /** Removes exactly the stale records; no check at any later time is answered differently. */
    method CleanupStale(time: real, maxAge: real)
      requires Valid() && now <= time
      modifies this
      ensures Valid() && now == time
      ensures forall k :: k in attempts <==> k in old(attempts) && !Stale(old(attempts)[k], time, maxAge)
      ensures forall k :: k in old(attempts) ==>
        var r := old(attempts)[k];
        k in attempts <==> r.lastFailedAt >= time - maxAge || !Allowed(r, time) || r.lockedUntil == time
      ensures forall k :: k in attempts ==> attempts[k] == old(attempts)[k] && FailuresOf(failures, k) == FailuresOf(old(failures), k)
      ensures forall k, t :: time <= t ==> Allowed(RecordOf(attempts, k), t) == Allowed(RecordOf(old(attempts), k), t)
    {
      hide Stands, Spaced, Stale, Allowed;
      forall j ensures KeyOk(attempts, failures, slipped, j, time) {
        assert KeyOk(attempts, failures, slipped, j, now);
        StandsLater(RecordOf(attempts, j), FailuresOf(failures, j), now, time);
      }
      now := time;
      ghost var attempts0, failures0 := attempts, failures;
      var stale := set k | k in attempts && Stale(attempts[k], time, maxAge);
      var keys := stale;
      while keys != {}
        invariant keys <= stale && Valid() && now == time
        invariant attempts == attempts0 - (stale - keys) && failures == failures0 - (stale - keys)
        decreases |keys|
      {
        var k :| k in keys;
        var rest := keys - {k};
        Forget(k);
        RemoveOneMore(attempts0, stale, keys, k);
        RemoveOneMore(failures0, stale, keys, k);
        keys := rest;
      }
      assert stale - keys == stale;
      forall k | k in attempts0 { StaleMeans(attempts0[k], time, maxAge); }
      forall k, t | time <= t ensures Allowed(RecordOf(attempts, k), t) == Allowed(RecordOf(attempts0, k), t) {
        if k in stale { StaleAllowed(attempts0[k], time, maxAge, t); }
      }
    }
  }

  lemma RemoveOneMore<V>(m: map<Key, V>, stale: set<Key>, keys: set<Key>, k: Key)
    requires k in keys && keys <= stale
    ensures m - (stale - keys) - {k} == m - (stale - (keys - {k}))
  {
  }

  lemma StaleMeans(r: Record, now: real, maxAge: real)
    ensures Stale(r, now, maxAge) <==> !(r.lastFailedAt >= now - maxAge || !Allowed(r, now) || r.lockedUntil == now)
  {
  }

  lemma StaleAllowed(r: Record, now: real, maxAge: real, t: real)
    requires 0.0 <= now <= t && Stale(r, now, maxAge)
    ensures Allowed(r, t) && Allowed(FRESH, t)
  {
  }

  /** In every run of one replica: unless an attempt was made while locked, failure 5 + k since
      the last reset comes at least the first k back-offs after the fifth. */
  lemma BackoffHolds(l: MemoryLimiter, k: Key, n: nat)
    requires l.Valid() && k !in l.slipped && 4 + n < |FailuresOf(l.failures, k)|
    ensures var f := FailuresOf(l.failures, k);
      && f[4 + n] >= f[4] + SumOfBackoffs(n)
      && (n >= 4 ==> f[4 + n] >= f[4] + 450.0 + 900.0 * (n - 4) as real)
  {
    assert KeyOk(l.attempts, l.failures, l.slipped, k, l.now);
    assert SpacedAt(FailuresOf(l.failures, k), n);
    SumClosedForm(n);
  }

  // ---- in Redis ---------------------------------------------------------------------------------------------

  /** A hash with its expiry. */
  datatype Hash = Hash(r: Record, expireAt: real)

  function StoredAt(hashes: map<Key, Hash>, k: Key, time: real): Record {
    if k in hashes && time < hashes[k].expireAt then hashes[k].r else FRESH
  }

  /** The hash expires an hour after the last failure, when its lock is long over; until then
      it stands for the failures since the last reset. */
  ghost predicate HashOk(hashes: map<Key, Hash>, failures: map<Key, seq<real>>, slipped: set<Key>, k: Key, now: real) {
    if k in hashes then
      var h := hashes[k];
      && h.expireAt == h.r.lastFailedAt + REDIS_TTL && h.r.lastFailedAt <= now
      && h.r.lockedUntil <= h.r.lastFailedAt + 900.0
      && Stands(h.r, FailuresOf(failures, k), now)
      && (k !in slipped ==> Spaced(FailuresOf(failures, k)))
    else FailuresOf(failures, k) == []
  }

  class RedisLimiter {
    var hashes: map<Key, Hash>
    /** As in memory; an expiry is a reset. */
    ghost var failures: map<Key, seq<real>>
    ghost var slipped: set<Key>
    ghost var now: real

    ghost predicate Valid()
      reads this
    {
      now >= 0.0 && forall k :: HashOk(hashes, failures, slipped, k, now)
    }

    constructor (ghost start: real)
      requires start >= 0.0
      ensures Valid() && now == start && hashes == map[] && failures == map[] && slipped == {}
    {
      hashes, failures, slipped, now := map[], map[], {}, start;
    }

    /** The answer is the one the hash gives if it has not expired, and the same if it has. */
    method Check(k: Key, time: real) returns (allowed: bool, retryAfter: int)
      requires Valid() && now <= time
      ensures allowed == Allowed(if k in hashes then hashes[k].r else FRESH, time)
      ensures retryAfter == RetryAfter(if k in hashes then hashes[k].r else FRESH, time)
    {
      assert HashOk(hashes, failures, slipped, k, now);
      var data := StoredAt(hashes, k, time);
      if data.lockedUntil > time {
        return false, (data.lockedUntil - time).Floor + 1;
      }
      return true, 0;
    }

    method RecordFailure(k: Key, time: real)
      requires Valid() && now <= time
      modifies this
      ensures Valid() && now == time
      ensures hashes == old(hashes)[k := Hash(Failed(StoredAt(old(hashes), k, time), time, time), time + REDIS_TTL)]
      ensures failures == old(failures)[k := (if Expired(old(hashes), k, time) then [] else FailuresOf(old(failures), k)) + [time]]
      ensures hashes[k].expireAt == time + 3600.0 && hashes[k].r.lastFailedAt == time
      ensures k in slipped <==> !Expired(old(hashes), k, time) && (k in old(slipped) || !Allowed(StoredAt(old(hashes), k, time), time))
      ensures slipped - {k} == old(slipped) - {k}
    {
      hide Spaced, Stands;
      var data := StoredAt(hashes, k, time);
      assert HashOk(hashes, failures, slipped, k, now);
      var n := data.failedCount + 1;
      var lockedUntil := data.lockedUntil;
      if n >= MAX_ATTEMPTS {
        lockedUntil := time + Backoff(n);
      }
      ghost var before := if Expired(hashes, k, time) then [] else FailuresOf(failures, k);
      FreshStands(now);
      FailureStands(data, before, now, time, time);
      hashes := hashes[k := Hash(Record(n, time, lockedUntil), time + REDIS_TTL)];
      failures := failures[k := before + [time]];
      slipped := if Expired(old(hashes), k, time) then slipped - {k}
                 else if Allowed(data, time) then slipped else slipped + {k};
      LaterHolds(old(hashes), old(failures), old(slipped), now, time);
      forall j ensures HashOk(hashes, failures, slipped, j, time) {
        assert HashOk(old(hashes), old(failures), old(slipped), j, time);
      }
      now := time;
    }

    method RecordSuccess(k: Key)
      requires Valid()
      modifies this
      ensures Valid() && now == old(now)
      ensures hashes == old(hashes) - {k} && failures == old(failures) - {k} && slipped == old(slipped) - {k}
    {
      hide Spaced, Stands;
      hashes := hashes - {k};
      failures := failures - {k};
      slipped := slipped - {k};
      forall j ensures HashOk(hashes, failures, slipped, j, now) {
        assert HashOk(old(hashes), old(failures), old(slipped), j, now);
      }
    }

    /** Redis drops the hash any time from its expiry on; no later check is answered differently. */
    method Expire(k: Key, time: real)
      requires Valid() && now <= time && k in hashes && hashes[k].expireAt <= time
      modifies this
      ensures Valid() && now == time
      ensures hashes == old(hashes) - {k} && failures == old(failures) - {k} && slipped == old(slipped) - {k}
      ensures forall t :: time <= t ==> Allowed(old(hashes)[k].r, t) == Allowed(FRESH, t)
    {
      hide Spaced, Stands;
      assert HashOk(hashes, failures, slipped, k, now);
      LaterHolds(hashes, failures, slipped, now, time);
      now := time;
      RecordSuccess(k);
    }
  }

  predicate Expired(hashes: map<Key, Hash>, k: Key, time: real) {
    k !in hashes || hashes[k].expireAt <= time
  }

  lemma FreshStands(now: real)
    ensures Stands(FRESH, [], now) && Spaced([])
  {
  }

  lemma LaterHolds(hashes: map<Key, Hash>, failures: map<Key, seq<real>>, slipped: set<Key>, now: real, time: real)
    requires now <= time && forall k :: HashOk(hashes, failures, slipped, k, now)
    ensures forall k :: HashOk(hashes, failures, slipped, k, time)
  {
    hide Spaced, Stands;
    forall k ensures HashOk(hashes, failures, slipped, k, time) {
      assert HashOk(hashes, failures, slipped, k, now);
      if k in hashes { StandsLater(hashes[k].r, FailuresOf(failures, k), now, time); }
    }
  }

  /** The bound that holds in memory holds in Redis. */
  lemma RedisBackoffHolds(l: RedisLimiter, k: Key, n: nat)
    requires l.Valid() && k !in l.slipped && 4 + n < |FailuresOf(l.failures, k)|
    ensures var f := FailuresOf(l.failures, k);
      && f[4 + n] >= f[4] + SumOfBackoffs(n)
      && (n >= 4 ==> f[4 + n] >= f[4] + 450.0 + 900.0 * (n - 4) as real)
  {
    assert HashOk(l.hashes, l.failures, l.slipped, k, l.now);
    assert SpacedAt(FailuresOf(l.failures, k), n);
    SumClosedForm(n);
  }
}

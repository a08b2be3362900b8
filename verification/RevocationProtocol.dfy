/** Token revocation across many replicas: each with its own cache, one shared store, one
    database, and lookups that take time. How long a revoked token can still be accepted. */
module RevocationProtocol {
  import opened Options
  import opened Revocation

  type Replica = nat
  type Task = nat

  /** A database lookup in flight: what it read, and when. */
  datatype Lookup = Lookup(replica: Replica, jti: Jti, readAt: real, revoked: bool)

  /** The outages: whether the shared store can be reached, whether the database answers at all,
      and for which identifiers looking them up raises. */
  datatype System = System(
    now: real,
    storeUp: bool,
    databaseUp: bool,
    lookupFails: set<Jti>,
    revokedAt: map<Jti, real>,
    redis: map<Jti, string>,
    l1: map<Replica, Entries>,
    inFlight: map<Task, Lookup>)

  /** ttl is the cache's time to live, maxLookup the longest a database lookup takes. */
  datatype Params = Params(ttl: real, maxLookup: real, storeConfigured: bool)

  datatype Event =
    | Tick(time: real)
    | Outage(storeUp: bool, databaseUp: bool, lookupFails: set<Jti>)
    | Revoke(jti: Jti)
    | CacheHit(replica: Replica, jti: Jti, answer: bool)
    | RejectedUnchecked(replica: Replica, jti: Jti, raised: Jti)
    | RedisHit(replica: Replica, jti: Jti, answer: bool)
    | ReadDatabase(task: Task, replica: Replica, jti: Jti)
    | FinishLookup(task: Task, answer: bool, populate: bool)
    | Abandon(task: Task)
    | ForgetCached(replica: Replica, jti: Jti)
    | ExpireRedis(jti: Jti)

  function CacheOf(s: System, r: Replica): Entries {
    if r in s.l1 then s.l1[r] else map[]
  }

  function Cached(s: System, p: Params, r: Replica, j: Jti): Option<bool> {
    var live := Live(CacheOf(s, r), p.ttl, s.now);
    if j in live then Some(live[j].revoked) else None
  }

  function Remember(s: System, r: Replica, j: Jti, revoked: bool): map<Replica, Entries> {
    s.l1[r := CacheOf(s, r)[j := Stamp(revoked, s.now)]]
  }

  predicate StoreDown(p: Params, s: System) {
    p.storeConfigured && !s.storeUp
  }

  /** A check of j that misses the cache cannot be made: the store is configured but down, or
      looking j up raises. */
  predicate CannotCheck(p: Params, s: System, j: Jti) {
    StoreDown(p, s) || !s.databaseUp || j in s.lookupFails
  }

  ghost predicate Next(p: Params, s: System, e: Event, s': System) {
    match e
    // the clock; no lookup stays in flight longer than maxLookup
    case Tick(t) =>
      s.now <= t && s' == s.(now := t) && forall k :: k in s.inFlight ==> t - s.inFlight[k].readAt <= p.maxLookup
    case Outage(storeUp, databaseUp, fails) => s' == s.(storeUp := storeUp, databaseUp := databaseUp, lookupFails := fails)
    case Revoke(j) => s' == if j in s.revokedAt then s else s.(revokedAt := s.revokedAt[j := s.now])
    case CacheHit(r, j, answer) => Cached(s, p, r, j) == Some(answer) && s' == s
    // the lookup that raises is of j, or of another identifier in the same batch
    case RejectedUnchecked(r, j, raised) => Cached(s, p, r, j) == None && CannotCheck(p, s, raised) && s' == s
    case RedisHit(r, j, answer) =>
      && Cached(s, p, r, j) == None && p.storeConfigured && s.storeUp && j in s.redis
      && answer == (s.redis[j] == "1") && s' == s.(l1 := Remember(s, r, j, answer))
    case ReadDatabase(k, r, j) =>
      && Cached(s, p, r, j) == None && !CannotCheck(p, s, j) && k !in s.inFlight
      && s' == s.(inFlight := s.inFlight[k := Lookup(r, j, s.now, j in s.revokedAt)])
    case FinishLookup(k, answer, populate) =>
      && k in s.inFlight && answer == s.inFlight[k].revoked && (populate ==> p.storeConfigured && s.storeUp)
      && s' == s.(l1 := Remember(s, s.inFlight[k].replica, s.inFlight[k].jti, answer),
                  redis := if answer && populate then s.redis[s.inFlight[k].jti := "1"] else s.redis,
                  inFlight := s.inFlight - {k})
    case Abandon(k) => s' == s.(inFlight := s.inFlight - {k})
    // clean-up of expired entries, and restarts, can drop any entry at any time
    case ForgetCached(r, j) => s' == s.(l1 := s.l1[r := CacheOf(s, r) - {j}])
    case ExpireRedis(j) => s' == s.(redis := s.redis - {j})
  }

  ghost predicate Init(s: System) {
    s.redis == map[] && s.l1 == map[] && s.inFlight == map[] && s.revokedAt == map[]
  }

  /** states[i] leads to states[i + 1] by events[i], from an initial state. */
  ghost predicate IsRun(p: Params, states: seq<System>, events: seq<Event>) {
    && |states| == |events| + 1 && Init(states[0])
    && forall i :: 0 <= i < |events| ==> Next(p, states[i], events[i], states[i + 1])
  }

  /** The database's verdict `revoked`, obtained at time t, is not older than it should be: a
      token reported valid had not been revoked before t. */
  ghost predicate VerdictHolds(s: System, j: Jti, revoked: bool, t: real) {
    if revoked then j in s.revokedAt else j in s.revokedAt ==> t <= s.revokedAt[j]
  }

  ghost predicate RedisTruthful(s: System) {
    forall j :: j in s.redis ==> s.redis[j] == "1" && j in s.revokedAt
  }

  ghost predicate InPast(s: System) {
    forall j :: j in s.revokedAt ==> s.revokedAt[j] <= s.now
  }

  ghost predicate EntryTruthful(p: Params, s: System, r: Replica, j: Jti) {
    j in CacheOf(s, r) ==>
      var e := CacheOf(s, r)[j];
      e.at <= s.now && VerdictHolds(s, j, e.revoked, e.at - p.maxLookup)
  }

  ghost predicate LookupTruthful(p: Params, s: System, k: Task) {
    k in s.inFlight ==>
      var l := s.inFlight[k];
      0.0 <= s.now - l.readAt <= p.maxLookup && VerdictHolds(s, l.jti, l.revoked, l.readAt)
  }

  ghost predicate Inv(p: Params, s: System) {
    && RedisTruthful(s) && InPast(s)
    && (forall r, j :: EntryTruthful(p, s, r, j))
    && (forall k :: LookupTruthful(p, s, k))
  }

  lemma InvInductive(p: Params, s: System, e: Event, s': System)
    requires p.maxLookup >= 0.0 && Inv(p, s) && Next(p, s, e, s')
    ensures Inv(p, s')
  {
    if e.FinishLookup? { assert LookupTruthful(p, s, e.task); }
    forall r, j ensures EntryTruthful(p, s', r, j) {
      EntryStays(p, s, e, s', r, j);
    }
    forall k ensures LookupTruthful(p, s', k) {
      LookupStays(p, s, e, s', k);
    }
    TruthStays(p, s, e, s');
    hide Next, EntryTruthful, LookupTruthful, RedisTruthful, InPast;
  }

  lemma LookupStays(p: Params, s: System, e: Event, s': System, k: Task)
    requires p.maxLookup >= 0.0 && InPast(s) && LookupTruthful(p, s, k) && Next(p, s, e, s')
    ensures LookupTruthful(p, s', k)
  {
  }

  lemma TruthStays(p: Params, s: System, e: Event, s': System)
    requires RedisTruthful(s) && InPast(s) && Next(p, s, e, s') && (e.FinishLookup? ==> LookupTruthful(p, s, e.task))
    ensures RedisTruthful(s') && InPast(s')
  {
  }

  lemma EntryStays(p: Params, s: System, e: Event, s': System, r: Replica, j: Jti)
    requires p.maxLookup >= 0.0 && RedisTruthful(s) && InPast(s) && EntryTruthful(p, s, r, j) && Next(p, s, e, s')
    requires e.FinishLookup? ==> LookupTruthful(p, s, e.task)
    ensures EntryTruthful(p, s', r, j)
  {
  }

  lemma {:induction false} InvAlong(p: Params, states: seq<System>, events: seq<Event>, i: nat)
    requires p.maxLookup >= 0.0 && IsRun(p, states, events) && i < |states|
    ensures Inv(p, states[i])
  {
    if i > 0 {
      InvAlong(p, states, events, i - 1);
      assert Next(p, states[i - 1], events[i - 1], states[i]);
      InvInductive(p, states[i - 1], events[i - 1], states[i]);
    }
  }

  /** The verdict an event gives on a token, if it gives one. */
  function Verdict(s: System, e: Event): Option<(Jti, bool)> {
    match e
    case CacheHit(_, j, answer) => Some((j, answer))
    case RejectedUnchecked(_, j, _) => Some((j, true))
    case RedisHit(_, j, answer) => Some((j, answer))
    case FinishLookup(k, answer, _) => if k in s.inFlight then Some((s.inFlight[k].jti, answer)) else None
    case _ => None
  }

  lemma VerdictTruthful(p: Params, s: System, e: Event, s': System, j: Jti)
    requires p.maxLookup >= 0.0 && Inv(p, s) && Next(p, s, e, s')
    requires Verdict(s, e).Some? && Verdict(s, e).value.0 == j && !e.RejectedUnchecked?
    ensures if Verdict(s, e).value.1 then j in s.revokedAt
            else j in s.revokedAt ==> s.now <= s.revokedAt[j] + p.maxLookup + (if p.ttl >= 0.0 then p.ttl else 0.0)
  {
    match e
    case CacheHit(r, _, _) => assert EntryTruthful(p, s, r, j);
    case FinishLookup(k, _, _) => assert LookupTruthful(p, s, k);
    case _ =>
  }

  /** Bounded staleness, in every run and on every replica: whoever accepts a revoked token
      does so no later than one time to live plus one lookup after the revocation. */
  lemma BoundedStaleness(p: Params, states: seq<System>, events: seq<Event>, i: nat, j: Jti)
    requires p.maxLookup >= 0.0 && p.ttl >= 0.0 && IsRun(p, states, events) && i < |events|
    requires Verdict(states[i], events[i]) == Some((j, false)) && j in states[i].revokedAt
    ensures states[i].now <= states[i].revokedAt[j] + p.ttl + p.maxLookup
  {
    InvAlong(p, states, events, i);
    VerdictTruthful(p, states[i], events[i], states[i + 1], j);
  }

  /** While the shared store is up and no lookup raises, no token is rejected that was not
      revoked, whatever failed before. */
  lemma NoFalseRejection(p: Params, states: seq<System>, events: seq<Event>, i: nat, j: Jti)
    requires p.maxLookup >= 0.0 && IsRun(p, states, events) && i < |events|
    requires (forall x :: !CannotCheck(p, states[i], x)) && Verdict(states[i], events[i]) == Some((j, true))
    ensures j in states[i].revokedAt
  {
    InvAlong(p, states, events, i);
    assert Next(p, states[i], events[i], states[i + 1]);
    VerdictTruthful(p, states[i], events[i], states[i + 1], j);
  }

  lemma RevokedStep(p: Params, s: System, e: Event, s': System, j: Jti)
    requires Next(p, s, e, s') && j in s.revokedAt
    ensures j in s'.revokedAt && s'.revokedAt[j] == s.revokedAt[j]
  {
  }

  lemma {:induction false} RevokedStays(p: Params, states: seq<System>, events: seq<Event>, i: nat, k: nat, j: Jti)
    requires IsRun(p, states, events) && i <= k < |states| && j in states[i].revokedAt
    ensures j in states[k].revokedAt && states[k].revokedAt[j] == states[i].revokedAt[j]
  {
    hide Next;
    if i < k {
      RevokedStays(p, states, events, i, k - 1, j);
      assert Next(p, states[k - 1], events[k - 1], states[k]);
      RevokedStep(p, states[k - 1], events[k - 1], states[k], j);
    }
  }

  /** Once a token is revoked, every verdict later than the bound rejects it, for ever. */
  lemma RejectedForGood(p: Params, states: seq<System>, events: seq<Event>, i: nat, k: nat, j: Jti)
    requires p.maxLookup >= 0.0 && p.ttl >= 0.0 && IsRun(p, states, events) && i <= k < |events|
    requires j in states[i].revokedAt && states[k].now > states[i].revokedAt[j] + p.ttl + p.maxLookup
    requires Verdict(states[k], events[k]).Some? && Verdict(states[k], events[k]).value.0 == j
    ensures Verdict(states[k], events[k]) == Some((j, true))
  {
    RevokedStays(p, states, events, i, k, j);
    if Verdict(states[k], events[k]) == Some((j, false)) {
      BoundedStaleness(p, states, events, k, j);
    }
  }

  /** The cache's time to live alone is not a bound: a lookup that read the database just
      before the revocation can store its answer maxLookup later. The bound is attained. */
  lemma StalenessAttained(p: Params, j: Jti) returns (states: seq<System>, events: seq<Event>)
    requires p.maxLookup >= 0.0 && p.ttl >= 0.0
    ensures IsRun(p, states, events) && |events| == 6
    ensures Verdict(states[5], events[5]) == Some((j, false))
    ensures j in states[5].revokedAt && states[5].now == states[5].revokedAt[j] + p.ttl + p.maxLookup
  {
    var s0 := System(0.0, true, true, {}, map[], map[], map[], map[]);
    var look := Lookup(0, j, 0.0, false);
    var s1 := s0.(inFlight := map[0 := look]);
    var s2 := s1.(revokedAt := map[j := 0.0]);
    var s3 := s2.(now := p.maxLookup);
    var s4 := s3.(l1 := map[0 := map[j := Stamp(false, p.maxLookup)]], inFlight := map[]);
    var s5 := s4.(now := p.maxLookup + p.ttl);
    states := [s0, s1, s2, s3, s4, s5, s5];
    events := [ReadDatabase(0, 0, j), Revoke(j), Tick(p.maxLookup), FinishLookup(0, false, false), Tick(p.maxLookup + p.ttl), CacheHit(0, j, false)];
    assert s3.inFlight - {0} == map[];
    assert Next(p, s0, events[0], s1) && Next(p, s1, events[1], s2) && Next(p, s2, events[2], s3);
    assert Remember(s3, 0, j, false) == s4.l1;
    assert Next(p, s3, events[3], s4) && Next(p, s4, events[4], s5);
    assert j in Live(CacheOf(s5, 0), p.ttl, s5.now);
    assert Next(p, s5, events[5], s5);
  }

  /** What one check on replica r sees of the system. */
  function ReplicaView(p: Params, s: System, r: Replica): State {
    State(Live(CacheOf(s, r), p.ttl, s.now), s.redis)
  }

  /** The services behave for these identifiers as the outages say; reads and writes of the store
      may still raise. */
  predicate Matches(p: Params, s: System, env: Env, js: seq<Jti>) {
    && env.revoked == s.revokedAt.Keys && env.redisConfigured == p.storeConfigured && env.redisUp == s.storeUp
    && forall j :: j in js ==> (j in env.lookupFails <==> !s.databaseUp || j in s.lookupFails)
  }

  /** Nothing but the replica's own cache and the shared store is different. */
  ghost predicate OnlyOf(r: Replica, s: System, s': System) {
    && s' == s.(l1 := s'.l1, redis := s'.redis)
    && forall other :: other != r ==> CacheOf(s', other) == CacheOf(s, other)
  }

  /** What the replica sees once it has stored a verdict on j. */
  function Learned(view: State, now: real, j: Jti, v: bool, write: bool): State {
    State(view.live[j := Stamp(v, now)], if write then view.redis[j := "1"] else view.redis)
  }

  /** Asking the cache, */
  lemma CacheStep(p: Params, s: System, r: Replica, j: Jti)
    requires j in ReplicaView(p, s, r).live
    ensures var e := CacheHit(r, j, ReplicaView(p, s, r).live[j].revoked);
      Next(p, s, e, s) && Verdict(s, e) == Some((j, ReplicaView(p, s, r).live[j].revoked))
  {
  }

  /** giving up, */
  lemma RejectStep(p: Params, s: System, r: Replica, j: Jti, raised: Jti)
    requires j !in ReplicaView(p, s, r).live && CannotCheck(p, s, raised)
    ensures Next(p, s, RejectedUnchecked(r, j, raised), s) && Verdict(s, RejectedUnchecked(r, j, raised)) == Some((j, true))
  {
  }

  /** asking the shared store, */
  lemma StoreStep(p: Params, s: System, r: Replica, j: Jti) returns (s': System)
    requires p.ttl >= 0.0 && j !in ReplicaView(p, s, r).live && p.storeConfigured && s.storeUp && j in s.redis
    ensures var e := RedisHit(r, j, s.redis[j] == "1");
      Next(p, s, e, s') && Verdict(s, e) == Some((j, s.redis[j] == "1"))
    ensures ReplicaView(p, s', r) == Learned(ReplicaView(p, s, r), s.now, j, s.redis[j] == "1", false) && OnlyOf(r, s, s')
  {
    s' := s.(l1 := Remember(s, r, j, s.redis[j] == "1"));
    LiveAfterStore(CacheOf(s, r), p.ttl, s.now, j, s.redis[j] == "1");
  }

  /** and looking up are steps of the system. */
  lemma LookupSteps(p: Params, s: System, r: Replica, j: Jti, k: Task, populate: bool) returns (middle: System, s': System)
    requires p.ttl >= 0.0 && j !in ReplicaView(p, s, r).live && !CannotCheck(p, s, j) && k !in s.inFlight
    requires populate ==> p.storeConfigured
    ensures var revoked := j in s.revokedAt; var e := FinishLookup(k, revoked, populate);
      && Next(p, s, ReadDatabase(k, r, j), middle) && Next(p, middle, e, s') && Verdict(middle, e) == Some((j, revoked))
      && ReplicaView(p, s', r) == Learned(ReplicaView(p, s, r), s.now, j, revoked, revoked && populate)
    ensures OnlyOf(r, s, s')
  {
    var revoked := j in s.revokedAt;
    middle := s.(inFlight := s.inFlight[k := Lookup(r, j, s.now, revoked)]);
    assert Next(p, s, ReadDatabase(k, r, j), middle);
    s' := FinishStep(p, s, middle, r, j, k, populate);
  }

  lemma FinishStep(p: Params, s: System, middle: System, r: Replica, j: Jti, k: Task, populate: bool) returns (s': System)
    requires p.ttl >= 0.0 && k !in s.inFlight && (populate ==> p.storeConfigured && s.storeUp)
    requires middle == s.(inFlight := s.inFlight[k := Lookup(r, j, s.now, j in s.revokedAt)])
    ensures var revoked := j in s.revokedAt; var e := FinishLookup(k, revoked, populate);
      && Next(p, middle, e, s') && Verdict(middle, e) == Some((j, revoked))
      && ReplicaView(p, s', r) == Learned(ReplicaView(p, s, r), s.now, j, revoked, revoked && populate)
    ensures OnlyOf(r, s, s')
  {
    var revoked := j in s.revokedAt;
    s' := s.(l1 := Remember(s, r, j, revoked), redis := if revoked && populate then s.redis[j := "1"] else s.redis);
    assert middle.inFlight - {k} == s.inFlight;
    LiveAfterStore(CacheOf(s, r), p.ttl, s.now, j, revoked);
    hide Live;
  }

  lemma LiveAfterStore(cache: Entries, ttl: real, now: real, j: Jti, revoked: bool)
    requires ttl >= 0.0
    ensures Live(cache[j := Stamp(revoked, now)], ttl, now) == Live(cache, ttl, now)[j := Stamp(revoked, now)]
  {
  }

  /** A check as the replica makes it at one instant is one or two steps of the system, with
      the same verdict and the same effect on the replica's live entries and the shared store. */
  lemma CheckIsSteps(p: Params, s: System, r: Replica, env: Env, j: Jti, k: Task) returns (e: Event, middle: System, s': System)
    requires p.ttl >= 0.0 && Matches(p, s, env, [j]) && k !in s.inFlight
    ensures (middle == s || Next(p, s, ReadDatabase(k, r, j), middle)) && Next(p, middle, e, s')
    ensures Verdict(middle, e) == Some((j, Answer(ReplicaView(p, s, r), env, j)))
    ensures ReplicaView(p, s', r) == After(ReplicaView(p, s, r), env, s.now, j) && OnlyOf(r, s, s')
  {
    hide Next, Verdict, Live;
    var view := ReplicaView(p, s, r);
    middle, s' := s, s;
    assert j in [j];
    if j in view.live {
      e := CacheHit(r, j, view.live[j].revoked);
      CacheStep(p, s, r, j);
    } else if Alone(view, env, j).None? {
      e := RejectedUnchecked(r, j, j);
      RejectStep(p, s, r, j, j);
    } else if ReadAlone(view, env, j) {
      e := RedisHit(r, j, s.redis[j] == "1");
      s' := StoreStep(p, s, r, j);
    } else {
      e := FinishLookup(k, j in s.revokedAt, CanPopulate(env, j));
      middle, s' := LookupSteps(p, s, r, j, k, CanPopulate(env, j));
    }
  }
}

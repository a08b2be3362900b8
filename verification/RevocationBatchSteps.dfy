/** The batch check as a run of the replicas' system. */
module RevocationBatchSteps {
  import opened Options
  import opened Revocation
  import opened RevocationBatch
  import opened RevocationProtocol

  function WithVerdict(answers: map<Jti, bool>, v: Option<(Jti, bool)>): map<Jti, bool> {
    match v
    case None => answers
    case Some((j, revoked)) => answers[j := revoked]
  }

  /** The events es lead from s to s' and give these verdicts. */
  ghost predicate Gives(p: Params, s: System, es: seq<Event>, s': System, answers: map<Jti, bool>)
    decreases |es|, 1
  {
    if es == [] then s' == s && answers == map[]
    else exists m, before :: GivesLast(p, s, es, m, before, s', answers)
  }

  ghost predicate GivesLast(p: Params, s: System, es: seq<Event>, m: System, before: map<Jti, bool>, s': System, answers: map<Jti, bool>)
    requires es != []
    decreases |es|, 0
  {
    var e := es[|es| - 1];
    Gives(p, s, es[..|es| - 1], m, before) && Next(p, m, e, s') && answers == WithVerdict(before, Verdict(m, e))
  }

  lemma GivesMore(p: Params, s: System, es: seq<Event>, m: System, before: map<Jti, bool>, e: Event, s': System)
    requires Gives(p, s, es, m, before) && Next(p, m, e, s')
    ensures Gives(p, s, es + [e], s', WithVerdict(before, Verdict(m, e)))
  {
    var more := es + [e];
    assert more[..|more| - 1] == es && more[|more| - 1] == e;
    hide Next, Verdict, WithVerdict;
    assert GivesLast(p, s, more, m, before, s', WithVerdict(before, Verdict(m, e)));
  }

  /** What the replica sees when the batch is through with the identifiers in done. */
  function SeenAfter(view: State, env: Env, now: real, js: seq<Jti>, done: seq<Jti>): State {
    State(view.live + Stamped(LearnedOf(view, env, js, done), now), view.redis + WrittenOf(view, env, js, done))
  }

  function LearnedOf(view: State, env: Env, js: seq<Jti>, done: seq<Jti>): map<Jti, bool> {
    var learned := LearnedTogether(view, env, js);
    map j | j in learned && j in done :: learned[j]
  }

  function WrittenOf(view: State, env: Env, js: seq<Jti>, done: seq<Jti>): map<Jti, string> {
    map j | j in done && Writes(view, env, js, j) :: "1"
  }

  predicate Writes(view: State, env: Env, js: seq<Jti>, j: Jti) {
    j in ServedOf(view, env, js) && j in env.revoked && CanPopulate(env, j)
  }

  function AnswersOf(view: State, env: Env, js: seq<Jti>, done: seq<Jti>): map<Jti, bool> {
    AnswersWith(view, done, LearnedTogether(view, env, js))
  }

  /** Identifiers that are through do not interfere with the others. */
  lemma OthersUnchanged(view: State, env: Env, now: real, js: seq<Jti>, done: seq<Jti>, j: Jti)
    requires j !in done
    ensures var seen := SeenAfter(view, env, now, js, done);
      && (j in seen.live <==> j in view.live) && (j in view.live ==> seen.live[j] == view.live[j])
      && (j in seen.redis <==> j in view.redis) && (j in view.redis ==> seen.redis[j] == view.redis[j])
  {
    hide LearnedTogether, Writes;
  }

  lemma LearnedOneMore(view: State, env: Env, js: seq<Jti>, done: seq<Jti>, j: Jti)
    ensures var learned := LearnedTogether(view, env, js);
      LearnedOf(view, env, js, done + [j])
      == if j in learned then LearnedOf(view, env, js, done)[j := learned[j]] else LearnedOf(view, env, js, done)
  {
    hide LearnedTogether;
  }

  lemma WrittenOneMore(view: State, env: Env, js: seq<Jti>, done: seq<Jti>, j: Jti)
    ensures WrittenOf(view, env, js, done + [j])
         == if Writes(view, env, js, j) then WrittenOf(view, env, js, done)[j := "1"] else WrittenOf(view, env, js, done)
  {
    hide Writes;
  }

  lemma WrittenIsLearned(view: State, env: Env, js: seq<Jti>, j: Jti)
    ensures Writes(view, env, js, j) ==> j in LearnedTogether(view, env, js)
  {
    StoresAreLearned(view, env, js);
    hide LearnedTogether, ServedOf, Missing, Stored;
    assert Writes(view, env, js, j) ==> j in StoresOf(view, env, js);
  }

  lemma SeenMore(view: State, env: Env, now: real, js: seq<Jti>, done: seq<Jti>, j: Jti)
    ensures var learned := LearnedTogether(view, env, js);
      SeenAfter(view, env, now, js, done + [j])
      == if j in learned then Learned(SeenAfter(view, env, now, js, done), now, j, learned[j], Writes(view, env, js, j))
         else SeenAfter(view, env, now, js, done)
  {
    var learned, l := LearnedTogether(view, env, js), LearnedOf(view, env, js, done);
    LearnedOneMore(view, env, js, done, j);
    WrittenOneMore(view, env, js, done, j);
    WrittenIsLearned(view, env, js, j);
    hide LearnedTogether, LearnedOf, WrittenOf, Writes, Stamped;
    if j in learned {
      StampedMore(l, now, j, learned[j]);
      PutLast(view.live, Stamped(l, now), j, Stamp(learned[j], now));
      PutLast(view.redis, WrittenOf(view, env, js, done), j, "1");
    }
  }

  lemma AnswersOneMore(view: State, env: Env, js: seq<Jti>, done: seq<Jti>, j: Jti)
    ensures AnswersOf(view, env, js, done + [j])
         == AnswersOf(view, env, js, done)[j := AnswersOf(view, env, js, [j])[j]]
  {
    hide LearnedTogether;
  }

  /** What the batch does about j, and why. */
  lemma Outcome(view: State, env: Env, js: seq<Jti>, j: Jti)
    requires j in js
    ensures var answer, learned := AnswersOf(view, env, js, [j])[j], LearnedTogether(view, env, js);
      if j in view.live then answer == view.live[j].revoked && j !in learned
      else if RedisDown(env) then answer && j !in learned
      else if ReadTogether(view, env, j) then j in learned && answer == learned[j] == (view.redis[j] == "1") && !Writes(view, env, js, j)
      else if j in ServedOf(view, env, js) then
        j in learned && answer == learned[j] == (j in env.revoked) && j !in env.lookupFails
      else answer && j !in learned && exists raised :: raised in js && raised in env.lookupFails
  {
    var ms := Missing(view, js);
    var ps := Pending(view, env, ms);
    MissingMembers(view, js);
    LayerMembers(view, env, ms);
    if j in Served(env, ps) {
      ServedDoesNotFail(env, ps, j);
      ServedWerePending(env, ps);
    } else if j in ps {
      var n := FirstFailing(env, ps);
      assert ps[..|ps|] == ps;
      assert ps[n] in ps && ps[n] in env.lookupFails;
    }
    hide Missing, Pending, Served;
  }

  lemma OneMore(p: Params, s: System, r: Replica, env: Env, js: seq<Jti>, k: Task, done: seq<Jti>, j: Jti, es: seq<Event>, m: System)
    returns (es': seq<Event>, s': System)
    requires p.ttl >= 0.0 && Matches(p, s, env, js) && k !in s.inFlight && j !in done && j in js && OnlyOf(r, s, m)
    requires var view := ReplicaView(p, s, r);
      && Gives(p, s, es, m, AnswersOf(view, env, js, done))
      && ReplicaView(p, m, r) == SeenAfter(view, env, s.now, js, done)
    ensures var view := ReplicaView(p, s, r);
      && Gives(p, s, es', s', AnswersOf(view, env, js, done + [j]))
      && ReplicaView(p, s', r) == SeenAfter(view, env, s.now, js, done + [j])
    ensures OnlyOf(r, s, s')
  {
    var view, seen := ReplicaView(p, s, r), ReplicaView(p, m, r);
    OthersUnchanged(view, env, s.now, js, done, j);
    SeenMore(view, env, s.now, js, done, j);
    AnswersOneMore(view, env, js, done, j);
    Outcome(view, env, js, j);
    hide Gives, AnswersOf, SeenAfter, LearnedTogether, ServedOf, Writes, Next, Verdict, Live;
    if j in view.live {
      CacheStep(p, m, r, j);
      es', s' := es + [CacheHit(r, j, seen.live[j].revoked)], m;
      OneEvent(p, s, es, m, AnswersOf(view, env, js, done), CacheHit(r, j, seen.live[j].revoked), s');
    } else if RedisDown(env) || (!ReadTogether(view, env, j) && j !in ServedOf(view, env, js)) {
      var raised := j;
      if !RedisDown(env) { raised :| raised in js && raised in env.lookupFails; }
      RejectStep(p, m, r, j, raised);
      es', s' := es + [RejectedUnchecked(r, j, raised)], m;
      OneEvent(p, s, es, m, AnswersOf(view, env, js, done), RejectedUnchecked(r, j, raised), s');
    } else if ReadTogether(view, env, j) {
      s' := StoreStep(p, m, r, j);
      es' := es + [RedisHit(r, j, m.redis[j] == "1")];
      OneEvent(p, s, es, m, AnswersOf(view, env, js, done), RedisHit(r, j, m.redis[j] == "1"), s');
    } else {
      WritesServed(view, env, js, j);
      es', s' := OneLookup(p, s, r, j, k, CanPopulate(env, j), es, m, AnswersOf(view, env, js, done));
    }
  }

  lemma WritesServed(view: State, env: Env, js: seq<Jti>, j: Jti)
    requires j in ServedOf(view, env, js)
    ensures Writes(view, env, js, j) == (j in env.revoked && CanPopulate(env, j))
  {
  }

  lemma OneEvent(p: Params, s: System, es: seq<Event>, m: System, answers: map<Jti, bool>, e: Event, s': System)
    requires Gives(p, s, es, m, answers) && Next(p, m, e, s') && Verdict(m, e).Some?
    ensures var (j, v) := Verdict(m, e).value; Gives(p, s, es + [e], s', answers[j := v])
  {
    hide Next, Verdict, Gives;
    GivesMore(p, s, es, m, answers, e, s');
  }

  lemma OneLookup(p: Params, s: System, r: Replica, j: Jti, k: Task, populate: bool, es: seq<Event>, m: System, answers: map<Jti, bool>)
    returns (es': seq<Event>, s': System)
    requires p.ttl >= 0.0 && Gives(p, s, es, m, answers)
    requires j !in ReplicaView(p, m, r).live && !CannotCheck(p, m, j) && k !in m.inFlight && (populate ==> p.storeConfigured)
    ensures var revoked := j in m.revokedAt;
      && Gives(p, s, es', s', answers[j := revoked])
      && ReplicaView(p, s', r) == Learned(ReplicaView(p, m, r), m.now, j, revoked, revoked && populate)
    ensures OnlyOf(r, m, s')
  {
    var middle;
    middle, s' := LookupSteps(p, m, r, j, k, populate);
    var read, finish := ReadDatabase(k, r, j), FinishLookup(k, j in m.revokedAt, populate);
    NoVerdict(m, k, r, j);
    hide Gives, Next, Verdict, Live, CannotCheck;
    GivesMore(p, s, es, m, answers, read, middle);
    OneEvent(p, s, es + [read], middle, answers, finish, s');
    es' := es + [read] + [finish];
  }

  lemma NoVerdict(s: System, k: Task, r: Replica, j: Jti)
    ensures Verdict(s, ReadDatabase(k, r, j)) == None
  {
  }

  /** The batch, identifier by identifier, in any order. */
  lemma {:induction false} StepsFor(p: Params, s: System, r: Replica, env: Env, js: seq<Jti>, k: Task, done: seq<Jti>) returns (es: seq<Event>, s': System)
    requires p.ttl >= 0.0 && Matches(p, s, env, js) && k !in s.inFlight && Distinct(done) && forall j :: j in done ==> j in js
    ensures var view := ReplicaView(p, s, r);
      && Gives(p, s, es, s', AnswersOf(view, env, js, done))
      && ReplicaView(p, s', r) == SeenAfter(view, env, s.now, js, done)
    ensures OnlyOf(r, s, s')
  {
    var view := ReplicaView(p, s, r);
    if done == [] {
      es, s' := [], s;
      assert view.live + Stamped(LearnedOf(view, env, js, []), s.now) == view.live;
      assert view.redis + WrittenOf(view, env, js, []) == view.redis;
    } else {
      var init, j := done[..|done| - 1], done[|done| - 1];
      assert done == init + [j];
      var es0, m := StepsFor(p, s, r, env, js, k, init);
      es, s' := OneMore(p, s, r, env, js, k, init, j, es0, m);
    }
  }

  /** The batch as the replica makes it at one instant is a run of steps of the system, with the
      batch's answers as verdicts and the batch's effect on the live entries and the shared store:
      also where one lookup that raises rejects the identifiers behind it. */
  lemma BatchIsSteps(p: Params, s: System, r: Replica, env: Env, js: seq<Jti>, k: Task, order: seq<Jti>) returns (es: seq<Event>, s': System)
    requires p.ttl >= 0.0 && Matches(p, s, env, js) && k !in s.inFlight
    requires Distinct(order) && forall j :: j in order <==> j in js
    ensures var view := ReplicaView(p, s, r);
      && Gives(p, s, es, s', AnswersWith(view, js, LearnedTogether(view, env, js)))
      && ReplicaView(p, s', r) == StateTogether(view, env, s.now, js)
    ensures OnlyOf(r, s, s')
  {
    var view := ReplicaView(p, s, r);
    es, s' := StepsFor(p, s, r, env, js, k, order);
    AllDone(view, env, s.now, js, order);
    hide Gives;
  }

  lemma AllDone(view: State, env: Env, now: real, js: seq<Jti>, order: seq<Jti>)
    requires forall j :: j in order <==> j in js
    ensures AnswersOf(view, env, js, order) == AnswersWith(view, js, LearnedTogether(view, env, js))
    ensures SeenAfter(view, env, now, js, order) == StateTogether(view, env, now, js)
  {
    StoresAreLearned(view, env, js);
    var served := ServedOf(view, env, js);
    assert LearnedOf(view, env, js, order) == LearnedTogether(view, env, js);
    forall j | j in served && !RedisDown(env) ensures j in js {
      assert j in StoresOf(view, env, js) && j in LearnedTogether(view, env, js);
    }
    hide ServedOf, LearnedTogether, StoresOf;
    if RedisDown(env) {
      assert view.redis + WrittenOf(view, env, js, order) == view.redis;
    } else {
      assert WrittenOf(view, env, js, order) == Written(env, served);
    }
  }
}

/** The batch check against the single checks of the same identifiers in order: exactly when
    they give the same answers, leave the same state, and leave the same dictionary. */
module RevocationBatch {
  import opened Options
  import opened Revocation

  // ---- the single checks, one after the other ----------------------------------------------------

  /** The dictionary after single checks. */
  function SequentialCache(c: Entries, p: Setting, s: State, env: Env, js: seq<Jti>): Entries {
    if js == [] then c
    else
      var init, j := js[..|js| - 1], js[|js| - 1];
      AfterCheck(SequentialCache(c, p, s, env, init), p, Found(Sequential(s, env, p.now, init).1, env, j), j)
  }

  method CheckEach(checker: Checker, env: Env, now: real, js: seq<Jti>) returns (result: map<Jti, bool>)
    requires checker.l1.ttl >= 0.0
    modifies checker.l1, checker.redis
    ensures (result, checker.View(now)) == Sequential(old(checker.View(now)), env, now, js)
    ensures checker.l1.cache == SequentialCache(old(checker.l1.cache), checker.l1.At(now), old(checker.View(now)), env, js)
  {
    hide Answer, After, Found, AfterCheck;
    ghost var s, c := checker.View(now), checker.l1.cache;
    result := map[];
    for i := 0 to |js|
      invariant (result, checker.View(now)) == Sequential(s, env, now, js[..i])
      invariant checker.l1.cache == SequentialCache(c, checker.l1.At(now), s, env, js[..i])
    {
      assert js[..i + 1][..i] == js[..i] && js[..i + 1][i] == js[i];
      var revoked := checker.Check(env, now, js[i]);
      result := result[js[i] := revoked];
    }
    assert js[..|js|] == js;
  }

  // ---- answers and state --------------------------------------------------------------------------

  /** The shared store says of j what the database says. */
  predicate StoreAgrees(s: State, env: Env, j: Jti)
    requires j in s.redis
  {
    (s.redis[j] == "1") == (j in env.revoked)
  }

  /** On j the batch finds out what a single check does: both read the shared store; or one
      reads it, the other gets through to the database, and the two say the same; or both go
      to the database, and the batch gets that far unless the lookup of j raises anyway. */
  predicate AgreesOn(s: State, env: Env, served: seq<Jti>, j: Jti) {
    if RedisDown(env) || (ReadAlone(s, env, j) && ReadTogether(s, env, j)) then true
    else if ReadAlone(s, env, j) then j in served && StoreAgrees(s, env, j)
    else if ReadTogether(s, env, j) then j !in env.lookupFails && StoreAgrees(s, env, j)
    else j in served || j in env.lookupFails
  }

  ghost predicate Agrees(s: State, env: Env, js: seq<Jti>) {
    forall j :: j in js && j !in s.live ==> AgreesOn(s, env, ServedOf(s, env, js), j)
  }

  lemma ServedDoesNotFail(env: Env, ps: seq<Jti>, j: Jti)
    requires j in Served(env, ps)
    ensures j !in env.lookupFails
  {
  }

  lemma SameFinding(s: State, env: Env, js: seq<Jti>, j: Jti)
    ensures Alone(s, env, j) == Together(s, env, ServedOf(s, env, js), j) <==> AgreesOn(s, env, ServedOf(s, env, js), j)
  {
    var ps := Pending(s, env, Missing(s, js));
    if j in Served(env, ps) { ServedDoesNotFail(env, ps, j); }
    hide Served, Pending, Missing;
  }

  lemma SameLearned(s: State, env: Env, js: seq<Jti>)
    ensures LearnedAlone(s, env, js) == LearnedTogether(s, env, js) <==> Agrees(s, env, js)
  {
    var served, a, t := ServedOf(s, env, js), LearnedAlone(s, env, js), LearnedTogether(s, env, js);
    forall j ensures Alone(s, env, j) == Together(s, env, served, j) <==> AgreesOn(s, env, served, j) {
      SameFinding(s, env, js, j);
    }
    hide Alone, Together, AgreesOn, ServedOf;
    if a == t {
      forall j | j in js && j !in s.live ensures Alone(s, env, j) == Together(s, env, served, j) {
        assert j in a <==> j in t;
      }
    }
  }

  lemma AnswersFromLearned(s: State, env: Env, js: seq<Jti>)
    ensures AnswersAlone(s, env, js) == AnswersWith(s, js, LearnedAlone(s, env, js))
  {
    hide Alone;
  }

  lemma StampedInjective(live: Entries, a: map<Jti, bool>, t: map<Jti, bool>, now: real)
    requires forall j :: j in a || j in t ==> j !in live
    ensures live + Stamped(a, now) == live + Stamped(t, now) <==> a == t
  {
    var x, y := live + Stamped(a, now), live + Stamped(t, now);
    if x == y {
      forall j | j in a ensures j in t && a[j] == t[j] { assert j in x && x[j] == y[j]; }
      forall j | j in t ensures j in a { assert j in y; }
    }
  }

  /** Writes to the shared store differ at most by writing again what it says already. */
  lemma SameWrites(s: State, env: Env, js: seq<Jti>)
    requires !RedisDown(env) && LearnedAlone(s, env, js) == LearnedTogether(s, env, js)
    ensures s.redis + WrittenAlone(s, env, js) == s.redis + Written(env, ServedOf(s, env, js))
  {
    var served, learned := ServedOf(s, env, js), LearnedTogether(s, env, js);
    StoresAreLearned(s, env, js);
    SameLearned(s, env, js);
    var x, y := s.redis + WrittenAlone(s, env, js), s.redis + Written(env, served);
    forall j ensures j in x <==> j in y {
      SameWrite(s, env, js, j);
    }
    forall j | j in x && j in y ensures x[j] == y[j] {
      SameWrite(s, env, js, j);
    }
  }

  lemma SameWrite(s: State, env: Env, js: seq<Jti>, j: Jti)
    requires !RedisDown(env) && Agrees(s, env, js)
    ensures var a, t := WrittenAlone(s, env, js), Written(env, ServedOf(s, env, js));
      ((j in a) != (j in t)) ==> j in s.redis && s.redis[j] == "1"
  {
    StoresAreLearned(s, env, js);
    if j in ServedOf(s, env, js) { ServedDoesNotFail(env, Pending(s, env, Missing(s, js)), j); }
    hide ServedOf, StoresOf, LearnedTogether;
  }

  lemma AgreeingIsSame(s: State, env: Env, now: real, js: seq<Jti>)
    requires Agrees(s, env, js)
    ensures AnswersAlone(s, env, js) == AnswersWith(s, js, LearnedTogether(s, env, js))
    ensures StateAlone(s, env, now, js) == StateTogether(s, env, now, js)
  {
    AnswersFromLearned(s, env, js);
    SameLearned(s, env, js);
    if RedisDown(env) {
      assert s.redis + WrittenAlone(s, env, js) == s.redis;
    } else {
      SameWrites(s, env, js);
    }
    hide AnswersAlone, AnswersWith, LearnedAlone, LearnedTogether, WrittenAlone, Written, ServedOf, Stamped, Agrees;
  }

  lemma SameIsAgreeing(s: State, env: Env, now: real, js: seq<Jti>)
    requires StateAlone(s, env, now, js).live == StateTogether(s, env, now, js).live
    ensures Agrees(s, env, js)
  {
    SameLearned(s, env, js);
    StampedInjective(s.live, LearnedAlone(s, env, js), LearnedTogether(s, env, js), now);
    hide LearnedAlone, LearnedTogether, Stamped, Agrees;
  }

  /** The batch gives the answers of the single checks, and leaves what they leave, exactly when
      it agrees with them on every identifier the cache does not know. */
  lemma BatchAgreesIff(s: State, env: Env, now: real, js: seq<Jti>)
    ensures (AnswersWith(s, js, LearnedTogether(s, env, js)), StateTogether(s, env, now, js)) == Sequential(s, env, now, js)
       <==> Agrees(s, env, js)
  {
    hide *;
    SequentialIsPointwise(s, env, now, js);
    if Agrees(s, env, js) {
      AgreeingIsSame(s, env, now, js);
    } else if StateAlone(s, env, now, js) == StateTogether(s, env, now, js) {
      SameIsAgreeing(s, env, now, js);
    }
  }

  /** Reading the shared store raises for all of the identifiers it has, or for none. */
  predicate ReadsAlike(s: State, env: Env, js: seq<Jti>) {
    env.redisConfigured ==> forall j :: j in js && j in s.redis ==> (j in env.getFails <==> env.mgetFails)
  }

  /** After a lookup that raises, all lookups raise. */
  predicate FailuresLast(env: Env, ps: seq<Jti>) {
    forall i, k :: 0 <= i < k < |ps| && ps[i] in env.lookupFails ==> ps[k] in env.lookupFails
  }

  /** The case where only lookups raise one by one: the batch and the single checks agree exactly
      when every identifier still to be looked up after the first lookup that raises raises too. */
  lemma FailuresLastIff(s: State, env: Env, now: real, js: seq<Jti>)
    requires !RedisDown(env) && ReadsAlike(s, env, js)
    ensures (AnswersWith(s, js, LearnedTogether(s, env, js)), StateTogether(s, env, now, js)) == Sequential(s, env, now, js)
       <==> FailuresLast(env, Pending(s, env, Missing(s, js)))
  {
    BatchAgreesIff(s, env, now, js);
    var ms := Missing(s, js);
    var ps := Pending(s, env, ms);
    MissingMembers(s, js);
    LayerMembers(s, env, ms);
    MissingDistinct(s, js);
    LayersDistinct(s, env, ms);
    ServedIff(env, ps);
    forall j | j in js && j !in s.live
      ensures AgreesOn(s, env, ServedOf(s, env, js), j) <==> j in ps ==> j in Served(env, ps) || j in env.lookupFails
    {
    }
    hide AgreesOn, Sequential, AnswersWith, StateTogether, LearnedTogether, Missing, Pending, Served, FailuresLast;
  }

  predicate Distinct(ks: seq<Jti>) {
    forall i, k :: 0 <= i < k < |ks| ==> ks[i] != ks[k]
  }

  lemma {:induction false} MissingDistinct(s: State, js: seq<Jti>)
    ensures Distinct(Missing(s, js))
  {
    if js != [] { MissingDistinct(s, js[..|js| - 1]); }
  }

  lemma {:induction false} LayersDistinct(s: State, env: Env, ms: seq<Jti>)
    requires Distinct(ms)
    ensures Distinct(Pending(s, env, ms)) && Distinct(Stored(s, env, ms))
  {
    if ms != [] {
      var init := ms[..|ms| - 1];
      LayersDistinct(s, env, init);
      LayerMembers(s, env, init);
      assert ms[|ms| - 1] !in init;
    }
  }

  lemma ServedIff(env: Env, ps: seq<Jti>)
    requires Distinct(ps)
    ensures FailuresLast(env, ps) <==> forall j :: j in ps ==> j in Served(env, ps) || j in env.lookupFails
  {
    var n := FirstFailing(env, ps);
    if FailuresLast(env, ps) {
      forall j | j in ps ensures j in Served(env, ps) || j in env.lookupFails {
        var k :| 0 <= k < |ps| && ps[k] == j;
        if k < n { assert Served(env, ps)[k] == j; }
      }
    } else {
      var i, k :| 0 <= i < k < |ps| && ps[i] in env.lookupFails && ps[k] !in env.lookupFails;
      assert ps[k] !in Served(env, ps);
    }
  }

  // ---- where they differ -----------------------------------------------------------------------------

  /** No shared store, and lookups raise for these identifiers; nothing is revoked. */
  function LookupsRaise(js: set<Jti>): Env {
    Env(false, false, {}, false, js, {}, false, {})
  }

  /** The lookup of b raises. The single checks accept c and remember it; the batch stops at b
      and rejects c. */
  lemma OneLookupRaises(a: Jti, b: Jti, c: Jti, now: real)
    requires a != b && b != c && a != c
    ensures var s, env, js := State(map[], map[]), LookupsRaise({b}), [a, b, c];
      && c in Sequential(s, env, now, js).0 && !Sequential(s, env, now, js).0[c] && c in Sequential(s, env, now, js).1.live
      && c in AnswersWith(s, js, LearnedTogether(s, env, js)) && AnswersWith(s, js, LearnedTogether(s, env, js))[c]
      && c !in StateTogether(s, env, now, js).live
  {
    hide Sequential, ServedOf;
    var s, env, js := State(map[], map[]), LookupsRaise({b}), [a, b, c];
    ThreeMissing(s, env, a, b, c);
    SequentialIsPointwise(s, env, now, js);
    assert Found(s, env, c) == Some(false);
    assert c in js && c in LearnedAlone(s, env, js) && c !in LearnedTogether(s, env, js);
    hide Found, LearnedAlone, LearnedTogether;
  }

  lemma ThreeMissing(s: State, env: Env, a: Jti, b: Jti, c: Jti)
    requires a != b && b != c && a != c && s.live == map[] && !env.redisConfigured && env.lookupFails == {b}
    ensures ServedOf(s, env, [a, b, c]) == [a]
  {
    assert [] + [a] == [a] && [a] + [b] == [a, b] && [a, b] + [c] == [a, b, c];
    SplitMore(s, [], a);
    SplitMore(s, [a], b);
    SplitMore(s, [a, b], c);
    NothingRead(s, env, [a, b, c]);
    hide Missing, Pending, CacheAnswers;
    assert [a, b, c][1..] == [b, c] && [a, b, c][..1] == [a];
  }

  /** Reading the shared store raises for b alone, and the database does not answer: the single
      check rejects b, the batch reads it. */
  lemma OneReadRaises(b: Jti, now: real)
    ensures var env := Env(true, true, {b}, false, {b}, {}, false, {});
      var s, js := State(map[], map[b := "0"]), [b];
      && Sequential(s, env, now, js).0 == map[b := true]
      && AnswersWith(s, js, LearnedTogether(s, env, js)) == map[b := false]
  {
    var env := Env(true, true, {b}, false, {b}, {}, false, {});
    var s := State(map[], map[b := "0"]);
    SequentialIsPointwise(s, env, now, [b]);
  }
}

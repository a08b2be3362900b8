/** What the batch check leaves in the cache's dictionary beyond what is live. Only expired
    entries can make a difference: a store at the cap removes them all, and the batch looks
    everything up before it stores anything. */
module RevocationDictionary {
  import opened Options
  import opened Revocation
  import opened RevocationBatch

  function BatchCache(c: Entries, p: Setting, s: State, env: Env, js: seq<Jti>): Entries {
    AfterSets(AfterGets(c, p, js), p, StoresOf(s, env, js), LearnedTogether(s, env, js))
  }

  lemma {:induction false} AfterGetsIs(c: Entries, p: Setting, js: seq<Jti>)
    ensures forall k :: k in AfterGets(c, p, js) <==> k in c && (k in js ==> IsLive(c[k], p.ttl, p.now))
    ensures forall k :: k in AfterGets(c, p, js) ==> AfterGets(c, p, js)[k] == c[k]
  {
    if js != [] {
      AfterGetsIs(c, p, js[..|js| - 1]);
      assert js == js[..|js| - 1] + [js[|js| - 1]];
    }
  }

  // ---- stores of new keys ------------------------------------------------------------------------

  function Restricted(learned: map<Jti, bool>, ks: seq<Jti>): map<Jti, bool> {
    map k | k in ks && k in learned :: learned[k]
  }

  lemma RestrictedMore(learned: map<Jti, bool>, ks: seq<Jti>, k: Jti)
    requires k in learned && k !in ks
    ensures Restricted(learned, ks + [k]) == Restricted(learned, ks)[k := learned[k]]
    ensures |Restricted(learned, ks + [k])| == |Restricted(learned, ks)| + 1
  {
    var r := Restricted(learned, ks);
    assert Restricted(learned, ks + [k]) == r[k := learned[k]];
    assert r[k := learned[k]].Keys == r.Keys + {k};
  }

  /** New stamps on top of base. */
  function With(base: Entries, learned: map<Jti, bool>, now: real): Entries {
    base + Stamped(learned, now)
  }

  lemma WithSize(base: Entries, learned: map<Jti, bool>, now: real)
    requires forall k :: k in learned ==> k !in base
    ensures |With(base, learned, now)| == |base| + |learned|
  {
    var w := With(base, learned, now);
    assert w.Keys == base.Keys + learned.Keys && base.Keys !! learned.Keys;
    assert |w| == |w.Keys| && |base| == |base.Keys| && |learned| == |learned.Keys|;
  }

  lemma LiveWith(base: Entries, p: Setting, learned: map<Jti, bool>)
    requires p.ttl >= 0.0
    ensures Live(With(base, learned, p.now), p.ttl, p.now) == With(Live(base, p.ttl, p.now), learned, p.now)
  {
  }

  lemma OnTop(base: Entries, learned: map<Jti, bool>, now: real, k: Jti, v: bool)
    ensures With(base, learned, now)[k := Stamp(v, now)] == With(base, learned[k := v], now)
  {
  }

  /** One more new stamp: at the cap what has expired in the base goes. */
  lemma SetOnTop(base: Entries, p: Setting, learned: map<Jti, bool>, k: Jti, v: bool)
    requires p.ttl >= 0.0 && forall l :: l in learned ==> l !in base
    ensures AfterSet(With(base, learned, p.now), p, k, v)
         == With(if |base| + |learned| >= p.maxEntries then Live(base, p.ttl, p.now) else base, learned[k := v], p.now)
  {
    WithSize(base, learned, p.now);
    LiveWith(base, p, learned);
    OnTop(base, learned, p.now, k, v);
    OnTop(Live(base, p.ttl, p.now), learned, p.now, k, v);
    hide With, Live;
  }

  lemma LiveTwice(base: Entries, p: Setting)
    ensures Live(Live(base, p.ttl, p.now), p.ttl, p.now) == Live(base, p.ttl, p.now)
  {
  }

  /** The base under any number of new stamps: swept as soon as the cap is met. */
  function Swept(base: Entries, p: Setting, n: nat): Entries {
    if n > 0 && |base| + n - 1 >= p.maxEntries then Live(base, p.ttl, p.now) else base
  }

  lemma SweptMore(base: Entries, p: Setting, n: nat)
    ensures Swept(base, p, n + 1)
         == if |Swept(base, p, n)| + n >= p.maxEntries then Live(Swept(base, p, n), p.ttl, p.now) else Swept(base, p, n)
    ensures forall k :: k in Swept(base, p, n) ==> k in base
  {
    LiveTwice(base, p);
  }

  lemma {:induction false} StoresOnTop(base: Entries, p: Setting, ks: seq<Jti>, learned: map<Jti, bool>)
    requires p.ttl >= 0.0 && Distinct(ks) && forall k :: k in ks ==> k in learned && k !in base
    ensures |Restricted(learned, ks)| == |ks|
    ensures AfterSets(base, p, ks, learned) == With(Swept(base, p, |ks|), Restricted(learned, ks), p.now)
  {
    if ks == [] {
      assert Restricted(learned, ks) == map[];
      assert With(base, map[], p.now) == base;
    } else {
      var init, k := ks[..|ks| - 1], ks[|ks| - 1];
      assert ks == init + [k];
      StoresOnTop(base, p, init, learned);
      StoreOnTop(base, p, init, k, learned);
    }
  }

  lemma StoreOnTop(base: Entries, p: Setting, init: seq<Jti>, k: Jti, learned: map<Jti, bool>)
    requires p.ttl >= 0.0 && k !in init && forall l :: l in init + [k] ==> l in learned && l !in base
    requires |Restricted(learned, init)| == |init|
    requires AfterSets(base, p, init, learned) == With(Swept(base, p, |init|), Restricted(learned, init), p.now)
    ensures |Restricted(learned, init + [k])| == |init| + 1
    ensures AfterSets(base, p, init + [k], learned) == With(Swept(base, p, |init| + 1), Restricted(learned, init + [k]), p.now)
  {
    RestrictedMore(learned, init, k);
    AfterSetsAppend(base, p, init, k, learned);
    SweptMore(base, p, |init|);
    forall l | l in Restricted(learned, init) ensures l !in Swept(base, p, |init|) {
      assert l in init + [k];
    }
    hide With, Live, Restricted, Swept, AfterSets, AfterSet;
    SetOnTop(Swept(base, p, |init|), p, Restricted(learned, init), k, learned[k]);
  }

  /** The dictionary after the batch: what was there less the expired entries asked for, or the
      live entries alone if a store met the cap; and the new stamps. */
  lemma BatchCacheIs(c: Entries, p: Setting, s: State, env: Env, js: seq<Jti>)
    requires p.ttl >= 0.0 && s.live == Live(c, p.ttl, p.now)
    ensures var learned := LearnedTogether(s, env, js);
      BatchCache(c, p, s, env, js) == With(if BatchMeets(c, p, s, env, js) then s.live else AfterGets(c, p, js), learned, p.now)
  {
    var base, ks, learned := AfterGets(c, p, js), StoresOf(s, env, js), LearnedTogether(s, env, js);
    StoresAreLearned(s, env, js);
    StoresDistinct(s, env, js);
    AfterGetsIs(c, p, js);
    LiveAfterGets(c, p, js);
    forall k | k in learned ensures k !in base {
      assert k in js && k !in s.live;
    }
    hide LearnedTogether, StoresOf, AfterGets, Live;
    StoresOnTop(base, p, ks, learned);
    AllRestricted(learned, ks);
  }

  lemma AllRestricted(learned: map<Jti, bool>, ks: seq<Jti>)
    requires forall k :: k in ks <==> k in learned
    ensures Restricted(learned, ks) == learned && (ks == [] <==> learned == map[])
  {
    if ks != [] { assert ks[0] in learned; }
  }

  /** Some store of the batch finds the dictionary at the cap. */
  predicate BatchMeets(c: Entries, p: Setting, s: State, env: Env, js: seq<Jti>) {
    var learned := LearnedTogether(s, env, js);
    learned != map[] && |AfterGets(c, p, js)| + |learned| - 1 >= p.maxEntries
  }

  lemma StoresDistinct(s: State, env: Env, js: seq<Jti>)
    ensures Distinct(StoresOf(s, env, js))
  {
    var ms := Missing(s, js);
    MissingDistinct(s, js);
    LayersDistinct(s, env, ms);
    LayerMembers(s, env, ms);
    var ps := Pending(s, env, ms);
    ServedWerePending(env, ps);
    PrefixDistinct(ps, FirstFailing(env, ps));
    hide Missing, Stored, Pending, FirstFailing, ReadTogether, Served;
    JoinDistinct(Stored(s, env, ms), Served(env, ps));
  }

  lemma PrefixDistinct(ks: seq<Jti>, n: nat)
    requires n <= |ks| && Distinct(ks)
    ensures Distinct(ks[..n])
  {
  }

  lemma JoinDistinct(ks: seq<Jti>, ls: seq<Jti>)
    requires Distinct(ks) && Distinct(ls) && forall k :: k in ks ==> k !in ls
    ensures Distinct(ks + ls)
  {
    forall i, k | 0 <= i < k < |ks + ls| ensures (ks + ls)[i] != (ks + ls)[k] {
      if i < |ks| && k >= |ks| { assert ks[i] in ks && ls[k - |ks|] in ls; }
    }
  }

  // ---- the single checks -------------------------------------------------------------------------------

  /** A single check of j, after those of init, stores its verdict and finds the dictionary at the cap. */
  predicate MeetsAt(c: Entries, p: Setting, s: State, env: Env, init: seq<Jti>, j: Jti) {
    && j !in init && Found(s, env, j).Some?
    && |AfterGets(c, p, init + [j])| + |LearnedAlone(s, env, init)| >= p.maxEntries
  }

  /** Some single check does. */
  predicate SinglesMeet(c: Entries, p: Setting, s: State, env: Env, js: seq<Jti>) {
    js != [] && (SinglesMeet(c, p, s, env, js[..|js| - 1]) || MeetsAt(c, p, s, env, js[..|js| - 1], js[|js| - 1]))
  }

  function SinglesBase(c: Entries, p: Setting, s: State, env: Env, js: seq<Jti>): Entries {
    if SinglesMeet(c, p, s, env, js) then Live(c, p.ttl, p.now) else AfterGets(c, p, js)
  }

  /** The dictionary after the single checks, in the same form. */
  lemma {:induction false} SequentialCacheIs(c: Entries, p: Setting, s: State, env: Env, js: seq<Jti>)
    requires p.ttl >= 0.0 && s.live == Live(c, p.ttl, p.now)
    ensures SequentialCache(c, p, s, env, js) == With(SinglesBase(c, p, s, env, js), LearnedAlone(s, env, js), p.now)
  {
    if js == [] {
      assert With(c, LearnedAlone(s, env, []), p.now) == c;
    } else {
      var init, j := js[..|js| - 1], js[|js| - 1];
      assert js == init + [j];
      SequentialCacheIs(c, p, s, env, init);
      SequentialIsPointwise(s, env, p.now, init);
      FoundLater(s, env, p.now, init, j);
      OneMoreCheck(c, p, s, env, init, j);
      hide StateAlone, AnswersAlone, With, SinglesBase, LearnedAlone, Found, AfterCheck;
    }
  }

  lemma GetOnTop(base: Entries, p: Setting, learned: map<Jti, bool>, j: Jti)
    requires p.ttl >= 0.0
    ensures AfterGet(With(base, learned, p.now), p, j) == With(if j in learned then base else AfterGet(base, p, j), learned, p.now)
  {
  }

  /** Looking up one more identifier in the base. */
  lemma BaseAfterGet(c: Entries, p: Setting, s: State, env: Env, init: seq<Jti>, j: Jti)
    ensures AfterGet(SinglesBase(c, p, s, env, init), p, j)
         == if SinglesMeet(c, p, s, env, init) then Live(c, p.ttl, p.now) else AfterGets(c, p, init + [j])
    ensures j in init ==> AfterGet(SinglesBase(c, p, s, env, init), p, j) == SinglesBase(c, p, s, env, init)
    ensures Live(AfterGets(c, p, init + [j]), p.ttl, p.now) == Live(c, p.ttl, p.now)
  {
    AfterGetsAppend(c, p, init, j);
    AfterGetsIs(c, p, init);
    LiveAfterGets(c, p, init + [j]);
    hide SinglesMeet, AfterGets;
  }

  lemma LearnedNotInBase(c: Entries, p: Setting, s: State, env: Env, init: seq<Jti>, j: Jti)
    requires s.live == Live(c, p.ttl, p.now)
    ensures forall l :: l in LearnedAlone(s, env, init) ==> l !in AfterGet(SinglesBase(c, p, s, env, init), p, j)
  {
    AfterGetsIs(c, p, init);
    hide SinglesMeet, AfterGets, Alone;
  }

  lemma SinglesBaseAppend(c: Entries, p: Setting, s: State, env: Env, init: seq<Jti>, j: Jti)
    ensures SinglesBase(c, p, s, env, init + [j])
         == if SinglesMeet(c, p, s, env, init) || MeetsAt(c, p, s, env, init, j) then Live(c, p.ttl, p.now) else AfterGets(c, p, init + [j])
  {
    assert (init + [j])[..|init|] == init;
    hide AfterGets, Live, MeetsAt;
  }

  lemma OneMoreCheck(c: Entries, p: Setting, s: State, env: Env, init: seq<Jti>, j: Jti)
    requires p.ttl >= 0.0 && s.live == Live(c, p.ttl, p.now)
    ensures AfterCheck(With(SinglesBase(c, p, s, env, init), LearnedAlone(s, env, init), p.now), p, if j in init then None else Found(s, env, j), j)
         == With(SinglesBase(c, p, s, env, init + [j]), LearnedAlone(s, env, init + [j]), p.now)
  {
    hide With, LearnedAlone, SinglesBase, Found, AfterGet, AfterSet, AfterGets, SinglesMeet, Live;
    var learned, base := LearnedAlone(s, env, init), SinglesBase(c, p, s, env, init);
    LearnedMore(s, env, init, j);
    BaseAfterGet(c, p, s, env, init, j);
    GetOnTop(base, p, learned, j);
    SinglesBaseAppend(c, p, s, env, init, j);
    LearnedOfAsked(s, env, init, j);
    if j !in init && Found(s, env, j).Some? {
      LearnedNotInBase(c, p, s, env, init, j);
      LiveTwice(c, p);
      SetOnTop(AfterGet(base, p, j), p, learned, j, Found(s, env, j).value);
    }
  }

  lemma LearnedOfAsked(s: State, env: Env, init: seq<Jti>, j: Jti)
    ensures j in LearnedAlone(s, env, init) ==> j in init
  {
  }

  // ---- exactly when they agree -------------------------------------------------------------------------

  /** Whatever has expired is asked for. */
  predicate NothingElseExpired(c: Entries, p: Setting, js: seq<Jti>) {
    forall k :: k in c && !IsLive(c[k], p.ttl, p.now) ==> k in js
  }

  lemma FewerKept(c: Entries, p: Setting, js: seq<Jti>, j: Jti)
    ensures |AfterGets(c, p, js + [j])| <= |AfterGets(c, p, js)|
  {
    AfterGetsAppend(c, p, js, j);
    var kept := AfterGets(c, p, js);
    if j in kept && AfterGet(kept, p, j) != kept {
      assert kept.Keys == (kept - {j}).Keys + {j};
      assert |kept| == |kept.Keys| && |kept - {j}| == |(kept - {j}).Keys|;
    }
  }

  /** The batch has looked everything up before its last store, the single checks have not: if
      the batch meets the cap, so do they. */
  lemma {:induction false} SinglesMeetToo(c: Entries, p: Setting, s: State, env: Env, js: seq<Jti>, kept: nat)
    requires kept <= |AfterGets(c, p, js)|
    requires LearnedAlone(s, env, js) != map[] && kept + |LearnedAlone(s, env, js)| - 1 >= p.maxEntries
    ensures SinglesMeet(c, p, s, env, js)
  {
    if js != [] {
      var init, j := js[..|js| - 1], js[|js| - 1];
      assert js == init + [j];
      LearnedMore(s, env, init, j);
      FewerKept(c, p, init, j);
      hide LearnedAlone, AfterGets, Found;
      if j in init || Found(s, env, j).None? {
        SinglesMeetToo(c, p, s, env, init, kept);
      } else {
        var learned := LearnedAlone(s, env, init);
        assert learned[j := Found(s, env, j).value].Keys == learned.Keys + {j};
      }
    }
  }

  /** Equal dictionaries have equal live entries, and these tell what was found out. */
  lemma SameDictionaryAgrees(c: Entries, p: Setting, s: State, env: Env, js: seq<Jti>)
    requires p.ttl >= 0.0 && s.live == Live(c, p.ttl, p.now)
    requires SequentialCache(c, p, s, env, js) == BatchCache(c, p, s, env, js)
    ensures Agrees(s, env, js)
  {
    var alone, together := LearnedAlone(s, env, js), LearnedTogether(s, env, js);
    BatchCacheIs(c, p, s, env, js);
    SequentialCacheIs(c, p, s, env, js);
    LiveTwice(c, p);
    LiveAfterGets(c, p, js);
    LiveWith(SinglesBase(c, p, s, env, js), p, alone);
    LiveWith(if BatchMeets(c, p, s, env, js) then s.live else AfterGets(c, p, js), p, together);
    assert StateAlone(s, env, p.now, js).live == With(s.live, alone, p.now);
    assert StateTogether(s, env, p.now, js).live == With(s.live, together, p.now);
    hide LearnedAlone, LearnedTogether, SequentialCache, BatchCache, AfterGets, Agrees, BatchMeets, SinglesMeet, Live, With, StateAlone, StateTogether;
    SameIsAgreeing(s, env, p.now, js);
  }

  /** The batch and the single checks leave the same dictionary exactly when they find out the
      same and nothing but what was asked for has expired, or the single checks never meet the
      cap, or the batch meets it as well. */
  lemma DictionariesAgreeIff(c: Entries, p: Setting, s: State, env: Env, js: seq<Jti>)
    requires p.ttl >= 0.0 && s.live == Live(c, p.ttl, p.now)
    ensures SequentialCache(c, p, s, env, js) == BatchCache(c, p, s, env, js)
       <==> Agrees(s, env, js) && (NothingElseExpired(c, p, js) || !SinglesMeet(c, p, s, env, js) || BatchMeets(c, p, s, env, js))
  {
    hide *;
    if SequentialCache(c, p, s, env, js) == BatchCache(c, p, s, env, js) { SameDictionaryAgrees(c, p, s, env, js); }
    if Agrees(s, env, js) { AgreeingDictionaries(c, p, s, env, js); }
  }

  lemma AgreeingDictionaries(c: Entries, p: Setting, s: State, env: Env, js: seq<Jti>)
    requires p.ttl >= 0.0 && s.live == Live(c, p.ttl, p.now) && Agrees(s, env, js)
    ensures SequentialCache(c, p, s, env, js) == BatchCache(c, p, s, env, js)
       <==> NothingElseExpired(c, p, js) || !SinglesMeet(c, p, s, env, js) || BatchMeets(c, p, s, env, js)
  {
    hide SequentialCache, BatchCache, Agrees, LearnedAlone, LearnedTogether, SinglesMeet, AfterGets;
    SameLearned(s, env, js);
    BatchCacheIs(c, p, s, env, js);
    SequentialCacheIs(c, p, s, env, js);
    var learned := LearnedTogether(s, env, js);
    if BatchMeets(c, p, s, env, js) { SinglesMeetToo(c, p, s, env, js, |AfterGets(c, p, js)|); }
    LearnedWereAsked(s, env, js);
    BasesDiffer(c, p, js, learned);
    hide With, Live;
  }

  lemma LearnedWereAsked(s: State, env: Env, js: seq<Jti>)
    ensures forall l :: l in LearnedTogether(s, env, js) ==> l in js
  {
  }

  lemma BasesDiffer(c: Entries, p: Setting, js: seq<Jti>, learned: map<Jti, bool>)
    requires forall l :: l in learned ==> l in js
    ensures With(Live(c, p.ttl, p.now), learned, p.now) == With(AfterGets(c, p, js), learned, p.now) <==> NothingElseExpired(c, p, js)
  {
    AfterGetsIs(c, p, js);
    var x, y := With(Live(c, p.ttl, p.now), learned, p.now), With(AfterGets(c, p, js), learned, p.now);
    if NothingElseExpired(c, p, js) {
      assert Live(c, p.ttl, p.now) == AfterGets(c, p, js);
    } else {
      var k :| k in c && !IsLive(c[k], p.ttl, p.now) && k !in js;
      assert k in y && k !in x;
    }
  }

  /** For every cap of at least 2: a dictionary at the cap that has neither x nor anything live
      asked for, with y and z expired; x and y are checked, and the lookup of y raises. The
      answers are the same, but only the batch keeps z. */
  lemma BatchKeepsExpiredEntry(c: Entries, p: Setting, x: Jti, y: Jti, z: Jti)
    requires p.ttl >= 0.0 && p.maxEntries >= 2 && |c| == p.maxEntries
    requires x !in c && y in c && z in c && y != z && !IsLive(c[y], p.ttl, p.now) && !IsLive(c[z], p.ttl, p.now)
    ensures var s, env, js := State(Live(c, p.ttl, p.now), map[]), LookupsRaise({y}), [x, y];
      && (AnswersWith(s, js, LearnedTogether(s, env, js)), StateTogether(s, env, p.now, js)) == Sequential(s, env, p.now, js)
      && z in BatchCache(c, p, s, env, js) && z !in SequentialCache(c, p, s, env, js)
  {
    hide *;
    var s, env, js := State(Live(c, p.ttl, p.now), map[]), LookupsRaise({y}), [x, y];
    OneAnswered(s, x, y) by { NotLive(c, p, x, y); }
    BatchAgreesIff(s, env, p.now, js);
    CapMetOnce(c, p, s, env, x, y) by { NotLive(c, p, x, y); }
    DictionariesAt(c, p, s, env, js, z) by { NotLive(c, p, z, z); AfterGetsIs(c, p, js); NotLive(c, p, x, y); }
  }

  lemma NotLive(c: Entries, p: Setting, x: Jti, y: Jti)
    ensures x !in c || !IsLive(c[x], p.ttl, p.now) ==> x !in Live(c, p.ttl, p.now)
    ensures y !in c || !IsLive(c[y], p.ttl, p.now) ==> y !in Live(c, p.ttl, p.now)
  {
  }

  /** Both find out about x, and neither about y. */
  lemma OneAnswered(s: State, x: Jti, y: Jti)
    requires x != y && x !in s.live && y !in s.live
    ensures var env := LookupsRaise({y});
      && Agrees(s, env, [x, y]) && Found(s, env, x).Some? && |LearnedTogether(s, env, [x, y])| == 1
  {
    var env := LookupsRaise({y});
    FirstServed(s, env, x, y);
    hide ServedOf;
    assert LearnedTogether(s, env, [x, y]) == map[x := false];
  }

  /** z is kept by the batch alone. */
  lemma DictionariesAt(c: Entries, p: Setting, s: State, env: Env, js: seq<Jti>, z: Jti)
    requires p.ttl >= 0.0 && s.live == Live(c, p.ttl, p.now) && SinglesMeet(c, p, s, env, js) && !BatchMeets(c, p, s, env, js)
    requires z in AfterGets(c, p, js) && z !in s.live && z !in js
    ensures z in BatchCache(c, p, s, env, js) && z !in SequentialCache(c, p, s, env, js)
  {
    BatchCacheIs(c, p, s, env, js);
    SequentialCacheIs(c, p, s, env, js);
    assert z !in LearnedAlone(s, env, js);
    hide LearnedAlone, BatchCache, SequentialCache, SinglesMeet, BatchMeets, AfterGets, LearnedTogether;
    KeptAndGone(c, p, js, LearnedTogether(s, env, js), LearnedAlone(s, env, js), z);
  }

  lemma KeptAndGone(c: Entries, p: Setting, js: seq<Jti>, batch: map<Jti, bool>, single: map<Jti, bool>, z: Jti)
    requires z in AfterGets(c, p, js) && z !in Live(c, p.ttl, p.now) && z !in single
    ensures z in With(AfterGets(c, p, js), batch, p.now) && z !in With(Live(c, p.ttl, p.now), single, p.now)
  {
  }

  lemma FirstServed(s: State, env: Env, x: Jti, y: Jti)
    requires x != y && x !in s.live && y !in s.live && !env.redisConfigured && env.lookupFails == {y}
    ensures ServedOf(s, env, [x, y]) == [x]
  {
    assert [] + [x] == [x] && [x] + [y] == [x, y];
    SplitMore(s, [], x);
    SplitMore(s, [x], y);
    NothingRead(s, env, [x, y]);
    assert [x, y][1..] == [y];
    assert FirstFailing(env, [x, y]) == 1;
  }

  /** The first single check meets the cap; the batch, which has dropped y by then, does not. */
  lemma CapMetOnce(c: Entries, p: Setting, s: State, env: Env, x: Jti, y: Jti)
    requires |c| == p.maxEntries && x !in c && y in c && !IsLive(c[y], p.ttl, p.now) && x !in s.live
    requires Found(s, env, x).Some? && |LearnedTogether(s, env, [x, y])| == 1
    ensures SinglesMeet(c, p, s, env, [x, y]) && !BatchMeets(c, p, s, env, [x, y])
  {
    assert [x, y][..1] == [x] && [x][..0] == [];
    AfterGetsAppend(c, p, [], x);
    AfterGetsAppend(c, p, [x], y);
    assert [] + [x] == [x] && [x] + [y] == [x, y];
    assert AfterGets(c, p, [x]) == c && AfterGets(c, p, [x, y]) == c - {y};
    assert c.Keys == (c - {y}).Keys + {y} && |c| == |c.Keys| && |c - {y}| == |(c - {y}).Keys|;
    hide AfterGets, LearnedTogether, LearnedAlone, Found;
    assert MeetsAt(c, p, s, env, [], x);
    assert SinglesMeet(c, p, s, env, [x]);
  }
}

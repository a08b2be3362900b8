/** Failed logins of one key at several replicas: each reads the hash, and writes it later. What is
    left of the back-off when writes overtake each other. */
module LoginRaces {
  import opened LoginLimiter

  type Task = nat

  /** Where the hash comes from: nothing has been written since a reset, or it is what a failure
      wrote. */
  datatype Origin = Nothing(reset: nat) | Wrote(failure: nat)

  datatype Snapshot = Snapshot(r: Record, from: Origin)

  /** A failure being recorded: what its replica read, and when. */
  datatype Reading = Reading(seen: Snapshot, at: real)

  /** A recorded failure: its number by the count it read, and the lock it wrote. */
  datatype Failure = Failure(number: nat, at: real, lockedUntil: real, from: Origin)

  datatype System = System(now: real, stored: Snapshot, inFlight: map<Task, Reading>, log: seq<Failure>, resets: nat)

  datatype Event =
    | Tick(time: real)
    | ReadHash(task: Task)
    | WriteHash(task: Task, at: real)
    | Abandon(task: Task)
    | Reset

  /** c: how many failures can be between reading and writing at the same time. */
  ghost predicate Next(c: nat, s: System, e: Event, s': System) {
    match e
    case Tick(t) => s.now <= t && s' == s.(now := t)
    case ReadHash(k) =>
      k !in s.inFlight && |s.inFlight| < c && s' == s.(inFlight := s.inFlight[k := Reading(s.stored, s.now)])
    // the clock is read in between
    case WriteHash(k, at) =>
      && k in s.inFlight && s.inFlight[k].at <= at <= s.now
      && var seen := s.inFlight[k].seen;
         var r := Failed(seen.r, at, at);
         s' == s.(stored := Snapshot(r, Wrote(|s.log|)), inFlight := s.inFlight - {k},
                  log := s.log + [Failure(r.failedCount, at, r.lockedUntil, seen.from)])
    case Abandon(k) => s' == s.(inFlight := s.inFlight - {k})
    // a success, or the expiry of the hash
    case Reset => s' == s.(stored := Snapshot(FRESH, Nothing(s.resets + 1)), resets := s.resets + 1)
  }

  ghost predicate Init(s: System) {
    s.stored == Snapshot(FRESH, Nothing(0)) && s.inFlight == map[] && s.log == [] && s.resets == 0
  }

  ghost predicate IsRun(c: nat, states: seq<System>, events: seq<Event>) {
    && |states| == |events| + 1 && Init(states[0])
    && forall i :: 0 <= i < |events| ==> Next(c, states[i], events[i], states[i + 1])
  }

  // ---- a failure descends from the failure it read ------------------------------------------------

  ghost predicate IsOrigin(s: System, o: Origin) {
    match o
    case Nothing(k) => k <= s.resets
    case Wrote(i) => i < |s.log|
  }

  function NumberOf(log: seq<Failure>, o: Origin): nat {
    if o.Wrote? && o.failure < |log| then log[o.failure].number else 0
  }

  ghost predicate SnapshotOk(s: System, x: Snapshot) {
    && IsOrigin(s, x.from) && x.r.failedCount == NumberOf(s.log, x.from)
    && (if x.from.Wrote? then x.r.lockedUntil == s.log[x.from.failure].lockedUntil else x.r == FRESH)
  }

  ghost predicate NumberedAt(log: seq<Failure>, i: nat)
    requires i < |log|
  {
    var f := log[i];
    && (f.from.Wrote? ==> f.from.failure < i)
    && f.number == NumberOf(log, f.from) + 1
    && (f.number >= MAX_ATTEMPTS ==> f.lockedUntil == f.at + Backoff(f.number))
  }

  ghost predicate Numbered(log: seq<Failure>) {
    forall i :: 0 <= i < |log| ==> NumberedAt(log, i)
  }

  ghost predicate ReadingOk(s: System, k: Task) {
    k in s.inFlight ==> SnapshotOk(s, s.inFlight[k].seen)
  }

  // ---- no more than c failures descend from the same one ---------------------------------------------

  ghost function Children(log: seq<Failure>, o: Origin): set<nat> {
    set i: nat | i < |log| && log[i].from == o
  }

  ghost function Readers(s: System, o: Origin): set<Task> {
    set k | k in s.inFlight && s.inFlight[k].seen.from == o
  }

  ghost predicate Branching(c: nat, s: System, o: Origin) {
    |Children(s.log, o)| + |Readers(s, o)| <= c
  }

  ghost predicate FromKnown(s: System) {
    forall i :: 0 <= i < |s.log| ==> IsOrigin(s, s.log[i].from)
  }

  ghost predicate Inv(c: nat, s: System) {
    && Numbered(s.log) && FromKnown(s)
    && SnapshotOk(s, s.stored) && (forall k :: ReadingOk(s, k))
    && |s.inFlight| <= c && Children(s.log, s.stored.from) == {}
    && forall o :: Branching(c, s, o)
  }

  lemma OriginStays(c: nat, s: System, e: Event, s': System, o: Origin)
    requires Next(c, s, e, s') && IsOrigin(s, o)
    ensures IsOrigin(s', o) && NumberOf(s'.log, o) == NumberOf(s.log, o)
    ensures o.Wrote? ==> s'.log[o.failure] == s.log[o.failure]
  {
  }

  lemma SnapshotStays(c: nat, s: System, e: Event, s': System, x: Snapshot)
    requires Next(c, s, e, s') && SnapshotOk(s, x)
    ensures SnapshotOk(s', x)
  {
    OriginStays(c, s, e, s', x.from);
    hide Next;
  }

  lemma NumberedStep(c: nat, s: System, e: Event, s': System)
    requires Next(c, s, e, s') && Inv(c, s)
    ensures Numbered(s'.log) && FromKnown(s')
  {
    hide Branching, Children;
    if e.WriteHash? { assert ReadingOk(s, e.task); }
    forall i | 0 <= i < |s'.log| ensures NumberedAt(s'.log, i) && IsOrigin(s', s'.log[i].from) {
      if i < |s.log| {
        assert NumberedAt(s.log, i) && s'.log[i] == s.log[i];
        OriginStays(c, s, e, s', s.log[i].from);
      } else {
        OriginStays(c, s, e, s', s.inFlight[e.task].seen.from);
      }
    }
  }

  lemma SnapshotsStep(c: nat, s: System, e: Event, s': System)
    requires Next(c, s, e, s') && Inv(c, s)
    ensures SnapshotOk(s', s'.stored) && forall k :: ReadingOk(s', k)
  {
    hide Branching, Children, Numbered;
    SnapshotStays(c, s, e, s', s.stored);
    forall k ensures ReadingOk(s', k) {
      assert ReadingOk(s, k);
      if k in s.inFlight { SnapshotStays(c, s, e, s', s.inFlight[k].seen); }
    }
  }

  lemma ChildrenMore(log: seq<Failure>, f: Failure, o: Origin)
    ensures Children(log + [f], o) == if f.from == o then Children(log, o) + {|log|} else Children(log, o)
  {
    assert forall i: nat :: i < |log| ==> (log + [f])[i] == log[i];
  }

  lemma NewOrigin(s: System, o: Origin)
    requires FromKnown(s) && (forall k :: ReadingOk(s, k)) && !IsOrigin(s, o)
    ensures Children(s.log, o) == {} && Readers(s, o) == {}
  {
    forall k | k in s.inFlight ensures s.inFlight[k].seen.from != o { assert ReadingOk(s, k); }
  }

  lemma SubsetSize<T>(a: set<T>, b: set<T>)
    requires a <= b
    ensures |a| <= |b|
  {
    assert b == a + (b - a);
  }

  lemma ReadersBound(s: System, o: Origin)
    ensures |Readers(s, o)| <= |s.inFlight|
  {
    SubsetSize(Readers(s, o), s.inFlight.Keys);
  }

  lemma FewerInFlight(s: System, k: Task)
    ensures |s.inFlight - {k}| <= |s.inFlight|
  {
    SubsetSize((s.inFlight - {k}).Keys, s.inFlight.Keys);
  }

  lemma BranchingStep(c: nat, s: System, e: Event, s': System, o: Origin)
    requires Next(c, s, e, s') && Branching(c, s, o) && |s.inFlight| <= c && Children(s.log, s.stored.from) == {}
    ensures Branching(c, s', o)
  {
    hide Children, Readers;
    match e {
      case Tick(_) => SameReaders(s, s', o);
      case Reset => SameReaders(s, s', o);
      case ReadHash(k) => OneReads(s, k, s', o);
      case Abandon(k) => OneLeaves(s, k, s', o);
      case WriteHash(k, _) =>
        ChildrenMore(s.log, s'.log[|s.log|], o);
        NotYet(s.log, o);
        OneLeaves(s, k, s', o);
    }
  }

  lemma SameReaders(s: System, s': System, o: Origin)
    requires s'.inFlight == s.inFlight
    ensures Readers(s', o) == Readers(s, o)
  {
  }

  lemma OneReads(s: System, k: Task, s': System, o: Origin)
    requires k !in s.inFlight && s'.inFlight == s.inFlight[k := Reading(s.stored, s.now)]
    ensures o != s.stored.from ==> Readers(s', o) == Readers(s, o)
    ensures |Readers(s', o)| <= |s.inFlight| + 1
  {
    assert s'.inFlight.Keys == s.inFlight.Keys + {k};
    ReadersBound(s', o);
  }

  lemma OneLeaves(s: System, k: Task, s': System, o: Origin)
    requires s'.inFlight == s.inFlight - {k}
    ensures |Readers(s', o)| == |Readers(s, o)| - (if k in s.inFlight && s.inFlight[k].seen.from == o then 1 else 0)
  {
    assert Readers(s', o) == Readers(s, o) - {k};
    assert k in Readers(s, o) <==> k in s.inFlight && s.inFlight[k].seen.from == o;
  }

  lemma NotYet(log: seq<Failure>, o: Origin)
    ensures |log| !in Children(log, o)
  {
  }

  lemma FreshStep(c: nat, s: System, e: Event, s': System)
    requires Next(c, s, e, s') && Inv(c, s)
    ensures |s'.inFlight| <= c && Children(s'.log, s'.stored.from) == {}
  {
    InFlightStep(c, s, e, s');
    if e.WriteHash? {
      WriteIsNew(c, s, e.task, e.at, s');
    } else if e.Reset? {
      NewOrigin(s, Nothing(s.resets + 1));
    }
    hide Branching, Numbered, Children, FromKnown, SnapshotOk, ReadingOk;
  }

  lemma InFlightStep(c: nat, s: System, e: Event, s': System)
    requires Next(c, s, e, s') && |s.inFlight| <= c
    ensures |s'.inFlight| <= c
  {
    if e.ReadHash? { assert s'.inFlight.Keys == s.inFlight.Keys + {e.task}; }
    if e.Abandon? || e.WriteHash? { FewerInFlight(s, e.task); }
    hide Failed;
  }

  lemma WriteIsNew(c: nat, s: System, k: Task, at: real, s': System)
    requires Next(c, s, WriteHash(k, at), s') && FromKnown(s) && forall k :: ReadingOk(s, k)
    ensures Children(s'.log, s'.stored.from) == {}
  {
    assert ReadingOk(s, k);
    NewOrigin(s, Wrote(|s.log|));
    hide FromKnown, ReadingOk, Failed, Children;
    ChildrenMore(s.log, s'.log[|s.log|], Wrote(|s.log|));
  }

  lemma InvInductive(c: nat, s: System, e: Event, s': System)
    requires Inv(c, s) && Next(c, s, e, s')
    ensures Inv(c, s')
  {
    NumberedStep(c, s, e, s');
    SnapshotsStep(c, s, e, s');
    FreshStep(c, s, e, s');
    forall o ensures Branching(c, s', o) {
      assert Branching(c, s, o);
      BranchingStep(c, s, e, s', o);
    }
    hide Next, Branching, Numbered, Children, FromKnown, SnapshotOk, ReadingOk;
  }

  lemma {:induction false} InvAlong(c: nat, states: seq<System>, events: seq<Event>, i: nat)
    requires IsRun(c, states, events) && i < |states|
    ensures Inv(c, states[i])
  {
    if i == 0 {
      assert states[0].log == [] && states[0].inFlight == map[];
      forall o ensures Branching(c, states[0], o) {
        assert Children(states[0].log, o) == {} && Readers(states[0], o) == {};
      }
      assert Children([], states[0].stored.from) == {};
    } else {
      InvAlong(c, states, events, i - 1);
      assert Next(c, states[i - 1], events[i - 1], states[i]);
      InvInductive(c, states[i - 1], events[i - 1], states[i]);
    }
  }

  // ---- what the numbers promise ------------------------------------------------------------------------

  /** The fifth failure among those it descends from. */
  ghost function Fifth(log: seq<Failure>, i: nat): (f: nat)
    requires Numbered(log) && i < |log| && log[i].number >= MAX_ATTEMPTS
    ensures f <= i && log[f].number == MAX_ATTEMPTS
    decreases i
  {
    assert NumberedAt(log, i);
    if log[i].number == MAX_ATTEMPTS then i else Fifth(log, log[i].from.failure)
  }

  /** From the fifth failure on, it and those it descends from came when the lock that they had
      read was over. */
  ghost predicate InTime(log: seq<Failure>, i: nat)
    requires Numbered(log) && i < |log|
    decreases i
  {
    assert NumberedAt(log, i);
    log[i].number <= MAX_ATTEMPTS
    || (log[log[i].from.failure].lockedUntil <= log[i].at && InTime(log, log[i].from.failure))
  }

  /** Failure number 5 + k, by its own count, is not before a fifth one plus the first k back-offs. */
  lemma {:induction false} SpacedByNumber(log: seq<Failure>, i: nat)
    requires Numbered(log) && i < |log| && log[i].number >= MAX_ATTEMPTS && InTime(log, i)
    ensures log[i].at >= log[Fifth(log, i)].at + SumOfBackoffs(log[i].number - MAX_ATTEMPTS)
    decreases i
  {
    assert NumberedAt(log, i);
    if log[i].number > MAX_ATTEMPTS {
      var parent := log[i].from.failure;
      assert NumberedAt(log, parent);
      SpacedByNumber(log, parent);
    }
  }

  lemma RacesKeepSpacing(c: nat, states: seq<System>, events: seq<Event>, n: nat, i: nat)
    requires IsRun(c, states, events) && n < |states|
    ensures Numbered(states[n].log)
    ensures var log := states[n].log;
      i < |log| && log[i].number >= MAX_ATTEMPTS && InTime(log, i)
      ==> log[i].at >= log[Fifth(log, i)].at + SumOfBackoffs(log[i].number - MAX_ATTEMPTS)
  {
    InvAlong(c, states, events, n);
    var log := states[n].log;
    if i < |log| && log[i].number >= MAX_ATTEMPTS && InTime(log, i) { SpacedByNumber(log, i); }
  }

  // ---- how many failures can have the same number ---------------------------------------------------------

  function Power(c: nat, n: nat): nat {
    if n == 0 then 1 else c * Power(c, n - 1)
  }

  /** c + c^2 + ... + c^m. */
  function Total(c: nat, m: nat): nat {
    if m == 0 then 0 else Total(c, m - 1) + Power(c, m)
  }

  /** Powers, and the sum of the first m of them, in closed form. */
  lemma {:induction false} PowersSum(c: nat, m: nat, n: nat)
    ensures Power(c, 1) == c && Power(c, m + n) == Power(c, m) * Power(c, n)
    ensures (c - 1) * Total(c, m) == Power(c, m + 1) - c
  {
    assert Power(c, 1) == c * Power(c, 0) == c;
    if m > 0 {
      PowersSum(c, m - 1, n);
      assert (m + n) - 1 == (m - 1) + n;
      Regrouped(c, Power(c, m - 1), Power(c, n));
      SumStep(c, Total(c, m - 1), Power(c, m));
    }
  }

  lemma Regrouped(a: nat, b: nat, d: nat)
    ensures a * (b * d) == (a * b) * d
  {
  }

  lemma SumStep(c: nat, t: nat, x: nat)
    ensures (c - 1) * (t + x) == (c - 1) * t + c * x - x
  {
  }

  ghost function WithNumber(log: seq<Failure>, n: nat): set<nat> {
    set i: nat | i < |log| && log[i].number == n
  }

  ghost function ChildrenOfAll(log: seq<Failure>, os: set<Origin>): set<nat> {
    set i: nat | i < |log| && log[i].from in os
  }

  lemma {:induction false} ChildrenBound(c: nat, log: seq<Failure>, os: set<Origin>)
    requires forall o :: |Children(log, o)| <= c
    ensures |ChildrenOfAll(log, os)| <= c * |os|
    decreases |os|
  {
    if os == {} {
      assert ChildrenOfAll(log, os) == {};
    } else {
      var o :| o in os;
      var rest := os - {o};
      ChildrenBound(c, log, rest);
      assert ChildrenOfAll(log, os) == ChildrenOfAll(log, rest) + Children(log, o);
      assert |os| == |rest| + 1;
      TimesSuccessor(c, |rest|);
    }
  }

  lemma TimesSuccessor(c: nat, n: nat)
    ensures c * (n + 1) == c * n + c
  {
  }

  ghost function WroteAll(fs: set<nat>): set<Origin> {
    set i | i in fs :: Wrote(i)
  }

  lemma {:induction false} WroteAllSize(fs: set<nat>)
    ensures |WroteAll(fs)| == |fs|
    decreases |fs|
  {
    if fs != {} {
      var i :| i in fs;
      WroteAllSize(fs - {i});
      assert WroteAll(fs) == WroteAll(fs - {i}) + {Wrote(i)};
    }
  }

  ghost function Resets(n: nat): set<Origin> {
    set k: nat | k <= n :: Nothing(k)
  }

  lemma {:induction false} ResetsSize(n: nat)
    ensures |Resets(n)| == n + 1
  {
    if n == 0 {
      assert Resets(0) == {Nothing(0)};
    } else {
      ResetsSize(n - 1);
      assert Resets(n) == Resets(n - 1) + {Nothing(n)};
    }
  }

  lemma NumberPositive(log: seq<Failure>, i: nat)
    requires Numbered(log) && i < |log|
    ensures log[i].number >= 1
  {
    assert NumberedAt(log, i);
  }

  lemma FirstsDescend(s: System)
    requires Numbered(s.log) && FromKnown(s)
    ensures WithNumber(s.log, 1) <= ChildrenOfAll(s.log, Resets(s.resets))
  {
    forall i: nat | i < |s.log| && s.log[i].number == 1 ensures s.log[i].from in Resets(s.resets) {
      var o := s.log[i].from;
      assert NumberedAt(s.log, i) && IsOrigin(s, o);
      if o.Wrote? && o.failure < |s.log| { NumberPositive(s.log, o.failure); }
    }
  }

  lemma LaterDescend(log: seq<Failure>, n: nat)
    requires Numbered(log) && n > 1
    ensures WithNumber(log, n) <= ChildrenOfAll(log, WroteAll(WithNumber(log, n - 1)))
  {
    forall i: nat | i < |log| && log[i].number == n ensures log[i].from in WroteAll(WithNumber(log, n - 1)) {
      assert NumberedAt(log, i);
    }
  }

  lemma {:induction false} NumberBound(c: nat, s: System, n: nat)
    requires Inv(c, s) && n >= 1
    ensures |WithNumber(s.log, n)| <= (s.resets + 1) * Power(c, n)
  {
    forall o ensures |Children(s.log, o)| <= c { assert Branching(c, s, o); }
    hide Branching, Numbered, FromKnown, WithNumber, ChildrenOfAll, WroteAll;
    if n == 1 {
      FirstsDescend(s);
      ResetsSize(s.resets);
      ChildrenBound(c, s.log, Resets(s.resets));
      SubsetSize(WithNumber(s.log, 1), ChildrenOfAll(s.log, Resets(s.resets)));
      assert Power(c, 1) == c * Power(c, 0) == c;
    } else {
      var parents := WithNumber(s.log, n - 1);
      NumberBound(c, s, n - 1);
      LaterDescend(s.log, n);
      WroteAllSize(parents);
      ChildrenBound(c, s.log, WroteAll(parents));
      SubsetSize(WithNumber(s.log, n), ChildrenOfAll(s.log, WroteAll(parents)));
      TimesGrows(c, |parents|, s.resets + 1, Power(c, n - 1));
    }
  }

  lemma TimesGrows(c: nat, x: nat, a: nat, b: nat)
    requires x <= a * b
    ensures c * x <= a * (c * b)
  {
    assert c * x <= c * (a * b) == a * (c * b);
  }

  /** In every run with at most c failures at once, at most c to the power of n are recorded as
      number n for each reset. */
  lemma SameNumberBound(c: nat, states: seq<System>, events: seq<Event>, i: nat, n: nat)
    requires IsRun(c, states, events) && i < |states| && n >= 1
    ensures |WithNumber(states[i].log, n)| <= (states[i].resets + 1) * Power(c, n)
  {
    InvAlong(c, states, events, i);
    NumberBound(c, states[i], n);
  }

  ghost function UpToNumber(log: seq<Failure>, m: nat): set<nat> {
    set i: nat | i < |log| && 1 <= log[i].number <= m
  }

  lemma UpToMore(log: seq<Failure>, m: nat)
    ensures m == 0 ==> |UpToNumber(log, m)| == 0
    ensures m > 0 ==> |UpToNumber(log, m)| <= |UpToNumber(log, m - 1)| + |WithNumber(log, m)|
  {
    if m == 0 {
      assert UpToNumber(log, 0) == {};
    } else {
      assert UpToNumber(log, m) == UpToNumber(log, m - 1) + WithNumber(log, m);
    }
  }

  lemma {:induction false} UpToBound(c: nat, s: System, m: nat)
    requires Inv(c, s)
    ensures |UpToNumber(s.log, m)| <= (s.resets + 1) * Total(c, m)
  {
    UpToMore(s.log, m);
    hide Inv, UpToNumber, WithNumber, Power;
    if m > 0 {
      UpToBound(c, s, m - 1);
      NumberBound(c, s, m);
      Distributes(s.resets + 1, Total(c, m - 1), Power(c, m));
    }
  }

  lemma Distributes(a: nat, x: nat, y: nat)
    ensures a * (x + y) == a * x + a * y
  {
  }

  lemma {:induction false} AllCounted(log: seq<Failure>, m: nat)
    requires forall i :: 0 <= i < |log| ==> 1 <= log[i].number <= m
    ensures |UpToNumber(log, m)| == |log|
  {
    if log == [] {
      assert UpToNumber([], m) == {};
    } else {
      var init := log[..|log| - 1];
      AllCounted(init, m);
      assert UpToNumber(log, m) == UpToNumber(init, m) + {|init|};
    }
  }

  lemma AllNumbered(c: nat, s: System)
    requires Inv(c, s)
    ensures Numbered(s.log)
  {
  }

  lemma SomeLarge(c: nat, s: System, m: nat) returns (i: nat)
    requires Inv(c, s) && |s.log| > (s.resets + 1) * Total(c, m)
    ensures i < |s.log| && s.log[i].number > m
  {
    UpToBound(c, s, m);
    hide Inv, UpToNumber, Total, Numbered;
    forall i | 0 <= i < |s.log| ensures s.log[i].number >= 1 {
      NumberPositive(s.log, i) by { assert Numbered(s.log) by { AllNumbered(c, s); } }
    }
    if forall i :: 0 <= i < |s.log| ==> s.log[i].number <= m {
      AllCounted(s.log, m);
      assert false;
    }
    i :| i < |s.log| && s.log[i].number > m;
  }

  lemma {:induction false} SumsGrow(k: nat, n: nat)
    requires k <= n
    ensures SumOfBackoffs(k) <= SumOfBackoffs(n)
  {
    if k < n { SumsGrow(k, n - 1); }
  }

  /** What is left of the back-off: with at most c failures at once, more than
      c + c^2 + ... + c^(4 + k) failures for each reset take the first k back-offs at least. */
  lemma RacesBound(c: nat, states: seq<System>, events: seq<Event>, n: nat, k: nat) returns (first: nat, last: nat)
    requires IsRun(c, states, events) && n < |states|
    requires |states[n].log| > (states[n].resets + 1) * Total(c, 4 + k)
    requires Numbered(states[n].log) && forall i :: 0 <= i < |states[n].log| ==> InTime(states[n].log, i)
    ensures var log := states[n].log;
      first <= last < |log| && log[first].number == MAX_ATTEMPTS && log[last].at >= log[first].at + SumOfBackoffs(k)
  {
    InvAlong(c, states, events, n);
    last := SomeLarge(c, states[n], 4 + k);
    var log := states[n].log;
    first := Fifth(log, last);
    SpacedByNumber(log, last);
    SumsGrow(k, log[last].number - MAX_ATTEMPTS);
  }

  /** One at a time, and without a reset, that is failure 5 + k. */
  lemma {:induction false} OneAtATime(m: nat)
    ensures Power(1, m) == 1 && Total(1, m) == m
  {
    if m > 0 { OneAtATime(m - 1); }
  }

  // ---- a late write undoes a lock --------------------------------------------------------------------------

  lemma RunMore(c: nat, states: seq<System>, events: seq<Event>, e: Event, s: System)
    requires IsRun(c, states, events) && Next(c, states[|events|], e, s)
    ensures IsRun(c, states + [s], events + [e])
  {
    hide Next;
    var more, es := states + [s], events + [e];
    forall i | 0 <= i < |es| ensures Next(c, more[i], es[i], more[i + 1]) {
      if i < |events| { assert Next(c, states[i], events[i], states[i + 1]); }
    }
  }

  const LATE: map<Task, Reading> := map[0 := Reading(Snapshot(FRESH, Nothing(0)), 0.0)]

  /** One failure is slow, n others are not: each comes when the lock before it is over. */
  lemma {:induction false} OthersFail(n: nat) returns (states: seq<System>, events: seq<Event>)
    ensures IsRun(2, states, events)
    ensures var s := states[|events|];
      && s.inFlight == LATE && s.now >= 0.0 && s.stored.r.failedCount == n
      && s.stored.r.lockedUntil == if n >= MAX_ATTEMPTS then s.now + Backoff(n) else 0.0
  {
    if n == 0 {
      var s := System(0.0, Snapshot(FRESH, Nothing(0)), map[], [], 0);
      states, events := [s, s.(inFlight := LATE)], [ReadHash(0)];
      assert Next(2, s, ReadHash(0), states[1]);
    } else {
      states, events := OthersFail(n - 1);
      states, events := OneFails(n, states, events);
    }
  }

  lemma OneFails(n: nat, states: seq<System>, events: seq<Event>) returns (more: seq<System>, es: seq<Event>)
    requires n > 0 && IsRun(2, states, events)
    requires var s := states[|events|]; s.inFlight == LATE && s.now >= 0.0 && s.stored.r.failedCount == n - 1
    requires n - 1 < MAX_ATTEMPTS ==> states[|events|].stored.r.lockedUntil == 0.0
    ensures IsRun(2, more, es)
    ensures var s := more[|es|];
      && s.inFlight == LATE && s.now >= 0.0 && s.stored.r.failedCount == n
      && s.stored.r.lockedUntil == if n >= MAX_ATTEMPTS then s.now + Backoff(n) else 0.0
  {
    var s1, s2, s3 := InTimeSteps(states[|events|], n);
    var e1, e2, e3 := Tick(s1.now), ReadHash(1), WriteHash(1, s1.now);
    hide Next, IsRun, Failed;
    RunMore(2, states, events, e1, s1);
    RunMore(2, states + [s1], events + [e1], e2, s2);
    RunMore(2, states + [s1] + [s2], events + [e1] + [e2], e3, s3);
    more, es := states + [s1] + [s2] + [s3], events + [e1] + [e2] + [e3];
  }

  /** Waiting for the lock to end, reading and writing. */
  lemma InTimeSteps(s: System, n: nat) returns (s1: System, s2: System, s3: System)
    requires n > 0 && s.inFlight == LATE && s.now >= 0.0 && s.stored.r.failedCount == n - 1
    requires n - 1 < MAX_ATTEMPTS ==> s.stored.r.lockedUntil == 0.0
    ensures Next(2, s, Tick(s1.now), s1) && Next(2, s1, ReadHash(1), s2) && Next(2, s2, WriteHash(1, s1.now), s3)
    ensures s3.inFlight == LATE && s3.now >= 0.0 && s3.stored.r.failedCount == n
    ensures s3.stored.r.lockedUntil == if n >= MAX_ATTEMPTS then s3.now + Backoff(n) else 0.0
  {
    hide Backoff;
    s1 := s.(now := if s.stored.r.lockedUntil > s.now then s.stored.r.lockedUntil else s.now);
    s2 := s1.(inFlight := LATE[1 := Reading(s.stored, s1.now)]);
    var r := Failed(s.stored.r, s1.now, s1.now);
    s3 := s1.(stored := Snapshot(r, Wrote(|s.log|)), log := s.log + [Failure(n, s1.now, r.lockedUntil, s.stored.from)]);
    assert s2.inFlight - {1} == LATE;
  }

  /** After any number of failures from the fifth on, each in time, one late write undoes the lock
      and the count. */
  lemma LateWriteUnlocks(n: nat) returns (states: seq<System>, events: seq<Event>)
    requires n >= MAX_ATTEMPTS
    ensures IsRun(2, states, events) && |events| > 0
    ensures var s, s' := states[|events| - 1], states[|events|];
      && s.stored.r.failedCount == n && !Allowed(s.stored.r, s.now)
      && s'.now == s.now && s'.stored.r.failedCount == 1 && Allowed(s'.stored.r, s'.now)
  {
    states, events := OthersFail(n);
    var s := states[|events|];
    var r := Failed(FRESH, s.now, s.now);
    var s' := s.(stored := Snapshot(r, Wrote(|s.log|)), inFlight := map[], log := s.log + [Failure(1, s.now, r.lockedUntil, Nothing(0))]);
    assert LATE - {0} == map[];
    RunMore(2, states, events, WriteHash(0, s.now), s');
    states, events := states + [s'], events + [WriteHash(0, s.now)];
  }

  // ---- undisturbed, it is what the limiter does ---------------------------------------------------------------

  /** `record_failure` with nothing in between is the two steps. */
  method RecordFailureIsSteps(limiter: RedisLimiter, k: Key, time: real, c: nat, ghost s: System, ghost task: Task)
    returns (ghost middle: System, ghost s': System)
    requires limiter.Valid() && limiter.now <= time
    requires s.stored.r == StoredAt(limiter.hashes, k, time) && s.now == time && task !in s.inFlight && |s.inFlight| < c
    modifies limiter
    ensures Next(c, s, ReadHash(task), middle) && Next(c, middle, WriteHash(task, time), s')
    ensures k in limiter.hashes && s'.stored.r == limiter.hashes[k].r && s'.inFlight == s.inFlight
  {
    limiter.RecordFailure(k, time);
    middle := s.(inFlight := s.inFlight[task := Reading(s.stored, s.now)]);
    var r := Failed(s.stored.r, time, time);
    s' := s.(stored := Snapshot(r, Wrote(|s.log|)), log := s.log + [Failure(r.failedCount, time, r.lockedUntil, s.stored.from)]);
    assert middle.inFlight - {task} == s.inFlight;
  }
}

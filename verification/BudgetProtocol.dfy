/** Any number of tasks inside `guard_call` for one tenant, under a lock that lives in a weak
    map: how far recorded spend can go past a budget. */
module BudgetProtocol {
  import opened Options
  import opened Calendar
  import opened UsageRepo
  import opened BudgetGuard

  type Lock = nat
  type Task = nat

  /** Where a task is, with the lock object it references. Tasks not listed reference none. */
  datatype Phase =
    | Waiting(lock: Lock)
    | Entered(lock: Lock)
    | DailyPassed(lock: Lock, checkedAt: nat)
    | Calling(lock: Lock, checkedAt: nat)
    | Recording(lock: Lock, checkedAt: nat, outcome: CallOutcome)
    | Leaving(lock: Lock)

  /** entry is the tenant's slot in the weak map, owners the locks that are held. */
  datatype System = System(
    now: nat,
    nextLock: Lock,
    entry: Option<Lock>,
    owners: map<Lock, Task>,
    tasks: map<Task, Phase>,
    records: seq<UsageRecord>,
    log: seq<UsageRecord>,
    prunedAt: nat)

  datatype Params = Params(budgets: Budgets, maxAgeDays: nat, callType: string, modelId: string)

  datatype Event =
    | Tick(time: nat)
    | GetLock(task: Task)
    | Acquire(task: Task)
    | PassDaily(task: Task)
    | PassMonthly(task: Task)
    | Refuse(task: Task, period: Period)
    | EndCall(task: Task, outcome: CallOutcome)
    | Record(task: Task, prunedAt: nat)
    | Leave(task: Task)
    | Cancel(task: Task)
    | Collect

  /** Between `acquire` and the release of the lock. */
  predicate Critical(s: System, t: Task) {
    t in s.tasks && !s.tasks[t].Waiting?
  }

  function Moved(s: System, t: Task, ph: Phase): System {
    s.(tasks := s.tasks[t := ph])
  }

  /** The task is gone, and with it its hold on the lock. */
  function Exited(s: System, t: Task): System
    requires t in s.tasks
  {
    s.(tasks := s.tasks - {t}, owners := if s.tasks[t].Waiting? then s.owners else s.owners - {s.tasks[t].lock})
  }

  ghost predicate Next(p: Params, s: System, e: Event, s': System) {
    match e
    case Tick(t) => s.now <= t && s' == s.(now := t)
    case GetLock(t) =>
      t !in s.tasks
      && s' == if s.entry.Some? then Moved(s, t, Waiting(s.entry.value))
               else Moved(s, t, Waiting(s.nextLock)).(entry := Some(s.nextLock), nextLock := s.nextLock + 1)
    case Acquire(t) =>
      && t in s.tasks && s.tasks[t].Waiting? && s.tasks[t].lock !in s.owners
      && s' == Moved(s, t, Entered(s.tasks[t].lock)).(owners := s.owners[s.tasks[t].lock := t])
    case PassDaily(t) =>
      && t in s.tasks && s.tasks[t].Entered? && !Reached(p.budgets, s.records, Day, s.now)
      && s' == Moved(s, t, DailyPassed(s.tasks[t].lock, s.now))
    case PassMonthly(t) =>
      && t in s.tasks && s.tasks[t].DailyPassed? && !Reached(p.budgets, s.records, Month, s.tasks[t].checkedAt)
      && s' == Moved(s, t, Calling(s.tasks[t].lock, s.tasks[t].checkedAt))
    case Refuse(t, q) =>
      && t in s.tasks
      && (match q
          case Day => s.tasks[t].Entered? && Reached(p.budgets, s.records, Day, s.now)
          case Month => s.tasks[t].DailyPassed? && Reached(p.budgets, s.records, Month, s.tasks[t].checkedAt))
      && s' == Exited(s, t)
    case EndCall(t, outcome) =>
      && t in s.tasks && s.tasks[t].Calling?
      && s' == Moved(s, t, Recording(s.tasks[t].lock, s.tasks[t].checkedAt, outcome))
    case Record(t, prunedAt) =>
      && t in s.tasks && s.tasks[t].Recording? && s.now <= prunedAt
      && var r := RecordOf(p.callType, p.modelId, s.tasks[t].outcome, s.now);
         s' == Moved(s, t, Leaving(s.tasks[t].lock)).(
               records := Kept(s.records + [r], CutoffAt(p.maxAgeDays, prunedAt)),
               log := s.log + [r], now := prunedAt, prunedAt := prunedAt)
    case Leave(t) => t in s.tasks && s.tasks[t].Leaving? && s' == Exited(s, t)
    // at any of its awaits; a cancelled call is not recorded
    case Cancel(t) => t in s.tasks && s' == Exited(s, t)
    // the weak map drops its entry once nothing references the lock
    case Collect => (forall t :: t in s.tasks ==> Some(s.tasks[t].lock) != s.entry) && s' == s.(entry := None)
  }

  ghost predicate Init(s: System) {
    s.entry == None && s.owners == map[] && s.tasks == map[] && s.records == [] && s.log == [] && s.prunedAt <= s.now
  }

  /** states[i] leads to states[i + 1] by events[i], from an initial state. */
  ghost predicate IsRun(p: Params, states: seq<System>, events: seq<Event>) {
    && |states| == |events| + 1 && Init(states[0])
    && forall i :: 0 <= i < |events| ==> Next(p, states[i], events[i], states[i + 1])
  }

  // ---- the lock ------------------------------------------------------------------------------

  /** Every task that references a lock references the one in the map, and a task past
      `acquire` owns it. */
  predicate TaskLocked(s: System, t: Task) {
    t in s.tasks ==>
      && s.entry == Some(s.tasks[t].lock)
      && (Critical(s, t) ==> s.tasks[t].lock in s.owners && s.owners[s.tasks[t].lock] == t)
  }

  /** A lock is held by a task that is still inside: none is leaked. */
  predicate OwnerInside(s: System, l: Lock) {
    l in s.owners ==> Critical(s, s.owners[l]) && s.tasks[s.owners[l]].lock == l
  }

  ghost predicate LockInv(s: System) {
    (forall t :: TaskLocked(s, t)) && (forall l :: OwnerInside(s, l))
  }

  lemma LockStep(p: Params, s: System, e: Event, s': System)
    requires LockInv(s) && Next(p, s, e, s')
    ensures LockInv(s')
  {
    forall t ensures TaskLocked(s', t) { TaskLockedStep(p, s, e, s', t); }
    forall l ensures OwnerInside(s', l) { OwnerInsideStep(p, s, e, s', l); }
  }

  lemma TaskLockedStep(p: Params, s: System, e: Event, s': System, t: Task)
    requires LockInv(s) && Next(p, s, e, s')
    ensures TaskLocked(s', t)
  {
    hide Reached, RecordOf, Kept;
    assert TaskLocked(s, t);
    match e {
      case Tick(_) =>
      case GetLock(_) =>
      case Collect =>
      case Acquire(u) => if t != u { assert TaskLocked(s, u); }
      case PassDaily(u) =>
      case PassMonthly(u) =>
      case Refuse(u, _) => OtherOwner(s, t, u);
      case EndCall(u, _) =>
      case Record(u, _) =>
      case Leave(u) => OtherOwner(s, t, u);
      case Cancel(u) => OtherOwner(s, t, u);
    }
  }

  /** Two tasks past `acquire` are the same task. */
  lemma OtherOwner(s: System, t: Task, u: Task)
    requires LockInv(s)
    ensures Critical(s, t) && Critical(s, u) ==> t == u
  {
    assert TaskLocked(s, t) && TaskLocked(s, u);
  }

  lemma OwnerInsideStep(p: Params, s: System, e: Event, s': System, l: Lock)
    requires LockInv(s) && Next(p, s, e, s')
    ensures OwnerInside(s', l)
  {
    hide Reached, RecordOf, Kept;
    assert OwnerInside(s, l);
    if l in s.owners { assert TaskLocked(s, s.owners[l]); }
    if e.Cancel? { assert TaskLocked(s, e.task); }
  }

  // ---- the spend -----------------------------------------------------------------------------------

  /** The repository is the log, pruned; the log is in the past. */
  ghost predicate RepoInv(p: Params, s: System) {
    && s.records == Kept(s.log, CutoffAt(p.maxAgeDays, s.prunedAt))
    && s.prunedAt <= s.now
    && NoneAfter(s.log, s.now)
  }

  predicate Passed(ph: Phase, q: Period) {
    ph.Calling? || ph.Recording? || (ph.DailyPassed? && q == Day)
  }

  /** Since the check passed nothing has been recorded: the log is still below the limit. */
  ghost predicate Cleared(p: Params, s: System, t: Task) {
    t in s.tasks && (s.tasks[t].DailyPassed? || s.tasks[t].Calling? || s.tasks[t].Recording?) ==>
      var at := s.tasks[t].checkedAt;
      && s.prunedAt <= at <= s.now && NoneAfter(s.log, at)
      && (forall q :: Passed(s.tasks[t], q) ==> !Reached(p.budgets, s.log, q, at))
  }

  lemma SpentDuringAppend(log: seq<UsageRecord>, r: UsageRecord, p: Period, u: nat)
    ensures SpentDuring(log + [r], p, u) == SpentDuring(log, p, u) + (if InPeriod(p, r.ts, u) then r.cost else 0)
  {
    assert (log + [r])[..|log|] == log;
  }

  /** It does not matter by which time of a period it is named. */
  lemma {:induction false} SamePeriodSameSpent(log: seq<UsageRecord>, p: Period, u: nat, v: nat)
    requires InPeriod(p, u, v)
    ensures SpentDuring(log, p, u) == SpentDuring(log, p, v)
  {
    hide InPeriod, StartOf;
    if log != [] {
      var ts := log[|log| - 1].ts;
      SamePeriodSameSpent(log[..|log| - 1], p, u, v);
      PeriodIff(p, u, v);
      PeriodIff(p, ts, u);
      PeriodIff(p, ts, v);
    }
  }

  /** When record i was made, its day and its month were below the limit. */
  ghost predicate BelowBefore(b: Budgets, log: seq<UsageRecord>, i: nat, q: Period) {
    i < |log| && Limit(b, q).Some? ==> SpentDuring(log[..i], q, log[i].ts) < Limit(b, q).value
  }

  ghost predicate SpendInv(p: Params, s: System) {
    && RepoInv(p, s)
    && (forall t :: Cleared(p, s, t))
    && (forall i, q :: BelowBefore(p.budgets, s.log, i, q))
  }

  /** A limit not reached at the check is not reached when the call is recorded, be it in the
      same period or in a later one. */
  lemma StillBelow(b: Budgets, log: seq<UsageRecord>, q: Period, checkedAt: nat, ts: nat)
    requires NoneAfter(log, checkedAt) && checkedAt <= ts && !Reached(b, log, q, checkedAt)
    ensures Limit(b, q).Some? ==> SpentDuring(log, q, ts) < Limit(b, q).value
  {
    SpentSinceStart(log, q, ts);
    if StartOf(q, ts) <= checkedAt {
      SamePeriod(q, checkedAt, ts);
    } else {
      NoneSince(log, StartOf(q, ts), checkedAt);
    }
  }

  lemma {:induction false} NoneSince(log: seq<UsageRecord>, since: nat, now: nat)
    requires NoneAfter(log, now) && now < since
    ensures SpentSince(log, since) == 0
  {
    if log != [] { NoneSince(log[..|log| - 1], since, now); }
  }

  lemma SpendStep(p: Params, s: System, e: Event, s': System)
    requires p.maxAgeDays >= 31 && LockInv(s) && SpendInv(p, s) && Next(p, s, e, s')
    ensures SpendInv(p, s')
  {
    if e.Record? {
      RecordStep(p, s, e, s');
    } else {
      assert s'.log == s.log && s'.records == s.records && s'.prunedAt == s.prunedAt && s.now <= s'.now;
      forall t ensures Cleared(p, s', t) { ClearedStep(p, s, e, s', t); }
    }
  }

  lemma ClearedStep(p: Params, s: System, e: Event, s': System, t: Task)
    requires p.maxAgeDays >= 31 && RepoInv(p, s) && Cleared(p, s, t) && Next(p, s, e, s') && !e.Record?
    ensures Cleared(p, s', t)
  {
    hide Reached, RecordOf, Kept, NoneAfter;
    if e.PassDaily? && e.task == t {
      ReachedOfKept(p.budgets, s.log, p.maxAgeDays, s.prunedAt, Day, s.now);
    } else if e.PassMonthly? && e.task == t {
      ReachedOfKept(p.budgets, s.log, p.maxAgeDays, s.prunedAt, Month, s.tasks[t].checkedAt);
    }
  }

  lemma RecordStep(p: Params, s: System, e: Event, s': System)
    requires LockInv(s) && SpendInv(p, s) && e.Record? && Next(p, s, e, s')
    ensures SpendInv(p, s')
  {
    hide Kept, Reached, RecordOf, SpentDuring, StartOf, LockInv;
    var at := s.tasks[e.task].checkedAt;
    var r := RecordOf(p.callType, p.modelId, s.tasks[e.task].outcome, s.now);
    RecordTime(p.callType, p.modelId, s.tasks[e.task].outcome, s.now);
    assert Cleared(p, s, e.task);
    PruneAppended(p, s, r, e.prunedAt);
    forall t ensures Cleared(p, s', t) {
      OtherOwner(s, t, e.task);
    }
    assert forall q :: Passed(s.tasks[e.task], q) && !Reached(p.budgets, s.log, q, at);
    assert s'.log == s.log + [r];
    hide Next, Cleared;
    OneMoreBelow(p.budgets, s.log, r, at);
  }

  lemma RecordTime(callType: string, modelId: string, outcome: CallOutcome, ts: nat)
    ensures RecordOf(callType, modelId, outcome, ts).ts == ts
  {
  }

  lemma OneMoreBelow(b: Budgets, log: seq<UsageRecord>, r: UsageRecord, checkedAt: nat)
    requires NoneAfter(log, checkedAt) && checkedAt <= r.ts && forall q :: !Reached(b, log, q, checkedAt)
    requires forall i, q :: BelowBefore(b, log, i, q)
    ensures forall i, q :: BelowBefore(b, log + [r], i, q)
  {
    hide Reached, SpentDuring, StartOf;
    var more := log + [r];
    forall i: nat, q ensures BelowBefore(b, more, i, q) {
      if i < |log| {
        assert BelowBefore(b, log, i, q);
        assert more[..i] == log[..i] && more[i] == log[i];
      } else if i == |log| {
        assert more[..i] == log && more[i] == r;
        StillBelow(b, log, q, checkedAt, r.ts);
      }
    }
  }

  lemma PruneAppended(p: Params, s: System, r: UsageRecord, prunedAt: nat)
    requires RepoInv(p, s) && s.now == r.ts <= prunedAt
    ensures Kept(s.records + [r], CutoffAt(p.maxAgeDays, prunedAt)) == Kept(s.log + [r], CutoffAt(p.maxAgeDays, prunedAt))
  {
    var before, after := CutoffAt(p.maxAgeDays, s.prunedAt), CutoffAt(p.maxAgeDays, prunedAt);
    KeptAppend(s.log, r, before);
    KeptTwice(s.log + [r], before, after);
  }

  // ---- whole runs --------------------------------------------------------------------------------------

  lemma {:induction false} InvAlong(p: Params, states: seq<System>, events: seq<Event>, i: nat)
    requires p.maxAgeDays >= 31 && IsRun(p, states, events) && i < |states|
    ensures LockInv(states[i]) && SpendInv(p, states[i])
  {
    if i > 0 {
      InvAlong(p, states, events, i - 1);
      assert Next(p, states[i - 1], events[i - 1], states[i]);
      LockStep(p, states[i - 1], events[i - 1], states[i]);
      SpendStep(p, states[i - 1], events[i - 1], states[i]);
    }
  }

  lemma {:induction false} LocksAlong(p: Params, states: seq<System>, events: seq<Event>, i: nat)
    requires IsRun(p, states, events) && i < |states|
    ensures LockInv(states[i])
  {
    if i > 0 {
      LocksAlong(p, states, events, i - 1);
      assert Next(p, states[i - 1], events[i - 1], states[i]);
      LockStep(p, states[i - 1], events[i - 1], states[i]);
    }
  }

  /** At most one task is between acquiring and releasing, whenever locks are collected. */
  lemma MutualExclusion(p: Params, states: seq<System>, events: seq<Event>, i: nat, t: Task, u: Task)
    requires IsRun(p, states, events) && i < |states|
    requires Critical(states[i], t) && Critical(states[i], u)
    ensures t == u
  {
    LocksAlong(p, states, events, i);
    OtherOwner(states[i], t, u);
  }

  /** No lock is left locked: if no task is inside, every waiting task can acquire. */
  lemma NeverStuck(p: Params, states: seq<System>, events: seq<Event>, i: nat, t: Task)
    requires IsRun(p, states, events) && i < |states|
    requires t in states[i].tasks && states[i].tasks[t].Waiting? && forall u :: !Critical(states[i], u)
    ensures exists s' :: Next(p, states[i], Acquire(t), s')
  {
    LocksAlong(p, states, events, i);
    var s := states[i];
    assert OwnerInside(s, s.tasks[t].lock);
    assert Next(p, s, Acquire(t), Moved(s, t, Entered(s.tasks[t].lock)).(owners := s.owners[s.tasks[t].lock := t]));
  }

  /** The record that took the period as far as it is. */
  ghost predicate PushedBy(log: seq<UsageRecord>, q: Period, u: nat, limit: int, i: nat) {
    i < |log| && InPeriod(q, log[i].ts, u) && SpentDuring(log, q, u) < limit + log[i].cost
  }

  /** In every run, what is recorded in a day or a month is nothing, or less than its budget
      plus the cost of one of the calls recorded in it. */
  lemma OvershootAtMostOneCall(p: Params, states: seq<System>, events: seq<Event>, i: nat, q: Period, u: nat)
    requires p.maxAgeDays >= 31 && IsRun(p, states, events) && i < |states| && Limit(p.budgets, q).Some?
    ensures SpentDuring(states[i].log, q, u) == 0
         || exists k :: PushedBy(states[i].log, q, u, Limit(p.budgets, q).value, k)
  {
    InvAlong(p, states, events, i);
    OvershootOfLog(p.budgets, states[i].log, q, u);
  }

  lemma {:induction false} OvershootOfLog(b: Budgets, log: seq<UsageRecord>, q: Period, u: nat)
    requires Limit(b, q).Some? && forall i :: BelowBefore(b, log, i, q)
    ensures SpentDuring(log, q, u) == 0 || exists k :: PushedBy(log, q, u, Limit(b, q).value, k)
  {
    hide InPeriod;
    if log != [] {
      var n := |log| - 1;
      assert BelowBefore(b, log, n, q);
      if InPeriod(q, log[n].ts, u) {
        SamePeriodSameSpent(log[..n], q, log[n].ts, u);
        assert PushedBy(log, q, u, Limit(b, q).value, n);
      } else {
        var init := log[..n];
        forall i: nat ensures BelowBefore(b, init, i, q) {
          assert BelowBefore(b, log, i, q);
          if i < n { assert init[..i] == log[..i]; }
        }
        OvershootOfLog(b, init, q, u);
        if SpentDuring(init, q, u) != 0 {
          var k :| PushedBy(init, q, u, Limit(b, q).value, k);
          assert PushedBy(log, q, u, Limit(b, q).value, k);
        }
      }
    }
  }

  /** In every run the two checks see the spend of the whole log, pruned though the records are. */
  lemma ChecksSeeWholeLog(p: Params, states: seq<System>, events: seq<Event>, i: nat, t: Task)
    requires p.maxAgeDays >= 31 && IsRun(p, states, events) && i < |states|
    ensures var s := states[i];
      && Reached(p.budgets, s.records, Day, s.now) == Reached(p.budgets, s.log, Day, s.now)
      && (t in s.tasks && s.tasks[t].DailyPassed? ==>
            Reached(p.budgets, s.records, Month, s.tasks[t].checkedAt) == Reached(p.budgets, s.log, Month, s.tasks[t].checkedAt))
  {
    InvAlong(p, states, events, i);
    var s := states[i];
    ReachedOfKept(p.budgets, s.log, p.maxAgeDays, s.prunedAt, Day, s.now);
    assert Cleared(p, s, t);
    if t in s.tasks && s.tasks[t].DailyPassed? {
      ReachedOfKept(p.budgets, s.log, p.maxAgeDays, s.prunedAt, Month, s.tasks[t].checkedAt);
    }
  }

  // ---- one call of the guard, as steps ---------------------------------------------------------------

  /** The events lead from s to s'. */
  ghost predicate Leads(p: Params, s: System, events: seq<Event>, s': System)
    decreases |events|
  {
    if events == [] then s == s'
    else exists m :: Next(p, s, events[0], m) && Leads(p, m, events[1..], s')
  }

  lemma LeadsCons(p: Params, s: System, e: Event, m: System, rest: seq<Event>, s': System)
    requires Next(p, s, e, m) && Leads(p, m, rest, s')
    ensures Leads(p, s, [e] + rest, s')
  {
    assert ([e] + rest)[0] == e && ([e] + rest)[1..] == rest;
    hide Next;
  }

  lemma {:induction false} LeadsJoin(p: Params, s: System, a: seq<Event>, m: System, b: seq<Event>, s': System)
    requires Leads(p, s, a, m) && Leads(p, m, b, s')
    ensures Leads(p, s, a + b, s')
    decreases |a|
  {
    hide Next;
    if a == [] {
      assert a + b == b;
    } else {
      var n :| Next(p, s, a[0], n) && Leads(p, n, a[1..], m);
      LeadsJoin(p, n, a[1..], m, b, s');
      assert a + b == [a[0]] + (a[1..] + b);
      LeadsCons(p, s, a[0], n, a[1..] + b, s');
    }
  }

  /** Events that lead somewhere from an initial state are a run. */
  lemma LeadsRun(p: Params, s: System, events: seq<Event>, s': System) returns (states: seq<System>)
    requires Init(s) && Leads(p, s, events, s')
    ensures IsRun(p, states, events) && states[|events|] == s'
  {
    states := StatesBetween(p, s, events, s');
  }

  lemma {:induction false} StatesBetween(p: Params, s: System, events: seq<Event>, s': System) returns (states: seq<System>)
    requires Leads(p, s, events, s')
    ensures |states| == |events| + 1 && states[0] == s && states[|events|] == s'
    ensures forall i :: 0 <= i < |events| ==> Next(p, states[i], events[i], states[i + 1])
    decreases |events|
  {
    hide Next;
    if events == [] {
      states := [s];
    } else {
      var m :| Next(p, s, events[0], m) && Leads(p, m, events[1..], s');
      var rest := StatesBetween(p, m, events[1..], s');
      states := [s] + rest;
      forall i | 0 <= i < |events| ensures Next(p, states[i], events[i], states[i + 1]) {
        if i > 0 {
          assert states[i] == rest[i - 1] && states[i + 1] == rest[i] && events[i] == events[1..][i - 1];
        }
      }
    }
  }

  /** When the guard's clock is read during a call. */
  datatype Readings = Readings(checkedAt: nat, ts: nat, prunedAt: nat)

  predicate InOrder(s: System, c: Readings) {
    s.now <= c.checkedAt <= c.ts <= c.prunedAt
  }

  predicate Refuses(p: Params, s: System, c: Readings) {
    Reached(p.budgets, s.records, Day, c.checkedAt) || Reached(p.budgets, s.records, Month, c.checkedAt)
  }

  function LockOf(s: System): Lock {
    if s.entry.Some? then s.entry.value else s.nextLock
  }

  function EnterEvents(t: Task, c: Readings): seq<Event> {
    [GetLock(t), Acquire(t), Tick(c.checkedAt)]
  }

  function LeaveEvents(t: Task, outcome: CallOutcome, c: Readings): seq<Event> {
    [PassDaily(t), PassMonthly(t), Tick(c.ts), EndCall(t, outcome), Record(t, c.prunedAt), Leave(t)]
  }

  function CallEvents(p: Params, s: System, t: Task, outcome: CallOutcome, c: Readings): seq<Event> {
    EnterEvents(t, c) +
    if Reached(p.budgets, s.records, Day, c.checkedAt) then [Refuse(t, Day)]
    else if Reached(p.budgets, s.records, Month, c.checkedAt) then [PassDaily(t), Refuse(t, Month)]
    else LeaveEvents(t, outcome, c)
  }

  /** No task in the system, and the lock in the weak map. */
  function Idle(s: System): System {
    s.(entry := Some(LockOf(s)), nextLock := if s.entry.Some? then s.nextLock else s.nextLock + 1)
  }

  function Inside(s: System, t: Task, ph: Phase, now: nat): System {
    Idle(s).(tasks := s.tasks[t := ph], owners := map[LockOf(s) := t], now := now)
  }

  /** The system once the task has come and gone. */
  function AfterCall(p: Params, s: System, outcome: CallOutcome, c: Readings): System {
    if Refuses(p, s, c) then Idle(s).(now := c.checkedAt)
    else Recorded(p, Idle(s), outcome, c)
  }

  function Recorded(p: Params, s: System, outcome: CallOutcome, c: Readings): System {
    var r := RecordOf(p.callType, p.modelId, outcome, c.ts);
    s.(now := c.prunedAt, prunedAt := c.prunedAt, log := s.log + [r], records := Kept(s.records + [r], CutoffAt(p.maxAgeDays, c.prunedAt)))
  }

  lemma LeadsMore(p: Params, s: System, events: seq<Event>, m: System, e: Event, s': System)
    requires Leads(p, s, events, m) && Next(p, m, e, s')
    ensures Leads(p, s, events + [e], s')
  {
    assert Leads(p, s', [], s');
    LeadsCons(p, m, e, s', [], s');
    assert [e] + [] == [e];
    hide Next, Leads;
    LeadsJoin(p, s, events, m, [e], s');
  }

  lemma Enters(p: Params, s: System, t: Task, c: Readings)
    requires s.owners == map[] && t !in s.tasks && InOrder(s, c)
    ensures Leads(p, s, EnterEvents(t, c), Inside(s, t, Entered(LockOf(s)), c.checkedAt))
  {
    var l := LockOf(s);
    var s1 := Moved(Idle(s), t, Waiting(l));
    var s2 := Inside(s, t, Entered(l), s.now);
    assert Leads(p, s, [], s);
    assert Next(p, s, GetLock(t), s1);
    assert Next(p, s1, Acquire(t), s2);
    assert Next(p, s2, Tick(c.checkedAt), Inside(s, t, Entered(l), c.checkedAt));
    hide Next, Leads;
    LeadsMore(p, s, [], s, GetLock(t), s1);
    LeadsMore(p, s, [] + [GetLock(t)], s1, Acquire(t), s2);
    LeadsMore(p, s, [] + [GetLock(t)] + [Acquire(t)], s2, Tick(c.checkedAt), Inside(s, t, Entered(l), c.checkedAt));
    assert [] + [GetLock(t)] + [Acquire(t)] + [Tick(c.checkedAt)] == EnterEvents(t, c);
  }

  /** Leaving, the task takes its lock and itself away. */
  lemma ExitedIs(s: System, t: Task, ph: Phase, now: nat)
    requires s.owners == map[] && t !in s.tasks && !ph.Waiting? && ph.lock == LockOf(s)
    ensures Exited(Inside(s, t, ph, now), t) == Idle(s).(now := now)
  {
    assert s.tasks[t := ph] - {t} == s.tasks;
    assert map[LockOf(s) := t] - {LockOf(s)} == map[];
  }

  lemma LeavesRefused(p: Params, s: System, t: Task, outcome: CallOutcome, c: Readings)
    requires s.owners == map[] && t !in s.tasks && InOrder(s, c) && Refuses(p, s, c)
    ensures var l := LockOf(s);
      Leads(p, Inside(s, t, Entered(l), c.checkedAt), CallEvents(p, s, t, outcome, c)[3..], Idle(s).(now := c.checkedAt))
  {
    hide Reached;
    var l := LockOf(s);
    var s1, s2, s' := Inside(s, t, Entered(l), c.checkedAt), Inside(s, t, DailyPassed(l, c.checkedAt), c.checkedAt), Idle(s).(now := c.checkedAt);
    ExitedIs(s, t, Entered(l), c.checkedAt);
    ExitedIs(s, t, DailyPassed(l, c.checkedAt), c.checkedAt);
    assert Leads(p, s1, [], s1);
    if Reached(p.budgets, s.records, Day, c.checkedAt) {
      assert Next(p, s1, Refuse(t, Day), s');
      hide Next, Leads;
      LeadsMore(p, s1, [], s1, Refuse(t, Day), s');
      assert CallEvents(p, s, t, outcome, c)[3..] == [] + [Refuse(t, Day)];
    } else {
      assert Next(p, s1, PassDaily(t), s2);
      assert Next(p, s2, Refuse(t, Month), s');
      hide Next, Leads;
      LeadsMore(p, s1, [], s1, PassDaily(t), s2);
      LeadsMore(p, s1, [] + [PassDaily(t)], s2, Refuse(t, Month), s');
      assert CallEvents(p, s, t, outcome, c)[3..] == [] + [PassDaily(t)] + [Refuse(t, Month)];
    }
  }

  lemma ChecksPass(p: Params, s: System, t: Task, c: Readings)
    requires s.owners == map[] && t !in s.tasks && InOrder(s, c) && !Refuses(p, s, c)
    ensures var l, at := LockOf(s), c.checkedAt;
      Leads(p, Inside(s, t, Entered(l), at), [PassDaily(t), PassMonthly(t), Tick(c.ts)], Inside(s, t, Calling(l, at), c.ts))
  {
    hide Reached;
    var l, at := LockOf(s), c.checkedAt;
    var s1, s2, s3, s4 := Inside(s, t, Entered(l), at), Inside(s, t, DailyPassed(l, at), at), Inside(s, t, Calling(l, at), at), Inside(s, t, Calling(l, at), c.ts);
    assert Leads(p, s1, [], s1);
    assert Next(p, s1, PassDaily(t), s2);
    assert Next(p, s2, PassMonthly(t), s3);
    assert Next(p, s3, Tick(c.ts), s4);
    hide Next, Leads, Refuses, Inside;
    LeadsMore(p, s1, [], s1, PassDaily(t), s2);
    LeadsMore(p, s1, [] + [PassDaily(t)], s2, PassMonthly(t), s3);
    LeadsMore(p, s1, [] + [PassDaily(t)] + [PassMonthly(t)], s3, Tick(c.ts), s4);
    assert [] + [PassDaily(t)] + [PassMonthly(t)] + [Tick(c.ts)] == [PassDaily(t), PassMonthly(t), Tick(c.ts)];
  }

  lemma CallEnds(p: Params, s: System, t: Task, outcome: CallOutcome, c: Readings)
    requires s.owners == map[] && t !in s.tasks && c.ts <= c.prunedAt
    ensures Leads(p, Inside(s, t, Calling(LockOf(s), c.checkedAt), c.ts), [EndCall(t, outcome), Record(t, c.prunedAt), Leave(t)], Recorded(p, Idle(s), outcome, c))
  {
    hide RecordOf, Kept;
    var l, at := LockOf(s), c.checkedAt;
    var done := Recorded(p, s, outcome, c);
    var s4, s5 := Inside(s, t, Calling(l, at), c.ts), Inside(s, t, Recording(l, at, outcome), c.ts);
    var s6, s' := Inside(done, t, Leaving(l), c.prunedAt), Recorded(p, Idle(s), outcome, c);
    ExitedIs(done, t, Leaving(l), c.prunedAt);
    assert Leads(p, s4, [], s4);
    assert Next(p, s4, EndCall(t, outcome), s5);
    RecordsInside(p, s, t, outcome, c);
    assert Next(p, s6, Leave(t), s');
    hide Next, Leads, Inside, Recorded;
    LeadsMore(p, s4, [], s4, EndCall(t, outcome), s5);
    LeadsMore(p, s4, [] + [EndCall(t, outcome)], s5, Record(t, c.prunedAt), s6);
    LeadsMore(p, s4, [] + [EndCall(t, outcome)] + [Record(t, c.prunedAt)], s6, Leave(t), s');
    assert [] + [EndCall(t, outcome)] + [Record(t, c.prunedAt)] + [Leave(t)] == [EndCall(t, outcome), Record(t, c.prunedAt), Leave(t)];
  }

  lemma RecordsInside(p: Params, s: System, t: Task, outcome: CallOutcome, c: Readings)
    requires c.ts <= c.prunedAt
    ensures Next(p, Inside(s, t, Recording(LockOf(s), c.checkedAt, outcome), c.ts), Record(t, c.prunedAt),
                 Inside(Recorded(p, s, outcome, c), t, Leaving(LockOf(s)), c.prunedAt))
  {
    hide RecordOf, Kept;
    var ph := Recording(LockOf(s), c.checkedAt, outcome);
    assert s.tasks[t := ph][t := Leaving(LockOf(s))] == s.tasks[t := Leaving(LockOf(s))];
  }

  lemma LeavesRecorded(p: Params, s: System, t: Task, outcome: CallOutcome, c: Readings)
    requires s.owners == map[] && t !in s.tasks && InOrder(s, c) && !Refuses(p, s, c)
    ensures Leads(p, Inside(s, t, Entered(LockOf(s)), c.checkedAt), LeaveEvents(t, outcome, c), Recorded(p, Idle(s), outcome, c))
  {
    hide Leads, Refuses, Inside, Recorded;
    ChecksPass(p, s, t, c);
    CallEnds(p, s, t, outcome, c);
    var a, b := [PassDaily(t), PassMonthly(t), Tick(c.ts)], [EndCall(t, outcome), Record(t, c.prunedAt), Leave(t)];
    LeadsJoin(p, Inside(s, t, Entered(LockOf(s)), c.checkedAt), a, Inside(s, t, Calling(LockOf(s), c.checkedAt), c.ts), b, Recorded(p, Idle(s), outcome, c));
    assert a + b == LeaveEvents(t, outcome, c);
  }

  /** A call of a task that nobody is in the way of, as steps of the system. */
  lemma CallIsSteps(p: Params, s: System, t: Task, outcome: CallOutcome, c: Readings)
    requires s.owners == map[] && t !in s.tasks && InOrder(s, c)
    ensures Leads(p, s, CallEvents(p, s, t, outcome, c), AfterCall(p, s, outcome, c))
  {
    hide Leads, Reached, Recorded;
    var inside := Inside(s, t, Entered(LockOf(s)), c.checkedAt);
    Enters(p, s, t, c);
    if Refuses(p, s, c) {
      LeavesRefused(p, s, t, outcome, c);
      assert CallEvents(p, s, t, outcome, c) == EnterEvents(t, c) + CallEvents(p, s, t, outcome, c)[3..];
      LeadsJoin(p, s, EnterEvents(t, c), inside, CallEvents(p, s, t, outcome, c)[3..], AfterCall(p, s, outcome, c));
    } else {
      LeavesRecorded(p, s, t, outcome, c);
      LeadsJoin(p, s, EnterEvents(t, c), inside, LeaveEvents(t, outcome, c), AfterCall(p, s, outcome, c));
    }
  }

  /** The system's repository is the guard's. */
  ghost predicate Represents(p: Params, s: System, guard: Guard)
    reads guard.repo
  {
    && p.budgets == guard.budgets && p.maxAgeDays == guard.repo.maxAgeDays
    && s.records == guard.repo.records && s.log == guard.repo.log && s.prunedAt == guard.repo.prunedAt
  }

  /** `guard_call` as the object runs it is such a call: the same decision, and the same
      repository afterwards. */
  method GuardCallIsSteps(p: Params, ghost s: System, ghost t: Task, guard: Guard, outcome: CallOutcome, c: Readings) returns (r: GuardResult)
    requires guard.repo.Valid() && Represents(p, s, guard) && s.prunedAt <= s.now && s.owners == map[] && t !in s.tasks && InOrder(s, c)
    modifies guard.repo
    ensures Leads(p, s, CallEvents(p, s, t, outcome, c), AfterCall(p, s, outcome, c))
    ensures guard.repo.Valid() && Represents(p, AfterCall(p, s, outcome, c), guard)
    ensures r.Refused? <==> Refuses(p, s, c)
  {
    hide Leads, Kept;
    CallIsSteps(p, s, t, outcome, c);
    SeenIsKept(guard, c.checkedAt);
    ghost var before := guard.repo.log;
    r := guard.GuardCall(p.callType, p.modelId, outcome, c.checkedAt, c.ts, c.prunedAt);
    if !r.Refused? {
      KeptAgain(before, RecordOf(p.callType, p.modelId, outcome, c.ts), p.maxAgeDays, s.prunedAt, c.prunedAt);
    }
  }

  lemma SeenIsKept(guard: Guard, now: nat)
    requires guard.repo.Valid() && guard.repo.prunedAt <= now
    ensures forall q :: Reached(guard.budgets, guard.Seen(), q, now) == Reached(guard.budgets, guard.repo.records, q, now)
  {
    if guard.repo.maxAgeDays >= 31 {
      forall q ensures Reached(guard.budgets, guard.Seen(), q, now) == Reached(guard.budgets, guard.repo.records, q, now) {
        ReachedOfKept(guard.budgets, guard.repo.log, guard.repo.maxAgeDays, guard.repo.prunedAt, q, now);
      }
    }
  }

  lemma KeptAgain(log: seq<UsageRecord>, r: UsageRecord, maxAgeDays: nat, prunedBefore: nat, prunedAt: nat)
    requires prunedBefore <= r.ts && prunedBefore <= prunedAt
    ensures var after := CutoffAt(maxAgeDays, prunedAt);
      Kept(Kept(log, CutoffAt(maxAgeDays, prunedBefore)) + [r], after) == Kept(log + [r], after)
  {
    KeptAppend(log, r, CutoffAt(maxAgeDays, prunedBefore));
    KeptTwice(log + [r], CutoffAt(maxAgeDays, prunedBefore), CutoffAt(maxAgeDays, prunedAt));
  }

  // ---- the bound is tight -----------------------------------------------------------------------------

  /** Costs are multiples of 3 micro-dollars, so is the spend, and the most that is below a limit. */
  function MostBelow(limit: int): int {
    (limit - 1) / 3 * 3
  }

  predicate CostsInThrees(log: seq<UsageRecord>) {
    forall i :: 0 <= i < |log| ==> log[i].cost % 3 == 0
  }

  lemma CostOfRecord(callType: string, modelId: string, outcome: CallOutcome, ts: nat)
    ensures RecordOf(callType, modelId, outcome, ts).cost % 3 == 0
  {
  }

  lemma {:induction false} ThreesAlong(p: Params, states: seq<System>, events: seq<Event>, i: nat)
    requires IsRun(p, states, events) && i < |states|
    ensures CostsInThrees(states[i].log)
  {
    if i > 0 {
      ThreesAlong(p, states, events, i - 1);
      assert Next(p, states[i - 1], events[i - 1], states[i]);
      ThreesStep(p, states[i - 1], events[i - 1], states[i]);
    }
  }

  lemma ThreesStep(p: Params, s: System, e: Event, s': System)
    requires Next(p, s, e, s') && CostsInThrees(s.log)
    ensures CostsInThrees(s'.log)
  {
    hide Reached, Kept, RecordOf;
    if e.Record? { CostOfRecord(p.callType, p.modelId, s.tasks[e.task].outcome, s.now); }
  }

  lemma {:induction false} SpentInThrees(log: seq<UsageRecord>, q: Period, u: nat)
    requires CostsInThrees(log)
    ensures SpentDuring(log, q, u) % 3 == 0
  {
    hide InPeriod;
    if log != [] { SpentInThrees(log[..|log| - 1], q, u); }
  }

  ghost predicate PushedTo(log: seq<UsageRecord>, q: Period, u: nat, limit: int, i: nat) {
    i < |log| && InPeriod(q, log[i].ts, u) && SpentDuring(log, q, u) <= MostBelow(limit) + log[i].cost
  }

  /** In every run the spend of a day or a month is nothing, or at most the most that is below its
      budget plus the cost of one of its calls. */
  lemma OvershootBound(p: Params, states: seq<System>, events: seq<Event>, i: nat, q: Period, u: nat)
    requires p.maxAgeDays >= 31 && IsRun(p, states, events) && i < |states| && Limit(p.budgets, q).Some?
    ensures SpentDuring(states[i].log, q, u) == 0
         || exists k :: PushedTo(states[i].log, q, u, Limit(p.budgets, q).value, k)
  {
    hide IsRun, InPeriod;
    OvershootAtMostOneCall(p, states, events, i, q, u);
    ThreesAlong(p, states, events, i);
    SpentInThrees(states[i].log, q, u);
    if SpentDuring(states[i].log, q, u) != 0 {
      var k :| PushedBy(states[i].log, q, u, Limit(p.budgets, q).value, k);
      assert PushedTo(states[i].log, q, u, Limit(p.budgets, q).value, k);
    }
  }

  function OnlyLimit(q: Period, budget: int): Budgets {
    match q
    case Day => Budgets(Some(budget), None)
    case Month => Budgets(None, Some(budget))
  }

  /** Before any record, and one record into the period, the limit is not reached. */
  lemma NotReachedYet(q: Period, budget: int, r: UsageRecord)
    requires r.ts == 0 && r.cost < budget
    ensures forall k :: !Reached(OnlyLimit(q, budget), [], k, 0) && !Reached(OnlyLimit(q, budget), [r], k, 0)
  {
    assert [] + [r] == [r];
    SpentAppend([], r, StartOf(q, 0));
    hide StartOf;
  }

  lemma BothCount(q: Period, r: UsageRecord, t: UsageRecord)
    requires r.ts == 0 && t.ts == 0
    ensures SpentDuring([r, t], q, 0) == r.cost + t.cost
  {
    PeriodIff(q, 0, 0);
    hide InPeriod, StartOf;
    assert [] + [r] == [r] && [r] + [t] == [r, t];
    SpentDuringAppend([], r, q, 0);
    SpentDuringAppend([r], t, q, 0);
  }

  lemma BothKept(r: UsageRecord, t: UsageRecord, maxAgeDays: nat)
    requires r.ts == 0 && t.ts == 0
    ensures Kept([r], CutoffAt(maxAgeDays, 0)) == [r] && Kept([r, t], CutoffAt(maxAgeDays, 0)) == [r, t]
  {
    var c := CutoffAt(maxAgeDays, 0);
    assert c <= 0;
    assert [] + [r] == [r] && [r] + [t] == [r, t];
    KeptAppend([], r, c);
    KeptAppend([r], t, c);
  }

  /** A first call that spends the most below the budget, and a last one. */
  lemma TwoCalls(p: Params, q: Period, budget: int, last: Usage)
    requires budget >= 1 && p == Params(OnlyLimit(q, budget), 31, "", "")
    ensures var first, c, s0 := Returned(Usage((budget - 1) / 3, 0, 0)), Readings(0, 0, 0), System(0, 0, None, map[], map[], [], [], 0);
      var s1 := AfterCall(p, s0, first, c);
      var s2 := AfterCall(p, s1, Returned(last), c);
      && s1.owners == map[] && s1.tasks == map[] && s1.now == 0
      && SpentDuring(s2.log, q, 0) == MostBelow(budget) + EstimateCallCost(last.inputTokens, last.outputTokens)
  {
    hide Reached, Kept, SpentDuring;
    var first, c, s0 := Returned(Usage((budget - 1) / 3, 0, 0)), Readings(0, 0, 0), System(0, 0, None, map[], map[], [], [], 0);
    var r, t := RecordOf("", "", first, 0), RecordOf("", "", Returned(last), 0);
    NotReachedYet(q, budget, r);
    BothKept(r, t, 31);
    BothCount(q, r, t);
    assert [] + [r] == [r] && [r] + [t] == [r, t];
    var s1 := AfterCall(p, s0, first, c);
    assert s1.records == [r] && s1.log == [r];
    assert AfterCall(p, s1, Returned(last), c).log == [r, t];
  }

  /** For every budget, of a day or of a month, and every last call there is a run that attains
      it: a first call spends what it may, and the last one goes over. */
  lemma OvershootAttained(q: Period, budget: int, last: Usage) returns (p: Params, states: seq<System>, events: seq<Event>)
    requires budget >= 1
    ensures p.budgets == OnlyLimit(q, budget) && p.maxAgeDays >= 31 && IsRun(p, states, events)
    ensures SpentDuring(states[|events|].log, q, 0) == MostBelow(budget) + EstimateCallCost(last.inputTokens, last.outputTokens)
  {
    p := Params(OnlyLimit(q, budget), 31, "", "");
    var s0 := System(0, 0, None, map[], map[], [], [], 0);
    var first, second, c := Returned(Usage((budget - 1) / 3, 0, 0)), Returned(last), Readings(0, 0, 0);
    var s1 := AfterCall(p, s0, first, c);
    var s2 := AfterCall(p, s1, second, c);
    CallIsSteps(p, s0, 0, first, c);
    TwoCalls(p, q, budget, last);
    CallIsSteps(p, s1, 0, second, c);
    events := CallEvents(p, s0, 0, first, c) + CallEvents(p, s1, 0, second, c);
    LeadsJoin(p, s0, CallEvents(p, s0, 0, first, c), s1, CallEvents(p, s1, 0, second, c), s2);
    states := LeadsRun(p, s0, events, s2);
  }
}

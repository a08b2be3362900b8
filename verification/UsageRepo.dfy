/** The in-process record of LLM usage: pruned on every write, summed since a point in time. */
module UsageRepo {
  import opened Options
  import opened Calendar

  /** Costs are in micro-dollars, times in microseconds. */
  datatype UsageRecord = UsageRecord(
    ts: nat, cost: nat, callType: string, modelId: string, inputTokens: nat, outputTokens: nat,
    latencyMs: nat, success: bool, errorType: Option<string>)

  function SpentSince(log: seq<UsageRecord>, since: int): nat {
    if log == [] then 0
    else SpentSince(log[..|log| - 1], since) + (if log[|log| - 1].ts >= since then log[|log| - 1].cost else 0)
  }

  /** The records not older than cutoff. */
  function Kept(log: seq<UsageRecord>, cutoff: int): seq<UsageRecord> {
    if log == [] then []
    else Kept(log[..|log| - 1], cutoff) + (if log[|log| - 1].ts >= cutoff then [log[|log| - 1]] else [])
  }

  lemma SpentAppend(log: seq<UsageRecord>, r: UsageRecord, since: int)
    ensures SpentSince(log + [r], since) == SpentSince(log, since) + (if r.ts >= since then r.cost else 0)
  {
    assert (log + [r])[..|log|] == log;
  }

  lemma KeptAppend(log: seq<UsageRecord>, r: UsageRecord, cutoff: int)
    ensures Kept(log + [r], cutoff) == Kept(log, cutoff) + (if r.ts >= cutoff then [r] else [])
  {
    assert (log + [r])[..|log|] == log;
  }

  /** Pruning twice is pruning once at the later point. */
  lemma {:induction false} KeptTwice(log: seq<UsageRecord>, c: int, d: int)
    requires c <= d
    ensures Kept(Kept(log, c), d) == Kept(log, d)
  {
    if log != [] {
      var init, last := log[..|log| - 1], log[|log| - 1];
      KeptTwice(init, c, d);
      KeptAppend(Kept(init, c), last, d);
      assert Kept(init, c) + [] == Kept(init, c);
    }
  }

  /** What is pruned before a point does not matter for sums from that point on. */
  lemma {:induction false} SpentOfKept(log: seq<UsageRecord>, cutoff: int, since: int)
    requires cutoff <= since
    ensures SpentSince(Kept(log, cutoff), since) == SpentSince(log, since)
  {
    if log != [] {
      var init, last := log[..|log| - 1], log[|log| - 1];
      SpentOfKept(init, cutoff, since);
      SpentAppend(Kept(init, cutoff), last, since);
      assert Kept(init, cutoff) + [] == Kept(init, cutoff);
    }
  }

  /** The cost of the records of u's day, or of u's civil month. */
  ghost function SpentDuring(log: seq<UsageRecord>, p: Period, u: nat): nat {
    if log == [] then 0
    else SpentDuring(log[..|log| - 1], p, u) + (if InPeriod(p, log[|log| - 1].ts, u) then log[|log| - 1].cost else 0)
  }

  ghost predicate NoneAfter(log: seq<UsageRecord>, u: nat) {
    forall r :: r in log ==> r.ts <= u
  }

  /** For a log in the past, the sum since the start is the sum over the period. */
  lemma {:induction false} SpentSinceStart(log: seq<UsageRecord>, p: Period, u: nat)
    requires NoneAfter(log, u)
    ensures SpentSince(log, StartOf(p, u)) == SpentDuring(log, p, u)
  {
    hide StartOf, InPeriod;
    if log != [] {
      var init, last := log[..|log| - 1], log[|log| - 1];
      assert last in log;
      SpentSinceStart(init, p, u);
      PeriodIff(p, last.ts, u);
    }
  }

  lemma {:induction false} KeptWereLogged(log: seq<UsageRecord>, cutoff: int)
    ensures forall r :: r in Kept(log, cutoff) ==> r in log
  {
    if log != [] {
      var init, last := log[..|log| - 1], log[|log| - 1];
      KeptWereLogged(init, cutoff);
      assert log == init + [last];
    }
  }

  function CutoffAt(maxAgeDays: nat, now: nat): int {
    now - maxAgeDays * DAY
  }

  /** Whatever was recorded, and whenever the list was last pruned, the spend of the running
      day and of the running month is that of the whole log. */
  ghost predicate PruningInvisible(maxAgeDays: nat) {
    forall log, prunedAt: nat, now: nat, p :: prunedAt <= now ==>
      SpentSince(Kept(log, CutoffAt(maxAgeDays, prunedAt)), StartOf(p, now)) == SpentSince(log, StartOf(p, now))
  }

  /** Exactly the ages from 31 days up are long enough. */
  lemma PruningInvisibleIff(maxAgeDays: nat)
    ensures PruningInvisible(maxAgeDays) <==> maxAgeDays >= 31
  {
    if maxAgeDays >= 31 {
      forall log, prunedAt: nat, now: nat, p | prunedAt <= now
        ensures SpentSince(Kept(log, CutoffAt(maxAgeDays, prunedAt)), StartOf(p, now)) == SpentSince(log, StartOf(p, now))
      {
        StartWithin31Days(p, now);
        SpentOfKept(log, CutoffAt(maxAgeDays, prunedAt), StartOf(p, now));
      }
    } else {
      // the last moment of a January: a record of the first moment is pruned
      var now: nat := 31 * DAY - 1;
      var first := UsageRecord(0, 1, "", "", 0, 0, 0, true, None);
      JanuaryStart(now);
      assert CutoffAt(maxAgeDays, now) > 0;
      assert Kept([first], CutoffAt(maxAgeDays, now)) == [] by {
        assert [first][..0] == [];
      }
      assert SpentSince([first], 0) == 1 by { assert [first][..0] == []; }
      assert SpentSince(Kept([first], CutoffAt(maxAgeDays, now)), StartOf(Month, now)) != SpentSince([first], StartOf(Month, now));
    }
  }

  lemma JanuaryStart(now: nat)
    requires now < 31 * DAY
    ensures StartOf(Month, now) == 0
  {
    assert FirstDay(1) == 31 by { assert FirstDay(0) == 0 && MonthLength(0) == 31; }
    MonthUnique(now / DAY, 0);
  }

  class InMemoryUsageRepo {
    const maxAgeDays: nat
    var records: seq<UsageRecord>
    /** Everything ever recorded, and the clock at the last pruning. */
    ghost var log: seq<UsageRecord>
    ghost var prunedAt: nat

    /** The list is the whole log less what the last pruning removed, and all of it is in the past. */
    ghost predicate Valid()
      reads this
    {
      Pruned() && NoneAfter(log, prunedAt)
    }

    ghost predicate Pruned()
      reads this
    {
      records == Kept(log, CutoffAt(maxAgeDays, prunedAt))
    }

    constructor (maxAgeDays: nat)
      ensures Valid() && log == [] && prunedAt == 0 && this.maxAgeDays == maxAgeDays
    {
      this.maxAgeDays := maxAgeDays;
      records, log, prunedAt := [], [], 0;
    }

    method GetPeriodCost(since: nat) returns (total: nat)
      requires Valid()
      ensures total == SpentSince(records, since)
    {
      total := 0;
      for i := 0 to |records|
        invariant total == SpentSince(records[..i], since)
      {
        assert records[..i + 1] == records[..i] + [records[i]];
        SpentAppend(records[..i], records[i], since);
        if records[i].ts >= since {
          total := total + records[i].cost;
        }
      }
      assert records[..|records|] == records;
    }

    /** Appends, then prunes with a second, later reading of the clock. */
    method RecordUsage(r: UsageRecord, now: nat)
      requires Valid() && prunedAt <= r.ts <= now
      modifies this
      ensures Valid() && log == old(log) + [r] && prunedAt == now
    {
      hide Kept;
      records := records + [r];
      ghost var before := CutoffAt(maxAgeDays, prunedAt);
      KeptAppend(log, r, before);
      assert before <= r.ts;
      log := log + [r];
      Prune(now);
    }

    method Prune(now: nat)
      requires Pruned() && NoneAfter(log, now) && prunedAt <= now
      modifies this
      ensures Valid() && log == old(log) && prunedAt == now
    {
      var cutoff := CutoffAt(maxAgeDays, now);
      var young := [];
      for i := 0 to |records|
        invariant records == old(records) && log == old(log) && prunedAt == old(prunedAt)
        invariant young == Kept(records[..i], cutoff)
      {
        assert records[..i + 1] == records[..i] + [records[i]];
        KeptAppend(records[..i], records[i], cutoff);
        if records[i].ts >= cutoff {
          young := young + [records[i]];
        }
      }
      assert records[..|records|] == records;
      KeptTwice(log, CutoffAt(maxAgeDays, prunedAt), cutoff);
      records := young;
      prunedAt := now;
    }
  }
}

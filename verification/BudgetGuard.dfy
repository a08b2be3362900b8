/** The budget guard as one task runs it: check, call, record. */
module BudgetGuard {
  import opened Options
  import opened Calendar
  import opened UsageRepo

  /** A limit that has been reached. None is no limit; budgets are in micro-dollars. */
  datatype Exceeded = Exceeded(period: Period, budget: int, spent: nat)

  datatype Budgets = Budgets(daily: Option<int>, monthly: Option<int>)

  datatype Usage = Usage(inputTokens: nat, outputTokens: nat, latencyMs: nat)

  datatype CallOutcome = Returned(usage: Usage) | Raised(error: string)

  datatype GuardResult = Completed(cost: nat) | Failed(error: string) | Refused(why: Exceeded)

  function Limit(b: Budgets, p: Period): Option<int> {
    match p
    case Day => b.daily
    case Month => b.monthly
  }

  /** In micro-dollars. */
  function EstimateCallCost(inputTokens: nat, outputTokens: nat): nat {
    inputTokens * 3 + outputTokens * 15
  }

  const DOLLAR: nat := 1_000_000

  /** A million input tokens cost 3 dollars, a million output tokens 15, and what is used in two
      calls costs the two costs. */
  lemma CostByRates(a: nat, b: nat, c: nat, d: nat)
    ensures EstimateCallCost(1_000_000, 0) == 3 * DOLLAR && EstimateCallCost(0, 1_000_000) == 15 * DOLLAR
    ensures EstimateCallCost(a + c, b + d) == EstimateCallCost(a, b) + EstimateCallCost(c, d)
  {
  }

  /** Whether the limit of p has been reached at `now`, by the records of log. */
  function Reached(b: Budgets, log: seq<UsageRecord>, p: Period, now: nat): bool {
    Limit(b, p).Some? && SpentSince(log, StartOf(p, now)) >= Limit(b, p).value
  }

  /** Pruning, however long ago, does not change whether a limit is reached. */
  lemma ReachedOfKept(b: Budgets, log: seq<UsageRecord>, maxAgeDays: nat, prunedAt: nat, p: Period, now: nat)
    requires prunedAt <= now && maxAgeDays >= 31
    ensures Reached(b, Kept(log, CutoffAt(maxAgeDays, prunedAt)), p, now) == Reached(b, log, p, now)
    ensures SpentSince(Kept(log, CutoffAt(maxAgeDays, prunedAt)), StartOf(p, now)) == SpentSince(log, StartOf(p, now))
  {
    PruningInvisibleIff(maxAgeDays);
    assert PruningInvisible(maxAgeDays);
  }

  /** The record a call leaves behind: a failed one costs nothing. */
  function RecordOf(callType: string, modelId: string, outcome: CallOutcome, ts: nat): UsageRecord {
    match outcome
    case Returned(u) =>
      UsageRecord(ts, EstimateCallCost(u.inputTokens, u.outputTokens), callType, modelId, u.inputTokens, u.outputTokens, u.latencyMs, true, None)
    case Raised(error) =>
      UsageRecord(ts, 0, callType, modelId, 0, 0, 0, false, Some(error))
  }

  class Guard {
    const budgets: Budgets
    const repo: InMemoryUsageRepo

    constructor (repo: InMemoryUsageRepo, budgets: Budgets)
      ensures this.repo == repo && this.budgets == budgets
    {
      this.repo, this.budgets := repo, budgets;
    }

    /** What the checks decide on: the whole log, although it has been pruned, if records are
        kept long enough; else the records kept. */
    ghost function Seen(): seq<UsageRecord>
      reads repo
    {
      if repo.maxAgeDays >= 31 then repo.log else repo.records
    }

    /** A limit is reached when the records of the day, or of the civil month, cost that much.
        The daily limit is looked at before the monthly one. */
    method CheckBudget(now: nat) returns (r: Option<Exceeded>)
      requires repo.Valid() && repo.prunedAt <= now
      ensures r.None? <==> !Reached(budgets, Seen(), Day, now) && !Reached(budgets, Seen(), Month, now)
      ensures r.Some? ==> r.value.period == (if Reached(budgets, Seen(), Day, now) then Day else Month)
      ensures r.Some? ==>
        r.value == Exceeded(r.value.period, Limit(budgets, r.value.period).value, SpentSince(Seen(), StartOf(r.value.period, now)))
      ensures var today, thisMonth := SpentDuring(Seen(), Day, now), SpentDuring(Seen(), Month, now);
        r == if budgets.daily.Some? && today >= budgets.daily.value then Some(Exceeded(Day, budgets.daily.value, today))
             else if budgets.monthly.Some? && thisMonth >= budgets.monthly.value then Some(Exceeded(Month, budgets.monthly.value, thisMonth))
             else None
    {
      KeptWereLogged(repo.log, CutoffAt(repo.maxAgeDays, repo.prunedAt));
      SpentSinceStart(Seen(), Day, now);
      SpentSinceStart(Seen(), Month, now);
      hide Kept, SpentDuring, StartOf;
      if repo.maxAgeDays >= 31 {
        ReachedOfKept(budgets, repo.log, repo.maxAgeDays, repo.prunedAt, Day, now);
        ReachedOfKept(budgets, repo.log, repo.maxAgeDays, repo.prunedAt, Month, now);
      }
      if budgets.daily.Some? {
        var dailySpent := repo.GetPeriodCost(StartOf(Day, now));
        if dailySpent >= budgets.daily.value {
          return Some(Exceeded(Day, budgets.daily.value, dailySpent));
        }
      }
      if budgets.monthly.Some? {
        var monthlySpent := repo.GetPeriodCost(StartOf(Month, now));
        if monthlySpent >= budgets.monthly.value {
          return Some(Exceeded(Month, budgets.monthly.value, monthlySpent));
        }
      }
      r := None;
    }

    method RecordUsage(callType: string, modelId: string, outcome: CallOutcome, ts: nat, prunedAt: nat) returns (cost: nat)
      requires repo.Valid() && repo.prunedAt <= ts <= prunedAt
      modifies repo
      ensures repo.Valid() && repo.prunedAt == prunedAt
      ensures repo.log == old(repo.log) + [RecordOf(callType, modelId, outcome, ts)]
      ensures cost == RecordOf(callType, modelId, outcome, ts).cost
      ensures cost == match outcome
                      case Returned(u) => 3 * u.inputTokens + 15 * u.outputTokens
                      case Raised(_) => 0
      ensures var made := repo.log[|repo.log| - 1];
        && made.ts == ts && made.cost == cost && made.callType == callType && made.modelId == modelId
        && match outcome
           case Returned(u) =>
             made.success && made.errorType == None
             && made.inputTokens == u.inputTokens && made.outputTokens == u.outputTokens && made.latencyMs == u.latencyMs
           case Raised(error) =>
             !made.success && made.errorType == Some(error) && made.inputTokens == made.outputTokens == made.latencyMs == 0
    {
      var r := RecordOf(callType, modelId, outcome, ts);
      repo.RecordUsage(r, prunedAt);
      cost := r.cost;
    }

    /** checkedAt, ts and prunedAt are the clock readings of the check, the record and the
        pruning; outcome is what the call does if it is made. */
    method GuardCall(callType: string, modelId: string, outcome: CallOutcome, checkedAt: nat, ts: nat, prunedAt: nat)
      returns (r: GuardResult)
      requires repo.Valid() && repo.prunedAt <= checkedAt <= ts <= prunedAt
      modifies repo
      ensures repo.Valid()
      ensures r.Refused? <==> Reached(budgets, old(Seen()), Day, checkedAt) || Reached(budgets, old(Seen()), Month, checkedAt)
      ensures r.Refused? <==>
        || (budgets.daily.Some? && old(SpentDuring(Seen(), Day, checkedAt)) >= budgets.daily.value)
        || (budgets.monthly.Some? && old(SpentDuring(Seen(), Month, checkedAt)) >= budgets.monthly.value)
      ensures r.Refused? ==> repo.log == old(repo.log) && repo.records == old(repo.records) && repo.prunedAt == old(repo.prunedAt)
      ensures !r.Refused? ==> repo.prunedAt == prunedAt
      ensures !r.Refused? ==> repo.log == old(repo.log) + [RecordOf(callType, modelId, outcome, ts)]
      ensures !r.Refused? ==> r == match outcome
                                   case Returned(u) => Completed(EstimateCallCost(u.inputTokens, u.outputTokens))
                                   case Raised(error) => Failed(error)
    {
      var exceeded := CheckBudget(checkedAt);
      if exceeded.Some? {
        return Refused(exceeded.value);
      }
      var cost := RecordUsage(callType, modelId, outcome, ts, prunedAt);
      r := if outcome.Raised? then Failed(outcome.error) else Completed(cost);
    }
  }
}

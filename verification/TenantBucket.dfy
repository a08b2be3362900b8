/** The AI engine's limiter: a sliding window of admitted requests that tells a rejected
    caller how long to wait. */
module TenantBucket {
  import opened SlidingWindow

  class TenantBucket {
    const maxRequests: int
    const window: real
    var requests: seq<real>
    /** Every request ever admitted, and the clock at the last check. */
    ghost var admitted: seq<real>
    ghost var now: real

    ghost predicate Valid()
      reads this
    {
      && History(admitted, now) && Covers(requests, admitted, now - window)
      && EachBelow(admitted, window, maxRequests)
      && (|requests| > 0 ==> |requests| <= maxRequests)
    }

    constructor (maxRequests: int, window: real, ghost start: real)
      ensures Valid() && this.maxRequests == maxRequests && this.window == window && admitted == [] && now == start
    {
      this.maxRequests, this.window := maxRequests, window;
      requests, admitted, now := [], [], start;
    }

    /** Allowed exactly when fewer than the limit were admitted in the window that ends now.
        Otherwise, and if any are admitted at all, retryAfter is the least whole number of
        seconds beyond the moment the oldest of them leaves the window. */
    method Check(time: real) returns (allowed: bool, retryAfter: int)
      requires Valid() && now <= time
      modifies this
      ensures Valid() && now == time
      ensures allowed <==> CountAfter(old(admitted), time - window) < maxRequests
      ensures admitted == old(admitted) + (if allowed then [time] else [])
      ensures allowed ==> retryAfter == 0
      ensures !allowed ==> retryAfter >= 1
      ensures !allowed && maxRequests >= 1 ==>
        && |requests| == maxRequests && time - window < requests[0]
        && (retryAfter - 1) as real <= requests[0] + window - time < retryAfter as real
    {
      hide CountAfter, Covers, Ascending, EachBelow, Pruned;
      var cutoff := time - window;
      ghost var before := admitted;
      CoversLater(requests, admitted, now - window, cutoff);
      PrunedIsWindow(requests, admitted, cutoff);
      requests := PopExpired(requests, cutoff);
      PrunedNotLonger(old(requests), cutoff);
      now := time;
      if |requests| >= maxRequests {
        var oldest := if requests == [] then time else requests[0];
        var x := oldest + window - time;
        retryAfter := Truncated(x) + 1;
        if retryAfter < 1 {
          retryAfter := 1;
        }
        assert admitted + [] == admitted;
        return false, retryAfter;
      }
      CoversAppend(requests, admitted, cutoff, time);
      HistoryAppend(admitted, old(now), time);
      requests := requests + [time];
      admitted := admitted + [time];
      BelowAppend(before, time, window, maxRequests);
      return true, 0;
    }

    /** In every run: no interval of the window's length holds more than the limit. */
    lemma AtMostMaxRequests(lo: real)
      requires Valid()
      ensures CountBetween(admitted, lo, lo + window) <= if maxRequests > 0 then maxRequests else 0
    {
      NoWindowExceeds(admitted, window, maxRequests, lo);
    }
  }

  lemma {:induction false} PrunedNotLonger(bucket: seq<real>, cutoff: real)
    ensures |Pruned(bucket, cutoff)| <= |bucket|
    decreases |bucket|
  {
    if bucket != [] && bucket[0] <= cutoff { PrunedNotLonger(bucket[1..], cutoff); }
  }

  lemma BelowAppend(admitted: seq<real>, time: real, window: real, maxRequests: int)
    requires EachBelow(admitted, window, maxRequests) && CountAfter(admitted, time - window) < maxRequests
    ensures EachBelow(admitted + [time], window, maxRequests)
  {
    hide CountAfter;
    var more := admitted + [time];
    forall i | 0 <= i < |more| ensures BelowAt(more, i, window, maxRequests) {
      assert i < |admitted| ==> BelowAt(admitted, i, window, maxRequests);
      if i < |admitted| { assert more[..i] == admitted[..i]; } else { assert more[..i] == admitted; }
    }
  }

  /** A rejected caller who waits at least the time returned, with nothing admitted meanwhile,
      is admitted next, exactly when the limit is at least one: otherwise nobody ever is. */
  method WaitAndRetry(b: TenantBucket, time: real, extra: real) returns (first: bool, second: bool)
    requires b.Valid() && b.now <= time && extra >= 0.0
    modifies b
    ensures b.Valid()
    ensures !first ==> (second <==> b.maxRequests >= 1)
  {
    var wait;
    first, wait := b.Check(time);
    if first {
      return true, false;
    }
    ghost var kept, all, later := b.requests, b.admitted, time + wait as real + extra;
    if b.maxRequests >= 1 {
      OneHasLeft(kept, all, time - b.window, later - b.window);
    }
    second, wait := b.Check(time + wait as real + extra);
  }

  /** Once the oldest request has left the window, fewer are in it than were kept. */
  lemma OneHasLeft(kept: seq<real>, all: seq<real>, cutoff: real, later: real)
    requires Ascending(all) && Covers(kept, all, cutoff) && kept != [] && kept[0] <= later && cutoff <= later
    ensures CountAfter(all, later) < |kept|
  {
    CoversLater(kept, all, cutoff, later);
    PrunedIsWindow(kept, all, later);
    PrunedNotLonger(kept[1..], later);
  }
}

/** Counting events in a window over the whole history, and what pruning leaves of it. */
module SlidingWindow {
  /** The events of s later than cutoff. */
  function CountAfter(s: seq<real>, cutoff: real): nat {
    if s == [] then 0 else CountAfter(s[..|s| - 1], cutoff) + (if s[|s| - 1] > cutoff then 1 else 0)
  }

  lemma CountAppend(s: seq<real>, t: real, cutoff: real)
    ensures CountAfter(s + [t], cutoff) == CountAfter(s, cutoff) + (if t > cutoff then 1 else 0)
  {
    assert (s + [t])[..|s|] == s;
  }

  predicate Ascending(s: seq<real>) {
    forall i, j :: 0 <= i < j < |s| ==> s[i] <= s[j]
  }

  /** An ascending history up to now. */
  predicate History(s: seq<real>, now: real) {
    Ascending(s) && (s != [] ==> s[|s| - 1] <= now)
  }

  lemma HistoryAppend(s: seq<real>, now: real, t: real)
    requires History(s, now) && now <= t
    ensures History(s + [t], t)
  {
  }

  predicate NoneLater(s: seq<real>, cutoff: real) {
    forall i :: 0 <= i < |s| ==> s[i] <= cutoff
  }

  predicate AllLater(s: seq<real>, cutoff: real) {
    forall i :: 0 <= i < |s| ==> s[i] > cutoff
  }

  /** bucket is what is left of the history when some events, none later than cutoff, are
      dropped from its front. */
  predicate Covers(bucket: seq<real>, history: seq<real>, cutoff: real) {
    && |bucket| <= |history| && bucket == history[|history| - |bucket|..]
    && NoneLater(history[..|history| - |bucket|], cutoff)
  }

  function Pruned(bucket: seq<real>, cutoff: real): seq<real> {
    if bucket != [] && bucket[0] <= cutoff then Pruned(bucket[1..], cutoff) else bucket
  }

  lemma {:induction false} AllAfter(s: seq<real>, cutoff: real)
    requires AllLater(s, cutoff)
    ensures CountAfter(s, cutoff) == |s|
  {
    if s != [] { AllAfter(s[..|s| - 1], cutoff); }
  }

  lemma {:induction false} NoneAfter(s: seq<real>, cutoff: real)
    requires NoneLater(s, cutoff)
    ensures CountAfter(s, cutoff) == 0
  {
    if s != [] { NoneAfter(s[..|s| - 1], cutoff); }
  }

  lemma {:induction false} CountSplit(s: seq<real>, t: seq<real>, cutoff: real)
    ensures CountAfter(s + t, cutoff) == CountAfter(s, cutoff) + CountAfter(t, cutoff)
  {
    if t == [] {
      assert s + t == s;
    } else {
      CountSplit(s, t[..|t| - 1], cutoff);
      assert (s + t)[..|s + t| - 1] == s + t[..|t| - 1];
    }
  }

  lemma PopFront(bucket: seq<real>, history: seq<real>, cutoff: real)
    requires Covers(bucket, history, cutoff) && bucket != [] && bucket[0] <= cutoff
    ensures Covers(bucket[1..], history, cutoff)
  {
    var k := |history| - |bucket|;
    assert bucket[0] == history[k];
    assert bucket[1..] == history[k + 1..];
    assert history[..k + 1] == history[..k] + [history[k]];
  }

  lemma CoversLater(bucket: seq<real>, history: seq<real>, cutoff: real, later: real)
    requires Covers(bucket, history, cutoff) && cutoff <= later
    ensures Covers(bucket, history, later)
  {
  }

  lemma CoversAppend(bucket: seq<real>, history: seq<real>, cutoff: real, t: real)
    requires Covers(bucket, history, cutoff)
    ensures Covers(bucket + [t], history + [t], cutoff)
  {
    var k := |history| - |bucket|;
    assert (history + [t])[k..] == history[k..] + [t];
    assert (history + [t])[..k] == history[..k];
  }

  lemma FirstLater(bucket: seq<real>, history: seq<real>, cutoff: real)
    requires Ascending(history) && Covers(bucket, history, cutoff) && (bucket == [] || bucket[0] > cutoff)
    ensures AllLater(bucket, cutoff)
  {
    var k := |history| - |bucket|;
    forall i | 0 <= i < |bucket| ensures bucket[i] > cutoff {
      assert bucket[i] == history[k + i] && bucket[0] == history[k];
    }
  }

  /** Popping events not later than cutoff off the front leaves exactly the events after it. */
  lemma {:induction false} PrunedIsWindow(bucket: seq<real>, history: seq<real>, cutoff: real)
    requires Ascending(history) && Covers(bucket, history, cutoff)
    ensures Covers(Pruned(bucket, cutoff), history, cutoff) && AllLater(Pruned(bucket, cutoff), cutoff)
    ensures |Pruned(bucket, cutoff)| == CountAfter(history, cutoff)
    decreases |bucket|
  {
    hide Ascending, AllLater, NoneLater;
    if bucket != [] && bucket[0] <= cutoff {
      PopFront(bucket, history, cutoff);
      PrunedIsWindow(bucket[1..], history, cutoff);
    } else {
      var dropped := history[..|history| - |bucket|];
      FirstLater(bucket, history, cutoff);
      NoneAfter(dropped, cutoff);
      AllAfter(bucket, cutoff);
      CountSplit(dropped, bucket, cutoff);
      assert dropped + bucket == history;
    }
  }

  /** The pop-left loop. */
  method PopExpired(bucket: seq<real>, cutoff: real) returns (r: seq<real>)
    ensures r == Pruned(bucket, cutoff)
  {
    r := bucket;
    while r != [] && r[0] <= cutoff
      invariant Pruned(r, cutoff) == Pruned(bucket, cutoff)
      decreases |r|
    {
      r := r[1..];
    }
  }

  /** The events of s in the half-open interval from lo to hi. */
  function CountBetween(s: seq<real>, lo: real, hi: real): nat {
    if s == [] then 0
    else CountBetween(s[..|s| - 1], lo, hi) + (if lo < s[|s| - 1] <= hi then 1 else 0)
  }

  function PlacesAfter(s: seq<real>, cutoff: real): set<nat> {
    set i: nat | i < |s| && s[i] > cutoff
  }

  function PlacesBetween(s: seq<real>, lo: real, hi: real): set<nat> {
    set i: nat | i < |s| && lo < s[i] && s[i] <= hi
  }

  lemma {:induction false} AfterPlaces(s: seq<real>, cutoff: real)
    ensures CountAfter(s, cutoff) == |PlacesAfter(s, cutoff)|
  {
    if s != [] {
      var n := |s| - 1;
      AfterPlaces(s[..n], cutoff);
      assert PlacesAfter(s, cutoff) == PlacesAfter(s[..n], cutoff) + (if s[n] > cutoff then {n} else {});
    }
  }

  lemma {:induction false} BetweenPlaces(s: seq<real>, lo: real, hi: real)
    ensures CountBetween(s, lo, hi) == |PlacesBetween(s, lo, hi)|
  {
    if s != [] {
      var n := |s| - 1;
      BetweenPlaces(s[..n], lo, hi);
      assert PlacesBetween(s, lo, hi) == PlacesBetween(s[..n], lo, hi) + (if lo < s[n] <= hi then {n} else {});
    }
  }

  /** Both counts are of places in the sequence. */
  lemma CountsPlaces(s: seq<real>, lo: real, hi: real)
    ensures CountAfter(s, lo) == |PlacesAfter(s, lo)| && CountBetween(s, lo, hi) == |PlacesBetween(s, lo, hi)|
  {
    AfterPlaces(s, lo);
    BetweenPlaces(s, lo, hi);
  }

  lemma {:induction false} BetweenAtMostAfter(s: seq<real>, lo: real, hi: real, cutoff: real)
    requires cutoff <= lo
    ensures CountBetween(s, lo, hi) <= CountAfter(s, cutoff)
  {
    if s != [] { BetweenAtMostAfter(s[..|s| - 1], lo, hi, cutoff); }
  }

  /** When it happened, event i was one of at most `limit` in the window that ends with it. */
  predicate BelowAt(s: seq<real>, i: nat, window: real, limit: int)
    requires i < |s|
  {
    CountAfter(s[..i], s[i] - window) < limit
  }

  ghost predicate EachBelow(s: seq<real>, window: real, limit: int) {
    forall i :: 0 <= i < |s| ==> BelowAt(s, i, window, limit)
  }

  /** If, when each event happened, at most `limit` events including it were in the window
      that ends with it, then no interval of that length ever holds more. */
  lemma {:induction false} NoWindowExceeds(s: seq<real>, window: real, limit: int, lo: real)
    requires EachBelow(s, window, limit)
    ensures CountBetween(s, lo, lo + window) <= if limit > 0 then limit else 0
  {
    hide CountAfter;
    if s != [] {
      var n := |s| - 1;
      var init, t := s[..n], s[n];
      assert BelowAt(s, n, window, limit);
      if lo < t <= lo + window {
        BetweenAtMostAfter(init, lo, lo + window, t - window);
      } else {
        forall i | 0 <= i < n ensures BelowAt(init, i, window, limit) {
          assert BelowAt(s, i, window, limit) && init[..i] == s[..i];
        }
        NoWindowExceeds(init, window, limit, lo);
      }
    }
  }

  /** Python's int(): towards zero. */
  function Truncated(x: real): int {
    if x >= 0.0 then x.Floor else -((-x).Floor)
  }

  /** The whole part, with the sign of x. */
  lemma TruncatedTowardZero(x: real)
    ensures Truncated(-x) == -Truncated(x)
    ensures x >= 0.0 ==> Truncated(x) as real <= x < Truncated(x) as real + 1.0
  {
  }
}

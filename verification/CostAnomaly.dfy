/** Cost anomalies by z-score and by quartile fences: what the two tests can and cannot report. */
module CostAnomaly {
  import opened Options

  datatype Severity = Quiet | Minor | Major | Critical
  datatype Kind = NoAnomaly | Spike | Drop

  datatype Report = Report(isAnomaly: bool, kind: Kind, severity: Severity, zScore: real, percentile: real)

  datatype Thresholds = Thresholds(minor: real, major: real, critical: real, iqrFactor: real)

  const DEFAULTS := Thresholds(2.0, 3.0, 4.0, 1.5)

  function Sum(s: seq<real>): real {
    if s == [] then 0.0 else Sum(s[..|s| - 1]) + s[|s| - 1]
  }

  function Mean(s: seq<real>): real
    requires s != []
  {
    Sum(s) / |s| as real
  }

  function Times(x: real, y: real): real {
    x * y
  }

  function Square(x: real): real {
    Times(x, x)
  }

  function SumOfSquares(s: seq<real>, center: real): real {
    if s == [] then 0.0 else SumOfSquares(s[..|s| - 1], center) + Square(s[|s| - 1] - center)
  }

  function Variance(s: seq<real>): real
    requires s != []
  {
    SumOfSquares(s, Mean(s)) / |s| as real
  }

  /** The standard deviation is given; `math.sqrt` is taken to be exact. */
  predicate IsRoot(root: real, v: real) {
    root >= 0.0 && Square(root) == v
  }

  function Insert(s: seq<real>, x: real): seq<real> {
    if s == [] || x <= s[0] then [x] + s else [s[0]] + Insert(s[1..], x)
  }

  function Sorted(s: seq<real>): seq<real> {
    if s == [] then [] else Insert(Sorted(s[1..]), s[0])
  }

  predicate Ascending(s: seq<real>) {
    forall i, j :: 0 <= i <= j < |s| ==> s[i] <= s[j]
  }

  /** The rank, among n points from 0 on, of the p-th percentile. */
  function Rank(p: real, n: nat): (k: real)
    requires 0.0 <= p <= 100.0 && n >= 1
    ensures 0.0 <= k <= (n - 1) as real
  {
    Scaled(p / 100.0, 1.0, (n - 1) as real);
    Times(p / 100.0, (n - 1) as real)
  }

  lemma Scaled(x: real, y: real, m: real)
    requires 0.0 <= x <= y && m >= 0.0
    ensures 0.0 <= Times(x, m) <= Times(y, m) && Times(1.0, m) == m
  {
  }

  /** The value at rank k: linear interpolation between the closest points. */
  function AtRank(sorted: seq<real>, k: real): real
    requires 0.0 <= k <= (|sorted| - 1) as real
  {
    var floorK := k.Floor;
    var ceilK := if floorK + 1 < |sorted| - 1 then floorK + 1 else |sorted| - 1;
    sorted[floorK] + Times(k - floorK as real, sorted[ceilK] - sorted[floorK])
  }

  function Percentile(sorted: seq<real>, p: real): real
    requires 0.0 <= p <= 100.0
  {
    if sorted == [] then 0.0 else AtRank(sorted, Rank(p, |sorted|))
  }

  function CountBelow(s: seq<real>, x: real): nat {
    if s == [] then 0 else CountBelow(s[..|s| - 1], x) + (if s[|s| - 1] < x then 1 else 0)
  }

  function CountEqual(s: seq<real>, x: real): nat {
    if s == [] then 0 else CountEqual(s[..|s| - 1], x) + (if s[|s| - 1] == x then 1 else 0)
  }

  function Abs(x: real): real {
    if x < 0.0 then -x else x
  }

  function ZScore(history: seq<real>, latest: real, root: real): real
    requires history != []
  {
    if root > 0.0 then (latest - Mean(history)) / root else 0.0
  }

  function LowerFence(t: Thresholds, history: seq<real>): real {
    var s := Sorted(history);
    Percentile(s, 25.0) - Times(t.iqrFactor, Percentile(s, 75.0) - Percentile(s, 25.0))
  }

  function UpperFence(t: Thresholds, history: seq<real>): real {
    var s := Sorted(history);
    Percentile(s, 75.0) + Times(t.iqrFactor, Percentile(s, 75.0) - Percentile(s, 25.0))
  }

  function LatestOf(history: seq<real>, latest: Option<real>): real
    requires history != []
  {
    if latest.Some? then latest.value else history[|history| - 1]
  }

  function Detect(t: Thresholds, history: seq<real>, given: Option<real>, root: real): Report
    requires history != [] ==> IsRoot(root, Variance(history))
  {
    if |history| < 3 then Report(false, NoAnomaly, Quiet, 0.0, 50.0)
    else
      var latest := LatestOf(history, given);
      var z := ZScore(history, latest, root);
      var rank := (CountBelow(history, latest) as real + 0.5 * CountEqual(history, latest) as real) / |history| as real * 100.0;
      var outside := latest < LowerFence(t, history) || latest > UpperFence(t, history);
      if Abs(z) >= t.minor || outside then
        Report(true, if z > 0.0 then Spike else Drop,
               if Abs(z) >= t.critical then Critical else if Abs(z) >= t.major then Major else Minor, z, rank)
      else Report(false, NoAnomaly, Quiet, z, rank)
  }

  // ---- the z-score of a history's own last point -----------------------------------------------

  lemma Distribute(m: real, x: real, y: real)
    ensures m * (x - y) == m * x - m * y
    ensures m > 0.0 && x > y ==> m * (x - y) > 0.0
  {
  }

  lemma Cancel(m: real, x: real, y: real)
    requires m > 0.0 && m * x <= m * y
    ensures x <= y
  {
    Distribute(m, x, y);
  }

  lemma SquareNonNegative(x: real)
    ensures Square(x) >= 0.0
  {
  }

  lemma CrossTerm(s: real, q: real, m: real, a: real)
    requires m > 0.0 && s * s <= m * q
    ensures 2.0 * (s * a) <= q + m * (a * a)
  {
    SquareNonNegative(s - m * a);
    assert Square(s - m * a) == s * s - 2.0 * (m * (s * a)) + m * (m * (a * a));
    assert m * (2.0 * (s * a)) == 2.0 * (m * (s * a));
    assert m * (q + m * (a * a)) == m * q + m * (m * (a * a));
    Cancel(m, 2.0 * (s * a), q + m * (a * a));
  }

  lemma OneMoreTerm(s: real, q: real, m: nat, a: real)
    requires q >= 0.0 && Square(s) <= Times(m as real, q) && (m == 0 ==> s == 0.0 && q == 0.0)
    ensures Square(s + a) <= Times((m + 1) as real, q + Square(a)) && q + Square(a) >= 0.0
  {
    SquareNonNegative(a);
    if m > 0 {
      var r := m as real;
      CrossTerm(s, q, r, a);
      assert Square(s + a) == s * s + 2.0 * (s * a) + a * a;
      assert Times((m + 1) as real, q + Square(a)) == r * q + q + r * (a * a) + a * a;
    }
  }

  function SumOfDeviations(s: seq<real>, center: real): real {
    if s == [] then 0.0 else SumOfDeviations(s[..|s| - 1], center) + (s[|s| - 1] - center)
  }

  lemma {:induction false} DeviationsOf(s: seq<real>, center: real)
    ensures SumOfDeviations(s, center) == Sum(s) - Times(|s| as real, center)
  {
    if s != [] {
      DeviationsOf(s[..|s| - 1], center);
      assert Times(|s| as real, center) == Times((|s| - 1) as real, center) + center;
    }
  }

  /** Deviations from the mean cancel. */
  lemma DeviationsCancel(s: seq<real>)
    requires s != []
    ensures SumOfDeviations(s, Mean(s)) == 0.0
  {
    DeviationsOf(s, Mean(s));
  }

  /** Cauchy and Schwarz: the square of a sum is at most the number of terms times the sum of
      their squares. */
  lemma {:induction false} SquareOfSum(s: seq<real>, center: real)
    ensures SumOfSquares(s, center) >= 0.0
    ensures Square(SumOfDeviations(s, center)) <= Times(|s| as real, SumOfSquares(s, center))
  {
    if s != [] {
      SquareOfSum(s[..|s| - 1], center);
      OneMoreTerm(SumOfDeviations(s[..|s| - 1], center), SumOfSquares(s[..|s| - 1], center), |s| - 1, s[|s| - 1] - center);
    }
  }

  /** Samuelson's inequality for the last point. */
  lemma LastDeviation(s: seq<real>)
    requires s != []
    ensures Square(s[|s| - 1] - Mean(s)) <= Times((|s| - 1) as real, Variance(s))
  {
    hide Square, Times, Mean;
    var n, m := |s| as real, Mean(s);
    var init, d := s[..|s| - 1], s[|s| - 1] - m;
    DeviationsCancel(s);
    assert SumOfDeviations(init, m) == -d && SumOfSquares(s, m) == SumOfSquares(init, m) + Square(d);
    SquareOfSum(init, m);
    NegativeSquare(d);
    QuotientTimes(SumOfSquares(s, m), n);
    hide SumOfSquares, SumOfDeviations;
    Isolate(n, Square(d), SumOfSquares(init, m), Variance(s));
  }

  lemma NegativeSquare(x: real)
    ensures Square(-x) == Square(x)
  {
  }

  lemma Isolate(n: real, d2: real, q: real, v: real)
    requires n >= 1.0 && d2 <= Times(n - 1.0, q) && v * n == q + d2
    ensures d2 <= Times(n - 1.0, v)
  {
    var k := n - 1.0;
    calc {
      n * d2;
    ==
      k * d2 + d2;
    <=
      k * d2 + k * q;
    ==  { assert k * (q + d2) == k * q + k * d2; }
      k * (q + d2);
    ==
      k * (v * n);
    ==  { Regroup(n, k, v); }
      n * (k * v);
    }
    Cancel(n, d2, k * v);
  }

  lemma Regroup(n: real, k: real, v: real)
    ensures k * (v * n) == n * (k * v)
  {
  }

  lemma QuotientTimes(d: real, root: real)
    requires root > 0.0
    ensures d == (d / root) * root
  {
  }

  lemma SquareOfProduct(z: real, root: real)
    ensures Square(z * root) == Square(root) * Square(z)
  {
    assert (z * root) * (z * root) == (root * root) * (z * z);
  }

  lemma ScoreSquared(z: real, d: real, root: real, v: real, bound: real)
    requires root > 0.0 && z == d / root && Square(root) == v && Square(d) <= Times(bound, v)
    ensures Square(z) <= bound
  {
    QuotientTimes(d, root);
    SquareOfProduct(z, root);
    RootPositive(root);
    Cancel(v, Square(z), bound);
  }

  lemma TimesPositive(x: real, y: real)
    requires x > 0.0 && y > 0.0
    ensures Times(x, y) > 0.0
  {
  }

  lemma SquarePositive(x: real)
    requires x > 0.0
    ensures Square(x) > 0.0 && Square(-x) == Square(x)
  {
    TimesPositive(x, x);
  }

  lemma RootPositive(root: real)
    ensures Square(root) > 0.0 <==> root != 0.0
  {
    if root > 0.0 {
      SquarePositive(root);
    } else if root < 0.0 {
      SquarePositive(-root);
    }
  }

  /** A point is at most sqrt(n - 1) standard deviations from the mean of a history of n points
      that contains it. */
  lemma LastPointBound(history: seq<real>, root: real)
    requires history != [] && IsRoot(root, Variance(history))
    ensures Square(ZScore(history, history[|history| - 1], root)) <= (|history| - 1) as real
  {
    if root > 0.0 {
      var d := history[|history| - 1] - Mean(history);
      LastDeviation(history);
      ScoreSquared(d / root, d, root, Variance(history), (|history| - 1) as real);
    }
  }

  lemma SquareGrows(x: real, y: real)
    requires 0.0 <= y <= x
    ensures Square(y) <= Square(x)
  {
  }

  /** What `detect_batch` can report: the latest cost is always the last point, so a severity
      whose threshold is t needs more than t squared points. */
  lemma SeverityNeedsPoints(t: Thresholds, history: seq<real>, root: real)
    requires history != [] && IsRoot(root, Variance(history)) && 0.0 <= t.major && 0.0 <= t.critical
    ensures Detect(t, history, None, root).severity == Critical ==> Square(t.critical) <= (|history| - 1) as real
    ensures Detect(t, history, None, root).severity == Major ==> Square(t.major) <= (|history| - 1) as real
  {
    hide Percentile, Sorted, ZScore, CountBelow, CountEqual, Variance, UpperFence, LowerFence;
    var z := ZScore(history, history[|history| - 1], root);
    LastPointBound(history, root);
    assert Square(Abs(z)) == Square(z);
    if Abs(z) >= t.critical { SquareGrows(Abs(z), t.critical); }
    if Abs(z) >= t.major { SquareGrows(Abs(z), t.major); }
  }

  /** By default: nothing critical up to 16 points, nothing major up to 9. */
  lemma ShortHistories(history: seq<real>, root: real)
    requires history != [] && IsRoot(root, Variance(history))
    ensures |history| <= 16 ==> Detect(DEFAULTS, history, None, root).severity != Critical
    ensures |history| <= 9 ==> Detect(DEFAULTS, history, None, root).severity in {Quiet, Minor}
  {
    SeverityNeedsPoints(DEFAULTS, history, root);
    assert Square(4.0) == 16.0 && Square(3.0) == 9.0;
    hide Detect;
  }

  function Zeros(n: nat): (s: seq<real>)
    ensures |s| == n
  {
    if n == 0 then [] else Zeros(n - 1) + [0.0]
  }

  lemma OneMoreSquare(n: nat, c: real)
    requires n > 0
    ensures Square(0.0 - c) == Square(c)
    ensures Times(n as real, Square(c)) == Times((n - 1) as real, Square(c)) + Square(c)
  {
  }

  lemma {:induction false} ZerosSums(n: nat, c: real)
    ensures Sum(Zeros(n)) == 0.0 && SumOfSquares(Zeros(n), c) == Times(n as real, Square(c))
  {
    if n > 0 {
      ZerosSums(n - 1, c);
      assert Zeros(n)[..n - 1] == Zeros(n - 1);
      OneMoreSquare(n, c);
      hide Times, Square;
    }
  }

  lemma OneAmongZeros(n: nat)
    requires n >= 1
    ensures var s, m := Zeros(n) + [1.0], 1.0 / (n + 1) as real;
      Mean(s) == m && Variance(s) == (Times(n as real, Square(m)) + Square(1.0 - m)) / (n + 1) as real
  {
    var s, m := Zeros(n) + [1.0], 1.0 / (n + 1) as real;
    assert s[..n] == Zeros(n);
    ZerosSums(n, m);
    hide Times, Square;
  }

  /** The bounds are attained: one cost among zeros is critical with 17 points. */
  lemma CriticalAttained()
    ensures var h := Zeros(16) + [1.0];
      IsRoot(4.0 / 17.0, Variance(h)) && Detect(DEFAULTS, h, None, 4.0 / 17.0).severity == Critical
  {
    OneAmongZeros(16);
    assert Square(1.0 / 17.0) == 1.0 / 289.0 && Square(1.0 - 1.0 / 17.0) == 256.0 / 289.0 && Square(4.0 / 17.0) == 16.0 / 289.0;
    hide Square, Zeros, Mean, Variance, Detect;
    SeverityOf(Zeros(16) + [1.0], 4.0 / 17.0, 4.0);
  }

  /** And major with 10. */
  lemma MajorAttained()
    ensures var h := Zeros(9) + [1.0]; IsRoot(0.3, Variance(h)) && Detect(DEFAULTS, h, None, 0.3).severity == Major
  {
    OneAmongZeros(9);
    assert Square(0.1) == 0.01 && Square(1.0 - 0.1) == 0.81 && Square(0.3) == 0.09;
    hide Square, Zeros, Mean, Variance, Detect;
    SeverityOf(Zeros(9) + [1.0], 0.3, 3.0);
  }

  lemma SeverityOf(history: seq<real>, root: real, z: real)
    requires |history| >= 3 && IsRoot(root, Variance(history)) && z >= 2.0
    requires root > 0.0 && (history[|history| - 1] - Mean(history)) / root == z
    ensures Detect(DEFAULTS, history, None, root).severity == if z >= 4.0 then Critical else if z >= 3.0 then Major else Minor
  {
    hide Percentile, Sorted, CountBelow, CountEqual, UpperFence, LowerFence, Mean, Variance;
  }

  // ---- the fences -------------------------------------------------------------------------------

  lemma PrependAscending(x: real, s: seq<real>)
    requires Ascending(s) && (s != [] ==> x <= s[0])
    ensures Ascending([x] + s)
  {
  }

  lemma {:induction false} InsertAscending(s: seq<real>, x: real)
    requires Ascending(s)
    ensures Ascending(Insert(s, x))
    ensures s != [] ==> Insert(s, x)[0] == if x <= s[0] then x else s[0]
  {
    if s == [] || x <= s[0] {
      PrependAscending(x, s);
    } else {
      InsertAscending(s[1..], x);
      PrependAscending(s[0], Insert(s[1..], x));
    }
  }

  lemma {:induction false} InsertKeeps(s: seq<real>, x: real)
    ensures multiset(Insert(s, x)) == multiset(s) + multiset{x}
  {
    if s != [] {
      assert s == [s[0]] + s[1..];
      if x > s[0] { InsertKeeps(s[1..], x); }
    }
  }

  /** `sorted`: the same costs, ascending. */
  lemma {:induction false} SortedIsSorted(s: seq<real>)
    ensures Ascending(Sorted(s)) && multiset(Sorted(s)) == multiset(s) && |Sorted(s)| == |s|
  {
    if s != [] {
      SortedIsSorted(s[1..]);
      InsertAscending(Sorted(s[1..]), s[0]);
      InsertKeeps(Sorted(s[1..]), s[0]);
      assert s == [s[0]] + s[1..];
      assert |multiset(Sorted(s))| == |multiset(s)|;
    }
  }

  /** The value at a rank lies between the points around it; at a whole rank it is the point. */
  lemma AtRankBetween(s: seq<real>, k: real)
    requires Ascending(s) && 0.0 <= k <= (|s| - 1) as real
    ensures s[k.Floor] <= AtRank(s, k)
    ensures k.Floor + 1 < |s| ==> AtRank(s, k) <= s[k.Floor + 1]
    ensures k == k.Floor as real ==> AtRank(s, k) == s[k.Floor]
  {
    var f := k.Floor;
    var c := if f + 1 < |s| - 1 then f + 1 else |s| - 1;
    Scaled(k - f as real, 1.0, s[c] - s[f]);
  }

  lemma AtRankMonotone(s: seq<real>, k: real, l: real)
    requires Ascending(s) && 0.0 <= k <= l <= (|s| - 1) as real
    ensures AtRank(s, k) <= AtRank(s, l)
  {
    var f := k.Floor;
    if l.Floor == f {
      var c := if f + 1 < |s| - 1 then f + 1 else |s| - 1;
      Scaled(k - f as real, l - f as real, s[c] - s[f]);
    } else {
      AtRankBetween(s, k);
      AtRankBetween(s, l);
      assert s[f + 1] <= s[l.Floor];
    }
  }

  /** Percentiles grow with p, from the least value to the greatest. */
  lemma PercentileMonotone(s: seq<real>, p: real, q: real)
    requires Ascending(s) && 0.0 <= p <= q <= 100.0
    ensures Percentile(s, p) <= Percentile(s, q)
    ensures s == [] ==> Percentile(s, p) == 0.0
    ensures s != [] ==> Percentile(s, 0.0) == s[0] && Percentile(s, 100.0) == s[|s| - 1]
  {
    if s != [] {
      var m := (|s| - 1) as real;
      Scaled(p / 100.0, q / 100.0, m);
      AtRankMonotone(s, Rank(p, |s|), Rank(q, |s|));
      Scaled(0.0, 1.0, m);
      assert Rank(0.0, |s|) == 0.0 && Rank(100.0, |s|) == m;
      AtRankBetween(s, 0.0);
      AtRankBetween(s, m);
    }
  }

  lemma TimesNonNegative(x: real, y: real)
    requires x >= 0.0 && y >= 0.0
    ensures Times(x, y) >= 0.0
  {
  }

  /** The fences enclose the quartiles. */
  lemma FencesEnclose(t: Thresholds, history: seq<real>)
    requires t.iqrFactor >= 0.0
    ensures LowerFence(t, history) <= Percentile(Sorted(history), 25.0) <= Percentile(Sorted(history), 75.0) <= UpperFence(t, history)
  {
    SortedIsSorted(history);
    hide Sorted, Percentile, Ascending;
    var s := Sorted(history);
    PercentileMonotone(s, 25.0, 75.0);
    TimesNonNegative(t.iqrFactor, Percentile(s, 75.0) - Percentile(s, 25.0));
    hide Times;
  }

  // ---- the labels ---------------------------------------------------------------------------------

  lemma SignOfQuotient(d: real, root: real)
    ensures root > 0.0 ==> (d / root > 0.0 <==> d > 0.0)
  {
  }

  /** A reported anomaly is labelled a spike exactly when the cost is above the mean, except in
      one case: any excess over a history without variance is labelled a drop. */
  lemma LabelRightIff(t: Thresholds, history: seq<real>, given: Option<real>, root: real)
    requires |history| >= 3 && IsRoot(root, Variance(history)) && Detect(t, history, given, root).isAnomaly
    ensures var latest := LatestOf(history, given);
      (Detect(t, history, given, root).kind == Spike <==> latest > Mean(history))
      <==> !(Variance(history) == 0.0 && latest > Mean(history))
  {
    hide Percentile, Sorted, CountBelow, CountEqual, UpperFence, LowerFence, Variance, Mean;
    SignOfQuotient(LatestOf(history, given) - Mean(history), root);
    RootPositive(root);
  }

  /** The wrong label does occur: 5 after 1, 1, 1. */
  lemma ExcessCalledDrop()
    ensures IsRoot(0.0, Variance([1.0, 1.0, 1.0]))
    ensures Detect(DEFAULTS, [1.0, 1.0, 1.0], Some(5.0), 0.0).kind == Drop
  {
    var h := [1.0, 1.0, 1.0];
    assert h[..2] == [1.0, 1.0] && [1.0, 1.0][..1] == [1.0] && [1.0][..0] == [];
    assert Sum([1.0]) == 1.0 && Sum([1.0, 1.0]) == 2.0 && Sum(h) == 3.0;
    assert Square(0.0) == 0.0;
    assert SumOfSquares([1.0], 1.0) == 0.0 && SumOfSquares([1.0, 1.0], 1.0) == 0.0 && SumOfSquares(h, 1.0) == 0.0;
    OnesFence();
    hide Percentile, Sorted, CountBelow, CountEqual, UpperFence, LowerFence, Mean, Variance;
  }

  lemma OnesFence()
    ensures UpperFence(DEFAULTS, [1.0, 1.0, 1.0]) == 1.0
  {
    var h := [1.0, 1.0, 1.0];
    var s := Sorted(h);
    SortedIsSorted(h);
    forall i | 0 <= i < 3 ensures s[i] == 1.0 {
      assert s[i] in multiset(s) && multiset(s) == multiset(h);
    }
    PercentileMonotone(s, 0.0, 25.0);
    PercentileMonotone(s, 25.0, 75.0);
    PercentileMonotone(s, 75.0, 100.0);
    hide Percentile, Sorted;
  }

  /** Never in a batch: without variance the last point is the mean. */
  lemma BatchLabelsRight(t: Thresholds, history: seq<real>, root: real)
    requires |history| >= 3 && IsRoot(root, Variance(history)) && Detect(t, history, None, root).isAnomaly
    ensures Detect(t, history, None, root).kind == Spike <==> history[|history| - 1] > Mean(history)
  {
    LabelRightIff(t, history, None, root);
    LastDeviation(history);
    RootPositive(history[|history| - 1] - Mean(history));
    hide Detect, Mean, Variance;
  }

  lemma {:induction false} CountsFit(s: seq<real>, x: real)
    ensures CountBelow(s, x) + CountEqual(s, x) <= |s|
  {
    if s != [] { CountsFit(s[..|s| - 1], x); }
  }

  lemma Quotient(c: real, n: real)
    requires 0.0 <= c <= n && n > 0.0
    ensures 0.0 <= c / n <= 1.0
  {
    QuotientTimes(c, n);
    var q := c / n;
    if q < 0.0 {
      Distribute(n, 0.0, q);
    } else if q > 1.0 {
      Distribute(n, q, 1.0);
    }
  }

  /** The percentile rank is one that the report model accepts. */
  lemma RankWithinReport(t: Thresholds, history: seq<real>, given: Option<real>, root: real)
    requires history != [] ==> IsRoot(root, Variance(history))
    ensures 0.0 <= Detect(t, history, given, root).percentile <= 100.0
  {
    if |history| >= 3 {
      hide Percentile, Sorted, UpperFence, LowerFence, Variance, ZScore;
      var x := LatestOf(history, given);
      CountsFit(history, x);
      var n, c := |history| as real, CountBelow(history, x) as real + 0.5 * CountEqual(history, x) as real;
      Quotient(c, n);
    }
  }

  // ---- the classification, without scores and fences ---------------------------------------------

  /** Under three points nothing is reported, and the rank is the middle. */
  lemma TooShort(t: Thresholds, history: seq<real>, given: Option<real>, root: real)
    requires |history| < 3 && (history != [] ==> IsRoot(root, Variance(history)))
    ensures var r := Detect(t, history, given, root);
      !r.isAnomaly && r.kind == NoAnomaly && r.severity == Quiet && r.zScore == 0.0 && r.percentile == 50.0
  {
  }

  lemma {:induction false} BelowCount(s: seq<real>, x: real)
    ensures CountBelow(s, x) == |Below(s, x)|
  {
    if s != [] {
      var n := |s| - 1;
      BelowCount(s[..n], x);
      assert Below(s, x) == Below(s[..n], x) + (if s[n] < x then {n} else {});
    }
  }

  lemma {:induction false} EqualCount(s: seq<real>, x: real)
    ensures CountEqual(s, x) == |Equal(s, x)|
  {
    if s != [] {
      var n := |s| - 1;
      EqualCount(s[..n], x);
      assert Equal(s, x) == Equal(s[..n], x) + (if s[n] == x then {n} else {});
    }
  }

  function Below(s: seq<real>, x: real): set<nat> {
    set i: nat | i < |s| && s[i] < x
  }

  function Equal(s: seq<real>, x: real): set<nat> {
    set i: nat | i < |s| && s[i] == x
  }

  /** Exactly what is reported from three points on, by the distance to the mean in standard
      deviations and the distance beyond a quartile in interquartile ranges; and the rank is the
      mean of the parts of the history below the cost and not above it, in hundredths. */
  lemma DetectIff(t: Thresholds, history: seq<real>, given: Option<real>, root: real)
    requires |history| >= 3 && IsRoot(root, Variance(history)) && root > 0.0
    ensures var r, x := Detect(t, history, given, root), LatestOf(history, given);
      var d, q1, q3 := Abs(x - Mean(history)), Percentile(Sorted(history), 25.0), Percentile(Sorted(history), 75.0);
      && (r.isAnomaly <==> d >= Times(t.minor, root) || q1 - x > Times(t.iqrFactor, q3 - q1) || x - q3 > Times(t.iqrFactor, q3 - q1))
      && (r.severity == Critical <==> r.isAnomaly && d >= Times(t.critical, root))
      && (r.severity == Major <==> r.isAnomaly && Times(t.major, root) <= d < Times(t.critical, root))
      && (r.severity == Quiet <==> !r.isAnomaly) && (r.kind == NoAnomaly <==> !r.isAnomaly)
      && Times(r.zScore, root) == x - Mean(history)
      && Times(r.percentile, |history| as real) == 50.0 * (|Below(history, x)| + |Below(history, x) + Equal(history, x)|) as real
  {
    hide Percentile, Sorted, CountBelow, CountEqual, Mean, Variance, Below, Equal, Times, Abs, ZScore, LowerFence, UpperFence;
    var x := LatestOf(history, given);
    DetectParts(t, history, given, root);
    hide Detect;
    ScoreScaled(t, history, x, root);
    FencesFrom(t, history, x);
    RankFrom(history, x);
  }

  lemma DetectParts(t: Thresholds, history: seq<real>, given: Option<real>, root: real)
    requires |history| >= 3 && IsRoot(root, Variance(history))
    ensures var r, x := Detect(t, history, given, root), LatestOf(history, given);
      var z := ZScore(history, x, root);
      && r.zScore == z
      && (r.isAnomaly <==> Abs(z) >= t.minor || x < LowerFence(t, history) || x > UpperFence(t, history))
      && (r.severity == Critical <==> r.isAnomaly && Abs(z) >= t.critical)
      && (r.severity == Major <==> r.isAnomaly && Abs(z) >= t.major && Abs(z) < t.critical)
      && (r.severity == Quiet <==> !r.isAnomaly) && (r.kind == NoAnomaly <==> !r.isAnomaly) && (r.kind == Spike <==> r.isAnomaly && z > 0.0)
      && r.percentile == (CountBelow(history, x) as real + 0.5 * CountEqual(history, x) as real) / |history| as real * 100.0
  {
    hide Percentile, Sorted, CountBelow, CountEqual, Mean, Variance, Times, Abs, ZScore, LowerFence, UpperFence;
  }

  lemma ScoreScaled(t: Thresholds, history: seq<real>, x: real, root: real)
    requires history != [] && root > 0.0
    ensures var z, d := ZScore(history, x, root), Abs(x - Mean(history));
      && Times(z, root) == x - Mean(history)
      && (Abs(z) >= t.minor <==> d >= Times(t.minor, root))
      && (Abs(z) >= t.major <==> d >= Times(t.major, root))
      && (Abs(z) >= t.critical <==> d >= Times(t.critical, root))
  {
    var z := ZScore(history, x, root);
    QuotientTimes(x - Mean(history), root);
    assert Times(z, root) == x - Mean(history);
    hide Mean, Abs, Times, ZScore;
    ScaledBy(z, t.minor, root);
    ScaledBy(z, t.major, root);
    ScaledBy(z, t.critical, root);
  }

  lemma FencesFrom(t: Thresholds, history: seq<real>, x: real)
    ensures var q1, q3 := Percentile(Sorted(history), 25.0), Percentile(Sorted(history), 75.0);
      && (x < LowerFence(t, history) <==> q1 - x > Times(t.iqrFactor, q3 - q1))
      && (x > UpperFence(t, history) <==> x - q3 > Times(t.iqrFactor, q3 - q1))
  {
    hide Percentile, Sorted, Times;
  }

  lemma RankFrom(history: seq<real>, x: real)
    requires history != []
    ensures var n, below, equal := |history| as real, CountBelow(history, x) as real, CountEqual(history, x) as real;
      Times((below + 0.5 * equal) / n * 100.0, n) == 50.0 * (|Below(history, x)| + |Below(history, x) + Equal(history, x)|) as real
  {
    BelowCount(history, x);
    EqualCount(history, x);
    assert Below(history, x) !! Equal(history, x);
    assert |Below(history, x) + Equal(history, x)| == |Below(history, x)| + |Equal(history, x)|;
    hide CountBelow, CountEqual, Below, Equal;
    RankScaled(CountBelow(history, x) as real + 0.5 * CountEqual(history, x) as real, |history| as real);
  }

  lemma ScaledBy(z: real, bound: real, root: real)
    requires root > 0.0
    ensures Abs(z) >= bound <==> Abs(Times(z, root)) >= Times(bound, root)
  {
    if z < 0.0 {
      Distribute(root, -z, bound);
      Distribute(root, bound, -z);
      Distribute(root, 0.0, z);
    } else {
      Distribute(root, z, bound);
      Distribute(root, bound, z);
      Distribute(root, z, 0.0);
    }
  }

  lemma RankScaled(c: real, n: real)
    requires n > 0.0
    ensures Times(c / n * 100.0, n) == 100.0 * c
  {
    QuotientTimes(c, n);
  }

  /** The quartiles and the default fences of the costs 1 to 5. */
  lemma FencesOfFive()
    ensures var s := [1.0, 2.0, 3.0, 4.0, 5.0];
      && Percentile(s, 25.0) == 2.0 && Percentile(s, 75.0) == 4.0
      && LowerFence(DEFAULTS, s) == -1.0 && UpperFence(DEFAULTS, s) == 7.0
  {
    var s := [1.0, 2.0, 3.0, 4.0, 5.0];
    FiveSorted();
    assert Times(0.25, 4.0) == 1.0 && Times(0.75, 4.0) == 3.0;
    hide Sorted;
    QuartilesOfFive(s);
    hide Percentile;
    assert Times(1.5, 2.0) == 3.0;
    hide Times;
  }

  lemma FiveSorted()
    ensures Sorted([1.0, 2.0, 3.0, 4.0, 5.0]) == [1.0, 2.0, 3.0, 4.0, 5.0]
  {
    var s := [1.0, 2.0, 3.0, 4.0, 5.0];
    SortedIsSorted(s);
    hide Sorted;
    AscendingUnique(Sorted(s), s);
  }

  lemma QuartilesOfFive(s: seq<real>)
    requires s == [1.0, 2.0, 3.0, 4.0, 5.0]
    ensures Percentile(s, 25.0) == 2.0 && Percentile(s, 75.0) == 4.0
  {
    assert Times(0.25, 4.0) == 1.0 && Times(0.75, 4.0) == 3.0;
    assert Rank(25.0, 5) == 1.0 && Rank(75.0, 5) == 3.0;
    AtRankBetween(s, 1.0);
    AtRankBetween(s, 3.0);
    hide AtRank, Rank;
  }

  lemma {:induction false} FlatIfNoSquares(s: seq<real>, center: real)
    ensures SumOfSquares(s, center) >= 0.0
    ensures SumOfSquares(s, center) == 0.0 ==> forall i :: 0 <= i < |s| ==> s[i] == center
  {
    if s != [] {
      var init, last := s[..|s| - 1], s[|s| - 1];
      FlatIfNoSquares(init, center);
      SquareNonNegative(last - center);
      RootPositive(last - center);
      hide Square;
      assert forall i :: 0 <= i < |init| ==> s[i] == init[i];
    }
  }

  /** In a history without variance every cost, and so every percentile, is the mean. */
  lemma Flat(history: seq<real>, p: real)
    requires history != [] && Variance(history) == 0.0 && 0.0 <= p <= 100.0
    ensures Percentile(Sorted(history), p) == Mean(history)
  {
    var m, s := Mean(history), Sorted(history);
    QuotientTimes(SumOfSquares(history, m), |history| as real);
    FlatIfNoSquares(history, m);
    SortedIsSorted(history);
    hide Sorted, Mean, SumOfSquares, Percentile;
    forall i | 0 <= i < |s| ensures s[i] == m {
      assert s[i] in multiset(s);
    }
    PercentileMonotone(s, 0.0, p);
    PercentileMonotone(s, p, 100.0);
  }

  /** What is reported over a history without variance: every other cost, as a drop, and by
      thresholds above 0 as minor. */
  lemma DetectFlat(t: Thresholds, history: seq<real>, given: Option<real>)
    requires |history| >= 3 && Variance(history) == 0.0 && t.minor > 0.0 && t.major > 0.0 && t.critical > 0.0
    ensures Square(0.0) == 0.0
    ensures var r, x := Detect(t, history, given, 0.0), LatestOf(history, given);
      && (r.isAnomaly <==> x != Mean(history)) && r.zScore == 0.0
      && (r.isAnomaly ==> r.severity == Minor && r.kind == Drop) && (!r.isAnomaly ==> r.severity == Quiet && r.kind == NoAnomaly)
  {
    hide Percentile, Sorted, Mean, Variance, CountBelow, CountEqual;
    assert Square(0.0) == 0.0;
    Flat(history, 25.0);
    Flat(history, 75.0);
    FlatFences(t, history);
    DetectParts(t, history, given, 0.0);
    hide Detect, LowerFence, UpperFence;
  }

  lemma FlatFences(t: Thresholds, history: seq<real>)
    requires history != [] && Percentile(Sorted(history), 25.0) == Mean(history) && Percentile(Sorted(history), 75.0) == Mean(history)
    ensures LowerFence(t, history) == UpperFence(t, history) == Mean(history)
  {
    hide Percentile, Sorted, Mean;
    assert Times(t.iqrFactor, 0.0) == 0.0;
  }

  /** Between neighbouring points the value grows in proportion to the rank. */
  lemma Interpolated(s: seq<real>, f: nat, x: real)
    requires f + 1 < |s| && 0.0 <= x <= 1.0
    ensures AtRank(s, f as real + x) == s[f] + x * (s[f + 1] - s[f])
  {
    if x < 1.0 {
      assert (f as real + x).Floor == f;
    } else {
      assert (f as real + x).Floor == f + 1;
    }
  }

  // ---- mirrored costs ----------------------------------------------------------------------------

  function Mirrored(s: seq<real>): seq<real> {
    seq(|s|, i requires 0 <= i < |s| => -s[i])
  }

  function Backwards(s: seq<real>): seq<real> {
    seq(|s|, i requires 0 <= i < |s| => s[|s| - 1 - i])
  }

  lemma {:induction false} MirroredSums(s: seq<real>, center: real, x: real)
    ensures Sum(Mirrored(s)) == -Sum(s)
    ensures SumOfSquares(Mirrored(s), -center) == SumOfSquares(s, center)
    ensures CountBelow(Mirrored(s), -x) == |s| - CountBelow(s, x) - CountEqual(s, x) && CountEqual(Mirrored(s), -x) == CountEqual(s, x)
  {
    if s != [] {
      var init, last := s[..|s| - 1], s[|s| - 1];
      MirroredSums(init, center, x);
      assert Mirrored(s)[..|s| - 1] == Mirrored(init);
      NegativeSquare(last - center);
      assert -last - -center == -(last - center);
      hide Square;
    }
  }

  lemma MirroredMean(s: seq<real>)
    requires s != []
    ensures Mean(Mirrored(s)) == -Mean(s) && Variance(Mirrored(s)) == Variance(s)
  {
    MirroredSums(s, Mean(s), 0.0);
    var n := |s| as real;
    assert |Mirrored(s)| == |s|;
    NegativeQuotient(Sum(s), n);
    hide Sum, SumOfSquares, Mirrored;
  }

  lemma {:induction false} MirroredMultiset(s: seq<real>, x: real)
    ensures multiset(Mirrored(s))[x] == multiset(s)[-x]
  {
    if s != [] {
      var init, last := s[..|s| - 1], s[|s| - 1];
      MirroredMultiset(init, x);
      assert s == init + [last] && Mirrored(s) == Mirrored(init) + [-last];
    }
  }

  lemma {:induction false} BackwardsMultiset(s: seq<real>)
    ensures multiset(Backwards(s)) == multiset(s)
  {
    if s != [] {
      var init, last := s[..|s| - 1], s[|s| - 1];
      BackwardsMultiset(init);
      assert s == init + [last] && Backwards(s) == [last] + Backwards(init);
    }
  }

  lemma FirstIsLeast(s: seq<real>, x: real)
    requires Ascending(s) && x in multiset(s)
    ensures s != [] && s[0] <= x
  {
    assert x in s;
  }

  lemma RestOf(s: seq<real>)
    requires s != [] && Ascending(s)
    ensures Ascending(s[1..]) && multiset(s[1..]) == multiset(s) - multiset{s[0]} && s[0] in multiset(s)
  {
    assert s == [s[0]] + s[1..];
  }

  lemma SameLength(s: seq<real>, u: seq<real>)
    requires multiset(s) == multiset(u)
    ensures |s| == |u|
  {
    assert |s| == |multiset(s)| && |u| == |multiset(u)|;
  }

  /** The least cost is first in both, and the rests are permutations of each other. */
  lemma SameFirst(s: seq<real>, u: seq<real>)
    requires Ascending(s) && Ascending(u) && multiset(s) == multiset(u) && s != [] && u != []
    ensures s[0] == u[0] && Ascending(s[1..]) && Ascending(u[1..]) && multiset(s[1..]) == multiset(u[1..])
  {
    RestOf(s);
    RestOf(u);
    FirstIsLeast(s, u[0]);
    FirstIsLeast(u, s[0]);
    hide Ascending;
  }

  lemma {:induction false} AscendingUnique(s: seq<real>, u: seq<real>)
    requires Ascending(s) && Ascending(u) && multiset(s) == multiset(u)
    ensures s == u
  {
    hide Ascending;
    SameLength(s, u);
    if s != [] {
      SameFirst(s, u);
      AscendingUnique(s[1..], u[1..]);
      assert s == [s[0]] + s[1..] && u == [u[0]] + u[1..];
    }
  }

  lemma BackwardsAscending(s: seq<real>)
    requires Ascending(s)
    ensures Ascending(Backwards(Mirrored(s)))
  {
    var u := Backwards(Mirrored(s));
    forall i, j | 0 <= i <= j < |u| ensures u[i] <= u[j] {
      assert s[|s| - 1 - j] <= s[|s| - 1 - i];
    }
  }

  lemma MirroredMultisets(s: seq<real>, u: seq<real>)
    requires multiset(s) == multiset(u)
    ensures multiset(Mirrored(s)) == multiset(Mirrored(u))
  {
    forall x ensures multiset(Mirrored(s))[x] == multiset(Mirrored(u))[x] {
      MirroredMultiset(s, x);
      MirroredMultiset(u, x);
    }
    hide Mirrored;
  }

  lemma MirroredSorted(s: seq<real>)
    ensures Sorted(Mirrored(s)) == Backwards(Mirrored(Sorted(s)))
  {
    hide Sorted, Mirrored, Backwards, Ascending;
    SortedIsSorted(s);
    SortedIsSorted(Mirrored(s));
    MirroredMultisets(s, Sorted(s));
    BackwardsMultiset(Mirrored(Sorted(s)));
    BackwardsAscending(Sorted(s));
    AscendingUnique(Sorted(Mirrored(s)), Backwards(Mirrored(Sorted(s))));
  }

  lemma MirroredRank(s: seq<real>, k: real)
    requires 0.0 <= k <= (|s| - 1) as real
    ensures AtRank(Backwards(Mirrored(s)), (|s| - 1) as real - k) == -AtRank(s, k)
  {
    var f := k.Floor;
    if k == f as real {
      MirroredPoint(s, f);
    } else {
      MirroredBetween(s, f, k - f as real);
      assert (|s| - 1) as real - k == (|s| - 2 - f) as real + (1.0 - (k - f as real));
    }
    hide AtRank, Backwards, Mirrored;
  }

  lemma WholeRank(s: seq<real>, f: nat)
    requires f < |s|
    ensures AtRank(s, f as real) == s[f]
  {
    hide Times;
    NothingTimes(s[if f + 1 < |s| - 1 then f + 1 else |s| - 1] - s[f]);
  }

  lemma NothingTimes(x: real)
    ensures Times(0.0, x) == 0.0
  {
  }

  lemma MirroredPoint(s: seq<real>, f: nat)
    requires f < |s|
    ensures AtRank(Backwards(Mirrored(s)), (|s| - 1) as real - f as real) == -AtRank(s, f as real)
  {
    var u := Backwards(Mirrored(s));
    assert u[|s| - 1 - f] == -s[f] && |u| == |s|;
    hide AtRank, Backwards, Mirrored;
    WholeRank(s, f);
    WholeRank(u, |s| - 1 - f);
    assert (|s| - 1) as real - f as real == (|s| - 1 - f) as real;
  }

  lemma MirroredBetween(s: seq<real>, f: nat, x: real)
    requires f + 1 < |s| && 0.0 < x < 1.0
    ensures AtRank(Backwards(Mirrored(s)), (|s| - 2 - f) as real + (1.0 - x)) == -AtRank(s, f as real + x)
  {
    var u, n := Backwards(Mirrored(s)), |s|;
    assert u[n - 2 - f] == -s[f + 1] && u[n - 1 - f] == -s[f];
    hide AtRank, Backwards, Mirrored;
    Interpolated(u, n - 2 - f, 1.0 - x);
    Interpolated(s, f, x);
    Complement(x, s[f], s[f + 1]);
  }

  lemma Complement(x: real, a: real, b: real)
    ensures -b + (1.0 - x) * (-a - -b) == -(a + x * (b - a))
  {
  }

  lemma MirroredPercentile(s: seq<real>, p: real)
    requires 0.0 <= p <= 100.0
    ensures Percentile(Sorted(Mirrored(s)), 100.0 - p) == -Percentile(Sorted(s), p)
  {
    hide Sorted, AtRank, Mirrored, Backwards, Ascending, Rank, Times;
    MirroredSorted(s);
    SortedIsSorted(s);
    var u := Sorted(s);
    MirroredLength(u);
    if u != [] {
      MirroredRank(u, Rank(p, |u|));
      ComplementRank(p, |u|);
    }
  }

  lemma MirroredLength(s: seq<real>)
    ensures |Backwards(Mirrored(s))| == |s|
  {
  }

  lemma ComplementRank(p: real, n: nat)
    requires 0.0 <= p <= 100.0 && n >= 1
    ensures Rank(100.0 - p, n) == (n - 1) as real - Rank(p, n)
  {
    ComplementOf(p / 100.0, (n - 1) as real);
    assert (100.0 - p) / 100.0 == 1.0 - p / 100.0;
    hide Times;
  }

  lemma ComplementOf(x: real, m: real)
    ensures Times(1.0 - x, m) == m - Times(x, m)
  {
  }

  lemma MirroredFences(t: Thresholds, s: seq<real>)
    ensures LowerFence(t, Mirrored(s)) == -UpperFence(t, s) && UpperFence(t, Mirrored(s)) == -LowerFence(t, s)
  {
    MirroredPercentile(s, 25.0);
    MirroredPercentile(s, 75.0);
    hide Sorted, Percentile;
  }

  lemma MirroredScore(history: seq<real>, x: real, root: real)
    requires history != []
    ensures ZScore(Mirrored(history), -x, root) == -ZScore(history, x, root)
  {
    MirroredMean(history);
    NegativeQuotient(x - Mean(history), root);
    hide Mean;
  }

  lemma NegativeQuotient(d: real, root: real)
    ensures root > 0.0 ==> -d / root == -(d / root)
  {
  }

  /** Costs and their negatives are judged alike: the same anomalies and severities, spikes for
      drops, and ranks counted from the other end. */
  lemma MirroredDetect(t: Thresholds, history: seq<real>, given: Option<real>, root: real)
    requires |history| >= 3 && IsRoot(root, Variance(history))
    ensures IsRoot(root, Variance(Mirrored(history)))
    ensures var r := Detect(t, history, given, root);
      var r' := Detect(t, Mirrored(history), if given.Some? then Some(-given.value) else None, root);
      && r'.isAnomaly == r.isAnomaly && r'.severity == r.severity && r'.zScore == -r.zScore && r'.percentile == 100.0 - r.percentile
      && (r.isAnomaly && r.zScore != 0.0 ==> r.kind == (if r'.kind == Drop then Spike else Drop))
  {
    var x := LatestOf(history, given);
    MirroredMean(history);
    MirroredSums(history, 0.0, x);
    MirroredFences(t, history);
    MirroredScore(history, x, root);
    MirroredPart(CountBelow(history, x) as real, CountEqual(history, x) as real, |history| as real);
    hide CountBelow, CountEqual, LowerFence, UpperFence, ZScore, Variance;
  }

  lemma MirroredPart(b: real, e: real, n: real)
    requires n > 0.0
    ensures ((n - b - e) + 0.5 * e) / n * 100.0 == 100.0 - (b + 0.5 * e) / n * 100.0
  {
    QuotientTimes(b + 0.5 * e, n);
    QuotientTimes((n - b - e) + 0.5 * e, n);
    var u, v := (b + 0.5 * e) / n, ((n - b - e) + 0.5 * e) / n;
    assert (u + v) * n == u * n + v * n;
    if u + v != 1.0 {
      Distribute(n, u + v, 1.0);
      Distribute(n, 1.0, u + v);
    }
  }
}

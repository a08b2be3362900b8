/** UTC calendar arithmetic: days and months of the Gregorian calendar, in microseconds since
    1 January of the year 1. */
module Calendar {
  const DAY: int := 86_400_000_000

  predicate IsLeap(year: nat) {
    year % 4 == 0 && (year % 100 == 0 ==> year % 400 == 0)
  }

  /** Months are counted from January of the year 1. */
  function MonthLength(m: nat): (days: nat)
    ensures 28 <= days <= 31
  {
    if m % 12 == 1 then if IsLeap(m / 12 + 1) then 29 else 28
    else if m % 12 in {3, 5, 8, 10} then 30
    else 31
  }

  /** Days before month m. */
  function FirstDay(m: nat): nat {
    if m == 0 then 0 else FirstDay(m - 1) + MonthLength(m - 1)
  }

  /** The month, not before m, that day falls in. */
  function MonthFrom(day: nat, m: nat): (r: nat)
    requires FirstDay(m) <= day
    ensures FirstDay(r) <= day < FirstDay(r + 1)
    decreases day - FirstDay(m)
  {
    if day < FirstDay(m + 1) then m else MonthFrom(day, m + 1)
  }

  lemma {:induction false} FirstDayIncreases(m: nat, n: nat)
    requires m < n
    ensures FirstDay(m) < FirstDay(n)
  {
    if m + 1 < n { FirstDayIncreases(m, n - 1); }
  }

  lemma MonthUnique(day: nat, m: nat)
    requires FirstDay(m) <= day < FirstDay(m + 1)
    ensures MonthFrom(day, 0) == m
  {
    var r := MonthFrom(day, 0);
    if r < m {
      if r + 1 < m { FirstDayIncreases(r + 1, m); }
    } else if m < r {
      if m + 1 < r { FirstDayIncreases(m + 1, r); }
    }
  }

  datatype Period = Day | Month

  /** Midnight of t's day, or of the first of t's month. */
  function StartOf(p: Period, t: nat): nat {
    match p
    case Day => t - t % DAY
    case Month => FirstDay(MonthFrom(t / DAY, 0)) * DAY
  }

  // ---- the civil calendar, in closed form ------------------------------------------------------

  /** Days of a common year before each month, and all of them. */
  const DAYS_BEFORE: seq<nat> := [0, 31, 59, 90, 120, 151, 181, 212, 243, 273, 304, 334, 365]

  /** Days before month m, from 0 for January, of the year y + 1: y years, with their leap days. */
  function CivilStart(y: nat, m: nat): nat
    requires m <= 12
  {
    365 * y + y / 4 - y / 100 + y / 400 + DAYS_BEFORE[m] + (if m >= 2 && IsLeap(y + 1) then 1 else 0)
  }

  predicate InCivilMonth(day: nat, y: nat, m: nat) {
    m < 12 && CivilStart(y, m) <= day < CivilStart(y, m + 1)
  }

  predicate SameDay(t: nat, u: nat) {
    t / DAY == u / DAY
  }

  ghost predicate SameCivilMonth(t: nat, u: nat) {
    exists y, m :: InCivilMonth(t / DAY, y, m) && InCivilMonth(u / DAY, y, m)
  }

  ghost predicate InPeriod(p: Period, t: nat, u: nat) {
    match p
    case Day => SameDay(t, u)
    case Month => SameCivilMonth(t, u)
  }

  lemma LeapDays(y: nat)
    ensures CivilStart(y + 1, 0) == CivilStart(y, 12)
  {
    LeapFourth(y);
    LeapCentury(y);
    LeapFourHundredth(y);
    Multiples(y + 1);
  }

  lemma LeapFourth(y: nat)
    ensures (y + 1) / 4 == y / 4 + (if (y + 1) % 4 == 0 then 1 else 0)
  {
  }

  lemma LeapCentury(y: nat)
    ensures (y + 1) / 100 == y / 100 + (if (y + 1) % 100 == 0 then 1 else 0)
  {
  }

  lemma LeapFourHundredth(y: nat)
    ensures (y + 1) / 400 == y / 400 + (if (y + 1) % 400 == 0 then 1 else 0)
  {
  }

  lemma Multiples(y: nat)
    ensures y % 400 == 0 ==> y % 100 == 0
    ensures y % 100 == 0 ==> y % 4 == 0
  {
    if y % 400 == 0 {
      assert y == 100 * (4 * (y / 400));
      OfHundred(4 * (y / 400));
    }
    if y % 100 == 0 {
      assert y == 4 * (25 * (y / 100));
      OfFour(25 * (y / 100));
    }
  }

  lemma OfHundred(k: nat)
    ensures 100 * k % 100 == 0
  {
  }

  lemma OfFour(k: nat)
    ensures 4 * k % 4 == 0
  {
  }

  lemma MonthOfYear(y: nat, m: nat)
    requires m < 12
    ensures (12 * y + m) % 12 == m && (12 * y + m) / 12 == y
  {
  }

  lemma CivilStep(y: nat, m: nat)
    requires m < 12
    ensures CivilStart(y, m + 1) == CivilStart(y, m) + MonthLength(12 * y + m)
  {
    MonthOfYear(y, m);
    hide IsLeap;
  }

  /** Adding up the lengths of the months gives the civil calendar. */
  lemma {:induction false} FirstDayIsCivil(y: nat, m: nat)
    requires m <= 12
    ensures FirstDay(12 * y + m) == CivilStart(y, m)
    decreases y, m
  {
    if m > 0 {
      FirstDayIsCivil(y, m - 1);
      CivilStep(y, m - 1);
      hide CivilStart, MonthLength;
      assert 12 * y + m == (12 * y + (m - 1)) + 1;
    } else if y > 0 {
      FirstDayIsCivil(y - 1, 12);
      LeapDays(y - 1);
      hide CivilStart, FirstDay;
      assert 12 * y == 12 * (y - 1) + 12;
    }
  }

  /** A day's month is the civil month that it lies in. */
  lemma MonthIsCivil(day: nat, y: nat, m: nat)
    ensures InCivilMonth(day, y, m) <==> m < 12 && MonthFrom(day, 0) == 12 * y + m
  {
    if m < 12 {
      FirstDayIsCivil(y, m);
      FirstDayIsCivil(y, m + 1);
      if InCivilMonth(day, y, m) { MonthUnique(day, 12 * y + m); }
    }
  }

  lemma SameMonthIff(t: nat, u: nat)
    ensures SameCivilMonth(t, u) <==> MonthFrom(t / DAY, 0) == MonthFrom(u / DAY, 0)
  {
    var k := MonthFrom(u / DAY, 0);
    var y, m := k / 12, k % 12;
    assert k == 12 * y + m;
    if SameCivilMonth(t, u) {
      var y', m' :| InCivilMonth(t / DAY, y', m') && InCivilMonth(u / DAY, y', m');
      MonthIsCivil(t / DAY, y', m');
      MonthIsCivil(u / DAY, y', m');
    }
    if MonthFrom(t / DAY, 0) == k {
      MonthIsCivil(t / DAY, y, m);
      MonthIsCivil(u / DAY, y, m);
    }
  }

  /** Two times have the same start exactly when they are on the same day or in the same civil
      month; of the times up to u, those not before u's start are u's period. */
  lemma PeriodIff(p: Period, t: nat, u: nat)
    ensures StartOf(p, t) == StartOf(p, u) <==> InPeriod(p, t, u)
    ensures t <= u ==> (t >= StartOf(p, u) <==> InPeriod(p, t, u))
  {
    StartWithin31Days(p, t);
    if StartOf(p, u) <= t <= u { SamePeriod(p, t, u); }
    match p
    case Day =>
    case Month =>
      SameMonthIff(t, u);
      var m, n := MonthFrom(t / DAY, 0), MonthFrom(u / DAY, 0);
      if m < n { FirstDayIncreases(m, n); }
      if n < m { FirstDayIncreases(n, m); }
  }

  /** A time is less than 31 days into its period. */
  lemma StartWithin31Days(p: Period, t: nat)
    ensures StartOf(p, t) <= t < StartOf(p, t) + 31 * DAY
  {
    var d := t / DAY;
    assert d * DAY <= t < (d + 1) * DAY;
    var m := MonthFrom(d, 0);
    assert FirstDay(m + 1) <= FirstDay(m) + 31;
  }

  /** Times not before the start of a later time's period share that period. */
  lemma SamePeriod(p: Period, t: nat, u: nat)
    requires StartOf(p, u) <= t <= u
    ensures StartOf(p, t) == StartOf(p, u)
  {
    match p
    case Day =>
      assert t / DAY == u / DAY;
    case Month =>
      var m := MonthFrom(u / DAY, 0);
      assert FirstDay(m) <= t / DAY <= u / DAY;
      MonthUnique(t / DAY, m);
  }
}

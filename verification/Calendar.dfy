/** The proleptic Gregorian calendar as both database drivers count it, from day 0, which is
    1 January of year 0, and the two notions of a week. */
module Calendar {
  predicate Leap(y: nat) {
    y % 4 == 0 && (y % 100 != 0 || y % 400 == 0)
  }

  function YearLength(y: nat): nat {
    if Leap(y) then 366 else 365
  }

  /** The number of the first day of a year. */
  function YearStart(y: nat): nat {
    365 * y + (y + 3) / 4 - (y + 99) / 100 + (y + 399) / 400
  }

  lemma YearStep(y: nat)
    ensures YearStart(y + 1) == YearStart(y) + YearLength(y)
  {
    CeilStep(y, 4);
    CeilStep(y, 100);
    CeilStep(y, 400);
    LeapBy(y);
  }

  lemma LeapBy(y: nat)
    ensures y % 400 == 0 ==> y % 100 == 0
    ensures y % 100 == 0 ==> y % 4 == 0
  {
    if y % 400 == 0 {
      var q := y / 400;
      assert y == 100 * (4 * q);
    }
    if y % 100 == 0 {
      var q := y / 100;
      assert y == 4 * (25 * q);
    }
  }

  lemma CeilStep(y: nat, k: nat)
    requires k == 4 || k == 100 || k == 400
    ensures (y + k) / k == (y + k - 1) / k + (if y % k == 0 then 1 else 0)
  {
  }

  lemma {:induction false} YearsAscend(a: nat, b: nat)
    requires a < b
    ensures YearStart(a) + YearLength(a) <= YearStart(b)
    decreases b
  {
    hide YearStart;
    YearStep(b - 1);
    if a < b - 1 {
      YearsAscend(a, b - 1);
    }
  }

  function YearFrom(n: nat, y: nat): (r: nat)
    requires YearStart(y) <= n
    ensures y <= r && YearStart(r) <= n < YearStart(r) + YearLength(r)
    decreases n - YearStart(y)
  {
    YearStep(y);
    if n < YearStart(y) + YearLength(y) then y else YearFrom(n, y + 1)
  }

  function YearOf(n: nat): (y: nat)
    ensures YearStart(y) <= n < YearStart(y) + YearLength(y)
  {
    YearFrom(n, 0)
  }

  lemma YearIs(n: nat, y: nat)
    requires YearStart(y) <= n < YearStart(y) + YearLength(y)
    ensures YearOf(n) == y
  {
    hide YearStart;
    hide YearOf;
    if YearOf(n) < y {
      YearsAscend(YearOf(n), y);
    } else if y < YearOf(n) {
      YearsAscend(y, YearOf(n));
    }
  }

  /** Days of the year before month `m`, which may be 13. */
  function MonthStart(leap: bool, m: nat): nat
    requires 1 <= m <= 13
  {
    var extra := if leap then 1 else 0;
    match m
    case 1 => 0
    case 2 => 31
    case 3 => 59 + extra
    case 4 => 90 + extra
    case 5 => 120 + extra
    case 6 => 151 + extra
    case 7 => 181 + extra
    case 8 => 212 + extra
    case 9 => 243 + extra
    case 10 => 273 + extra
    case 11 => 304 + extra
    case 12 => 334 + extra
    case _ => 365 + extra
  }

  function MonthFrom(leap: bool, yday: nat, m: nat): (r: nat)
    requires 1 <= m <= 12 && MonthStart(leap, m) <= yday < MonthStart(leap, 13)
    ensures m <= r <= 12 && MonthStart(leap, r) <= yday < MonthStart(leap, r + 1)
    decreases 12 - m
  {
    if yday < MonthStart(leap, m + 1) then m else MonthFrom(leap, yday, m + 1)
  }

  lemma {:induction false} MonthsAscend(leap: bool, m: nat, k: nat)
    requires 1 <= m < k <= 13
    ensures MonthStart(leap, m) + 28 <= MonthStart(leap, k) <= MonthStart(leap, m) + 31 * (k - m)
    decreases k
  {
    if m < k - 1 {
      MonthsAscend(leap, m, k - 1);
    }
  }

  lemma YearSpan(y: nat)
    ensures MonthStart(Leap(y), 1) == 0 && MonthStart(Leap(y), 13) == YearLength(y)
  {
  }

  datatype Date = Date(year: nat, month: nat, day: nat)

  ghost predicate IsDate(d: Date) {
    && 1 <= d.month <= 12
    && 1 <= d.day <= MonthStart(Leap(d.year), d.month + 1) - MonthStart(Leap(d.year), d.month)
  }

  function DateOf(n: nat): (d: Date)
    ensures IsDate(d)
  {
    hide YearStart;
    hide YearOf;
    hide MonthStart;
    hide Leap;
    var y := YearOf(n);
    YearSpan(y);
    var yday := n - YearStart(y);
    var m := MonthFrom(Leap(y), yday, 1);
    Date(y, m, yday - MonthStart(Leap(y), m) + 1)
  }

  lemma YearOfDate(n: nat)
    ensures DateOf(n).year == YearOf(n)
  {
  }

  function DayNumber(d: Date): nat
    requires IsDate(d)
  {
    YearStart(d.year) + MonthStart(Leap(d.year), d.month) + d.day - 1
  }

  lemma MonthIs(leap: bool, yday: nat, m: nat)
    requires 1 <= m <= 12 && MonthStart(leap, m) <= yday < MonthStart(leap, m + 1)
    ensures MonthStart(leap, 1) == 0 && yday < MonthStart(leap, 13) && MonthFrom(leap, yday, 1) == m
  {
    assert MonthStart(leap, 1) == 0;
    hide MonthStart;
    hide MonthFrom;
    if m < 12 {
      MonthsAscend(leap, m + 1, 13);
    }
    var r := MonthFrom(leap, yday, 1);
    if m < r {
      LaterMonth(leap, m, r);
    } else if r < m {
      LaterMonth(leap, r, m);
    }
  }

  /** Day numbers and dates correspond one to one. */
  lemma DateOfDayNumber(d: Date)
    requires IsDate(d)
    ensures DateOf(DayNumber(d)) == d
  {
    YearSpan(d.year);
    hide MonthStart;
    hide MonthFrom;
    hide YearStart;
    hide YearOf;
    hide Leap;
    MonthIs(Leap(d.year), MonthStart(Leap(d.year), d.month) + d.day - 1, d.month);
    YearIs(DayNumber(d), d.year);
  }

  lemma LaterMonth(leap: bool, m: nat, k: nat)
    requires 1 <= m < k <= 12
    ensures MonthStart(leap, m + 1) <= MonthStart(leap, k)
  {
    if m + 1 < k {
      MonthsAscend(leap, m + 1, k);
    }
  }

  lemma DayNumberOfDate(n: nat)
    ensures DayNumber(DateOf(n)) == n
  {
    hide YearStart;
    hide YearOf;
    hide Leap;
  }

  // ---------------------------------------------------------------------------------------
  // The Gregorian rule
  // ---------------------------------------------------------------------------------------

  /** The length of a month by the rule. */
  function MonthDays(y: nat, m: nat): nat {
    if m == 2 then (if y % 4 == 0 && (y % 100 != 0 || y % 400 == 0) then 29 else 28)
    else if m == 4 || m == 6 || m == 9 || m == 11 then 30
    else 31
  }

  /** Exactly the days of the rule are dates. */
  lemma IsDateIff(y: nat, m: nat, d: nat)
    ensures IsDate(Date(y, m, d)) <==> 1 <= m <= 12 && 1 <= d <= MonthDays(y, m)
  {
  }

  function Tomorrow(d: Date): Date {
    if d.day < MonthDays(d.year, d.month) then Date(d.year, d.month, d.day + 1)
    else if d.month < 12 then Date(d.year, d.month + 1, 1)
    else Date(d.year + 1, 1, 1)
  }

  lemma TomorrowIsDate(d: Date)
    requires IsDate(d)
    ensures IsDate(Tomorrow(d))
  {
    IsDateIff(d.year, d.month, d.day);
    IsDateIff(Tomorrow(d).year, Tomorrow(d).month, Tomorrow(d).day);
    hide IsDate;
  }

  /** The days of a month follow each other. */
  lemma MonthEnds(y: nat, m: nat)
    requires 1 <= m <= 12
    ensures MonthStart(Leap(y), m + 1) == MonthStart(Leap(y), m) + MonthDays(y, m)
  {
  }

  lemma TomorrowNumber(d: Date)
    requires IsDate(d) && IsDate(Tomorrow(d))
    ensures DayNumber(Tomorrow(d)) == DayNumber(d) + 1
  {
    MonthEnds(d.year, d.month);
    YearSpan(d.year);
    YearSpan(d.year + 1);
    YearStep(d.year);
    hide MonthStart;
    hide YearStart;
    hide Leap;
    hide YearLength;
    hide MonthDays;
  }

  lemma NextWeekday(n: nat)
    ensures Weekday(n + 1) == (Weekday(n) + 1) % 7
  {
  }

  /** The date of the next day is the next day of the month, or else the first of the next month or year,
      and weekdays go round. */
  lemma NextDay(n: nat)
    ensures DateOf(n + 1) == Tomorrow(DateOf(n)) && Weekday(n + 1) == (Weekday(n) + 1) % 7
  {
    var d := DateOf(n);
    NextWeekday(n);
    hide DateOf;
    hide Weekday;
    hide IsDate;
    hide Tomorrow;
    TomorrowIsDate(d);
    DayNumberOfDate(n);
    TomorrowNumber(d);
    hide DayNumber;
    DateOfDayNumber(Tomorrow(d));
  }

  predicate Earlier(a: Date, b: Date) {
    a.year < b.year || (a.year == b.year && (a.month < b.month || (a.month == b.month && a.day < b.day)))
  }

  /** Dates are ordered as their day numbers are. */
  lemma DatesAscend(m: nat, n: nat)
    requires m < n
    ensures Earlier(DateOf(m), DateOf(n))
  {
    var a, b := YearOf(m), YearOf(n);
    YearSpan(a);
    YearSpan(b);
    hide MonthStart;
    hide MonthFrom;
    hide YearStart;
    hide YearOf;
    hide Leap;
    if b < a {
      YearsAscend(b, a);
    }
    if a == b {
      var leap := Leap(a);
      var j, k := MonthFrom(leap, m - YearStart(a), 1), MonthFrom(leap, n - YearStart(a), 1);
      if k < j {
        LaterMonth(leap, k, j);
      }
    }
  }

  // ---------------------------------------------------------------------------------------
  // Weeks
  // ---------------------------------------------------------------------------------------

  /** 0 for Monday: day 0 is a Saturday. */
  function Weekday(n: nat): (w: nat)
    ensures w <= 6
  {
    (n + 5) % 7
  }

  const EPOCH_DAY := 719_528

  /** Day EPOCH_DAY is 1 January 1970, a Thursday. */
  lemma EpochIsThursday()
    ensures IsDate(Date(1970, 1, 1)) && DayNumber(Date(1970, 1, 1)) == EPOCH_DAY && Weekday(EPOCH_DAY) == 3
  {
  }

  /** The Monday on or before a day: `date_trunc('week', ...)`. */
  function Monday(n: nat): int {
    n - Weekday(n)
  }

  datatype YearWeek = YearWeek(year: nat, week: nat)

  /** `%Y` and `%W`: weeks begin on Monday, and the days before the first Monday are in week 0. */
  function WeekOfYear(n: nat): YearWeek {
    var y := YearOf(n);
    YearWeek(y, (n - YearStart(y) + 7 - Weekday(n)) / 7)
  }

  /** The Mondays of a year up to a day. */
  ghost function MondaysUpTo(n: nat): set<nat> {
    set d: nat | YearStart(YearOf(n)) <= d <= n && Weekday(d) == 0
  }

  lemma MondaysNext(n: nat)
    requires YearOf(n + 1) == YearOf(n)
    ensures |MondaysUpTo(n + 1)| == |MondaysUpTo(n)| + (if Weekday(n + 1) == 0 then 1 else 0)
  {
    hide YearStart;
    hide YearOf;
    hide Weekday;
    var before, added := MondaysUpTo(n), if Weekday(n + 1) == 0 then {n + 1} else {};
    assert MondaysUpTo(n + 1) == before + added;
    assert n + 1 !in before;
    hide MondaysUpTo;
    assert |before + added| == |before| + |added|;
  }

  lemma MondaysOnFirst(n: nat)
    requires YearStart(YearOf(n)) == n
    ensures |MondaysUpTo(n)| == if Weekday(n) == 0 then 1 else 0
  {
    hide YearStart;
    hide YearOf;
    hide Weekday;
    if Weekday(n) == 0 {
      assert MondaysUpTo(n) == {n};
    } else {
      assert MondaysUpTo(n) == {};
    }
  }

  /** The week of a day is the number of Mondays of its year up to it. */
  lemma {:induction false} WeekCountsMondays(n: nat)
    ensures WeekOfYear(n) == YearWeek(DateOf(n).year, |MondaysUpTo(n)|)
    decreases n - YearStart(YearOf(n))
  {
    hide YearStart;
    hide YearOf;
    hide MondaysUpTo;
    hide Weekday;
    YearOfDate(n);
    hide DateOf;
    var y := YearOf(n);
    if YearStart(y) == n {
      MondaysOnFirst(n);
      FirstWeek(n);
    } else {
      YearIs(n - 1, y);
      MondaysNext(n - 1);
      WeekCountsMondays(n - 1);
      WeekOneLater(YearStart(y), n - 1);
    }
  }

  lemma FirstWeek(first: nat)
    ensures (first - first + 7 - Weekday(first)) / 7 == if Weekday(first) == 0 then 1 else 0
  {
  }

  /** Division by seven passes a multiple exactly on a Monday. */
  lemma WeekOneLater(first: nat, n: nat)
    requires first <= n
    ensures (n + 1 - first + 7 - Weekday(n + 1)) / 7
            == (n - first + 7 - Weekday(n)) / 7 + (if Weekday(n + 1) == 0 then 1 else 0)
  {
  }

  lemma SevenTimes(n: nat) returns (q: int)
    ensures Monday(n) == 7 * q - 5
  {
    q := (n + 5) / 7;
  }

  /** Two days share a `%Y-%W` week exactly when they share a Monday and a year.  So a `%Y-%W` week
      lies inside one Monday week. */
  lemma SameWeekIff(m: nat, n: nat)
    ensures WeekOfYear(m) == WeekOfYear(n) <==> Monday(m) == Monday(n) && YearOf(m) == YearOf(n)
  {
    hide YearStart;
    hide YearOf;
    var p := SevenTimes(m);
    var q := SevenTimes(n);
    if YearOf(m) == YearOf(n) {
      var s: int := YearStart(YearOf(m));
      assert m - s + 7 - Weekday(m) == 7 * p + 2 - s && n - s + 7 - Weekday(n) == 7 * q + 2 - s;
      DivideSeven(2 - s, p, q);
    }
  }

  lemma DivideSeven(c: int, p: int, q: int)
    ensures (7 * p + c) / 7 == (7 * q + c) / 7 <==> p == q
  {
    assert (7 * p + c) / 7 == p + c / 7;
    assert (7 * q + c) / 7 == q + c / 7;
  }

  /** A Monday week is the union of at most two `%Y-%W` weeks: among any three of its days, two share
      one. */
  lemma AtMostTwoWeeks(a: nat, b: nat, c: nat)
    requires Monday(a) == Monday(b) == Monday(c)
    ensures WeekOfYear(a) == WeekOfYear(b) || WeekOfYear(b) == WeekOfYear(c) || WeekOfYear(a) == WeekOfYear(c)
  {
    SameWeekIff(a, b);
    SameWeekIff(b, c);
    SameWeekIff(a, c);
    NearYears(a, b);
    NearYears(b, c);
    NearYears(a, c);
  }

  /** Days less than a year apart are in the same year or in successive years. */
  lemma NearYears(a: nat, b: nat)
    requires a <= b + 6 && b <= a + 6
    ensures YearOf(a) <= YearOf(b) + 1 && YearOf(b) <= YearOf(a) + 1
  {
    hide YearStart;
    hide YearOf;
    var x, y := YearOf(a), YearOf(b);
    if x + 1 < y {
      YearsAscend(x, x + 1);
      YearsAscend(x + 1, y);
    }
    if y + 1 < x {
      YearsAscend(y, y + 1);
      YearsAscend(y + 1, x);
    }
  }

  predicate NotLater(a: YearWeek, b: YearWeek) {
    a.year < b.year || (a.year == b.year && a.week <= b.week)
  }

  lemma WeeksAscend(m: nat, n: nat)
    requires m <= n
    ensures NotLater(WeekOfYear(m), WeekOfYear(n)) && WeekOfYear(n).week <= 53
  {
    var a, b := YearOf(m), YearOf(n);
    hide YearStart;
    hide YearOf;
    if b < a {
      YearsAscend(b, a);
    }
    if a == b {
      var p := SevenTimes(m);
      var q := SevenTimes(n);
      assert p <= q;
      var s: int := YearStart(a);
      assert m - s + 7 - Weekday(m) == 7 * p + 2 - s && n - s + 7 - Weekday(n) == 7 * q + 2 - s;
      assert (7 * p + (2 - s)) / 7 == p + (2 - s) / 7 && (7 * q + (2 - s)) / 7 == q + (2 - s) / 7;
    }
  }
}

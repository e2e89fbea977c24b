/** Proleptic Gregorian calendar dates as Python's `datetime.date` represents
    them: years 1 through 9999, months 1 through 12, days within the month.

    Python adds a `timedelta` to a date by going through the date's ordinal
    (day 1 is 0001-01-01): `d + timedelta(days=k)` is the date whose ordinal
    is `d`'s plus `k`, and an `OverflowError` when that ordinal leaves the
    representable range. `Ordinal` below is that reference numbering;
    `NextDay` is the direct calendar rule (month lengths, leap years), and the
    lemmas prove that the two agree. */
module Gregorian {
  import opened Wrappers

  const MinYear := 1
  const MaxYear := 9999

  datatype YearMonthDay = YearMonthDay(year: int, month: int, day: int)

  /** Gregorian leap-year rule: every fourth year, except centuries that are
      not divisible by 400. */
  predicate IsLeapYear(y: int) {
    y % 4 == 0 && (y % 100 != 0 || y % 400 == 0)
  }

  function DaysInMonth(y: int, m: int): (n: int)
    requires 1 <= m <= 12
    ensures 28 <= n <= 31
    ensures n == 29 <==> m == 2 && IsLeapYear(y)
  {
    if m == 2 then (if IsLeapYear(y) then 29 else 28)
    else if m == 4 || m == 6 || m == 9 || m == 11 then 30
    else 31
  }

  predicate Valid(d: YearMonthDay) {
    && MinYear <= d.year <= MaxYear
    && 1 <= d.month <= 12
    && 1 <= d.day <= DaysInMonth(d.year, d.month)
  }

  /** A date Python can represent; no other `date` object exists. */
  type Date = d: YearMonthDay | Valid(d) witness YearMonthDay(1, 1, 1)

  /** The last representable date, 9999-12-31. */
  const MaxDate: Date := YearMonthDay(MaxYear, 12, 31)

  /** The ordinal of 9999-12-31, Python's largest date ordinal. */
  const MaxOrdinal := 3652059

  function YearLength(y: int): (n: int)
    ensures n == 365 || n == 366
  {
    if IsLeapYear(y) then 366 else 365
  }

  /** Number of days in the years before January 1st of `y`: the sum of the
      lengths of years 1 through `y - 1`. */
  function DaysBeforeYear(y: int): (n: nat)
    requires 1 <= y
    decreases y
  {
    if y == 1 then 0 else DaysBeforeYear(y - 1) + YearLength(y - 1)
  }

  /** The same count in the closed form Python's `datetime` computes it with:
      365 days a year plus one per leap year before `y`. */
  function DaysBeforeYearClosedForm(y: int): int
    requires 1 <= y
  {
    var p := y - 1;
    p * 365 + p / 4 - p / 100 + p / 400
  }

  /** Number of days in year `y` before the first of month `m`: the
      cumulative month table, plus one after February in a leap year. */
  function DaysBeforeMonth(y: int, m: int): (n: int)
    requires 1 <= m <= 12
  {
    var table :=
      if m == 1 then 0 else if m == 2 then 31 else if m == 3 then 59
      else if m == 4 then 90 else if m == 5 then 120 else if m == 6 then 151
      else if m == 7 then 181 else if m == 8 then 212 else if m == 9 then 243
      else if m == 10 then 273 else if m == 11 then 304 else 334;
    table + (if m > 2 && IsLeapYear(y) then 1 else 0)
  }

  /** The day number of `d`, counting 0001-01-01 as day 1. */
  function Ordinal(d: Date): int {
    DaysBeforeYear(d.year) + DaysBeforeMonth(d.year, d.month) + d.day
  }

  /** Lexicographic order on dates: year, then month, then day. */
  predicate Before(a: YearMonthDay, b: YearMonthDay) {
    || a.year < b.year
    || (a.year == b.year && a.month < b.month)
    || (a.year == b.year && a.month == b.month && a.day < b.day)
  }

  /** The calendar day after `d`, or `None` when that day is past the last
      representable date (where Python raises `OverflowError`). */
  function NextDay(d: Date): (r: Option<Date>)
    ensures r.None? <==> d == MaxDate
    ensures r.Some? ==> Before(d, r.value)
  {
    if d.day < DaysInMonth(d.year, d.month) then
      Some(YearMonthDay(d.year, d.month, d.day + 1))
    else if d.month < 12 then
      Some(YearMonthDay(d.year, d.month + 1, 1))
    else if d.year < MaxYear then
      Some(YearMonthDay(d.year + 1, 1, 1))
    else
      None
  }

  /** Stepping from `p - 1` to `p` adds one multiple of `k` to the count of
      multiples of `k` exactly when `p` is one, for each divisor of the
      leap-year rule. */
  lemma MultiplesOf4Step(p: int)
    requires 1 <= p
    ensures p / 4 - (p - 1) / 4 == (if p % 4 == 0 then 1 else 0)
  {
  }

  lemma MultiplesOf100Step(p: int)
    requires 1 <= p
    ensures p / 100 - (p - 1) / 100 == (if p % 100 == 0 then 1 else 0)
  {
  }

  lemma MultiplesOf400Step(p: int)
    requires 1 <= p
    ensures p / 400 - (p - 1) / 400 == (if p % 400 == 0 then 1 else 0)
  {
  }

  /** The closed form grows by one year's length from one year to the next. */
  lemma ClosedFormStep(y: int)
    requires 1 <= y
    ensures DaysBeforeYearClosedForm(y + 1) == DaysBeforeYearClosedForm(y) + YearLength(y)
  {
    MultiplesOf4Step(y);
    MultiplesOf100Step(y);
    MultiplesOf400Step(y);
  }

  /** The closed form counts the leap years correctly, so it agrees with the
      year-by-year sum for every year. */
  lemma {:induction false} ClosedFormAgrees(y: int)
    requires 1 <= y
    ensures DaysBeforeYearClosedForm(y) == DaysBeforeYear(y)
    decreases y
  {
    if y > 1 {
      ClosedFormAgrees(y - 1);
      ClosedFormStep(y - 1);
    }
  }

  /** Later years start later. */
  lemma {:induction false} DaysBeforeYearMonotone(y1: int, y2: int)
    requires 1 <= y1 < y2
    ensures DaysBeforeYear(y1) + YearLength(y1) <= DaysBeforeYear(y2)
    decreases y2 - y1
  {
    if y1 + 1 < y2 {
      DaysBeforeYearMonotone(y1 + 1, y2);
    }
  }

  /** The month table adds up: each month starts where the previous one ends,
      and December ends where the year ends. */
  lemma DaysBeforeMonthStep(y: int, m: int)
    requires 1 <= m <= 12
    ensures m < 12 ==> DaysBeforeMonth(y, m + 1) == DaysBeforeMonth(y, m) + DaysInMonth(y, m)
    ensures m == 12 ==> DaysBeforeMonth(y, m) + DaysInMonth(y, m) == YearLength(y)
  {
  }

  /** Every date of year `y` lies strictly after the days before `y` and no
      later than the end of `y`. */
  lemma OrdinalWithinYear(d: Date)
    ensures DaysBeforeYear(d.year) < Ordinal(d) <= DaysBeforeYear(d.year) + YearLength(d.year)
  {
  }

  lemma DaysBeforeMonthMonotone(y: int, m1: int, m2: int)
    requires 1 <= m1 <= m2 <= 12
    ensures DaysBeforeMonth(y, m1) + (if m1 < m2 then DaysInMonth(y, m1) else 0) <= DaysBeforeMonth(y, m2)
  {
  }

  /** The ordinal numbering respects calendar order, so no two dates share
      an ordinal. */
  lemma OrdinalMonotone(a: Date, b: Date)
    requires Before(a, b)
    ensures Ordinal(a) < Ordinal(b)
  {
    if a.year < b.year {
      OrdinalWithinYear(a);
      OrdinalWithinYear(b);
      DaysBeforeYearMonotone(a.year, b.year);
    } else if a.month < b.month {
      DaysBeforeMonthMonotone(a.year, a.month, b.month);
    }
  }

  lemma OrdinalInjective(a: Date, b: Date)
    requires Ordinal(a) == Ordinal(b)
    ensures a == b
  {
    if Before(a, b) {
      OrdinalMonotone(a, b);
    } else if Before(b, a) {
      OrdinalMonotone(b, a);
    }
  }

  /** Every year in range ends no later than the last representable day. */
  lemma YearEndsInRange(y: int)
    requires MinYear <= y <= MaxYear
    ensures DaysBeforeYear(y) + YearLength(y) <= MaxOrdinal
    ensures y == MaxYear ==> DaysBeforeYear(y) + YearLength(y) == MaxOrdinal
  {
    ClosedFormAgrees(y + 1);
    if y == MaxYear {
      assert y / 4 == 2499 && y / 100 == 99 && y / 400 == 24;
    } else {
      assert y / 4 <= 2499 && 0 <= y / 100 && y / 400 <= 24;
    }
  }

  /** The ordinal of every representable date lies between 1 (0001-01-01)
      and `MaxOrdinal`, which is the ordinal of 9999-12-31. */
  lemma OrdinalRange(d: Date)
    ensures 1 <= Ordinal(d) <= MaxOrdinal
    ensures Ordinal(d) == MaxOrdinal <==> d == MaxDate
  {
    OrdinalWithinYear(d);
    YearEndsInRange(d.year);
    if d != MaxDate {
      assert Before(d, YearMonthDay(d.year, 12, 31)) || d.year < MaxYear;
      if d.year < MaxYear {
        DaysBeforeYearMonotone(d.year, d.year + 1);
        YearEndsInRange(d.year + 1);
      } else {
        var last: Date := YearMonthDay(d.year, 12, 31);
        OrdinalMonotone(d, last);
        OrdinalWithinYear(last);
        DaysBeforeMonthStep(d.year, 12);
      }
    }
  }

  /** `NextDay` agrees with Python's ordinal arithmetic: its result is the
      date whose ordinal is one more. */
  lemma NextDayIsSuccessor(d: Date)
    requires d != MaxDate
    ensures Ordinal(NextDay(d).value) == Ordinal(d) + 1
  {
    DaysBeforeMonthStep(d.year, d.month);
  }

  /** No date other than `NextDay(d)` has the ordinal one past `d`'s, so the
      day after is well defined. */
  lemma NextDayIsUnique(d: Date, e: Date)
    requires d != MaxDate
    requires Ordinal(e) == Ordinal(d) + 1
    ensures e == NextDay(d).value
  {
    NextDayIsSuccessor(d);
    OrdinalInjective(e, NextDay(d).value);
  }

  /** The last representable date has no successor in range: no date has
      the ordinal one past it. */
  lemma MaxDateHasNoSuccessor(e: Date)
    ensures Ordinal(e) != MaxOrdinal + 1
  {
    OrdinalRange(e);
  }
}

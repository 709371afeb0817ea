/**
 * The part of Python's `datetime` that the due-date calculators rely on: proleptic Gregorian
 * dates in the range year 1 .. 9999, their day numbers ("ordinals", day 1 being 0001-01-01),
 * weekdays, adding whole days, and the ordering of naive datetimes.
 */
module Calendar {

  import opened Wrappers

  const MaxYear := 9999
  /** The ordinal of 9999-12-31, the last date a Python `date` can hold. */
  const MaxOrdinal := 3652059
  const MicrosPerDay := 86_400_000_000

  datatype Date = Date(year: int, month: int, day: int)

  /** A naive `datetime.datetime`: a date and a time of day down to the microsecond. */
  datatype DateTime = DateTime(date: Date, hour: int, minute: int, second: int, microsecond: int)

  predicate IsLeap(year: int) {
    year % 4 == 0 && (year % 100 != 0 || year % 400 == 0)
  }

  function DaysInYear(year: int): int {
    if IsLeap(year) then 366 else 365
  }

  function DaysInMonth(year: int, month: int): (n: int)
    requires 1 <= month <= 12
    ensures 28 <= n <= 31
    ensures n == 29 <==> month == 2 && IsLeap(year)
  {
    if month == 2 then (if IsLeap(year) then 29 else 28)
    else if month == 4 || month == 6 || month == 9 || month == 11 then 30
    else 31
  }

  /** Days in the months of `year` before `month`. */
  function DaysBeforeMonth(year: int, month: int): int
    requires 1 <= month <= 12
  {
    [0, 31, 59, 90, 120, 151, 181, 212, 243, 273, 304, 334][month - 1]
      + (if month > 2 && IsLeap(year) then 1 else 0)
  }

  /** Days in the years before `year`, counting from 0001-01-01. */
  function DaysBeforeYear(year: int): int
    requires year >= 1
  {
    var y := year - 1;
    y * 365 + y / 4 - y / 100 + y / 400
  }

  /** A date whose month and day exist in its year, with no upper bound on the year. */
  predicate WellFormed(d: Date) {
    d.year >= 1 && 1 <= d.month <= 12 && 1 <= d.day <= DaysInMonth(d.year, d.month)
  }

  /** A date that a Python `date` can represent. */
  predicate ValidDate(d: Date) {
    WellFormed(d) && d.year <= MaxYear
  }

  predicate ValidDateTime(t: DateTime) {
    ValidDate(t.date) && 0 <= t.hour < 24 && 0 <= t.minute < 60 && 0 <= t.second < 60
    && 0 <= t.microsecond < 1_000_000
  }

  /** The day number of a date, 0001-01-01 being day 1. */
  function ToOrdinal(d: Date): int
    requires WellFormed(d)
  {
    DaysBeforeYear(d.year) + DaysBeforeMonth(d.year, d.month) + d.day
  }

  /** Python's `date.weekday()`: Monday is 0 and Sunday is 6. */
  function Weekday(d: Date): (w: int)
    requires WellFormed(d)
    ensures 0 <= w < 7
  {
    (ToOrdinal(d) + 6) % 7
  }

  /** The calendar day after `d`, rolling over months and years. */
  function NextDay(d: Date): (n: Date)
    requires WellFormed(d)
    ensures WellFormed(n)
    ensures DateLess(d, n)
  {
    if d.day < DaysInMonth(d.year, d.month) then Date(d.year, d.month, d.day + 1)
    else if d.month < 12 then Date(d.year, d.month + 1, 1)
    else Date(d.year + 1, 1, 1)
  }

  /** `k` calendar days after `d`. */
  function AddDays(d: Date, k: nat): (n: Date)
    requires WellFormed(d)
    ensures WellFormed(n)
    decreases k
  {
    if k == 0 then d else AddDays(NextDay(d), k - 1)
  }

  /** The order of Python's date comparison: by year, then month, then day. */
  predicate DateLess(a: Date, b: Date) {
    a.year < b.year
    || (a.year == b.year && (a.month < b.month || (a.month == b.month && a.day < b.day)))
  }

  /** Python's naive datetime comparison `a < b`: by date, then hour, minute, second, microsecond. */
  predicate Less(a: DateTime, b: DateTime) {
    DateLess(a.date, b.date)
    || (a.date == b.date
        && (a.hour < b.hour
            || (a.hour == b.hour
                && (a.minute < b.minute
                    || (a.minute == b.minute
                        && (a.second < b.second
                            || (a.second == b.second && a.microsecond < b.microsecond)))))))
  }

  /** Microseconds since midnight. */
  function TimeOfDay(t: DateTime): int {
    t.hour * 3_600_000_000 + t.minute * 60_000_000 + t.second * 1_000_000 + t.microsecond
  }

  /** Microseconds since 0000-12-31 00:00, one day before day 1: a number line for datetimes. */
  function Instant(t: DateTime): int
    requires WellFormed(t.date)
  {
    ToOrdinal(t.date) * MicrosPerDay + TimeOfDay(t)
  }

  /** `t` moved `k` whole days forward at the same time of day: Python's `t + timedelta(days=k)`,
      which raises `OverflowError` when the result lies after 9999-12-31. */
  function AddDaysToDateTime(t: DateTime, k: nat): (r: Option<DateTime>)
    requires ValidDateTime(t)
    ensures r.Some? ==> ValidDateTime(r.value) && r.value.date == AddDays(t.date, k)
    ensures r.Some? ==> TimeOfDay(r.value) == TimeOfDay(t)
    ensures r.Some? ==> r.value == t.(date := AddDays(t.date, k))
    ensures r.None? <==> AddDays(t.date, k).year > MaxYear
  {
    var d := AddDays(t.date, k);
    if d.year <= MaxYear then Some(t.(date := d)) else None
  }

  // ---------------------------------------------------------------------------------------------
  // Day numbers

  lemma DaysBeforeNextYear(year: int)
    requires year >= 1
    ensures DaysBeforeYear(year + 1) == DaysBeforeYear(year) + DaysInYear(year)
  {
    QuadrennialStep(year);
    CenturyStep(year);
    QuadricentennialStep(year);
  }

  lemma QuadrennialStep(year: int)
    requires year >= 1
    ensures (year - 1) / 4 + (if year % 4 == 0 then 1 else 0) == year / 4
  {
  }

  lemma CenturyStep(year: int)
    requires year >= 1
    ensures (year - 1) / 100 + (if year % 100 == 0 then 1 else 0) == year / 100
  {
  }

  lemma QuadricentennialStep(year: int)
    requires year >= 1
    ensures (year - 1) / 400 + (if year % 400 == 0 then 1 else 0) == year / 400
  {
  }

  lemma DaysBeforeMonthStep(year: int, month: int)
    requires 1 <= month <= 12
    ensures month < 12 ==> DaysBeforeMonth(year, month + 1)
                           == DaysBeforeMonth(year, month) + DaysInMonth(year, month)
    ensures month == 12 ==> DaysBeforeMonth(year, 12) + 31 == DaysInYear(year)
  {
  }

  /** Moving to the next calendar day adds exactly one to the day number, across month, year and
      leap-year boundaries. */
  lemma {:induction false} NextDayIsOrdinalSuccessor(d: Date)
    requires WellFormed(d)
    ensures ToOrdinal(NextDay(d)) == ToOrdinal(d) + 1
  {
    DaysBeforeMonthStep(d.year, d.month);
    if d.day == DaysInMonth(d.year, d.month) && d.month == 12 {
      DaysBeforeNextYear(d.year);
    }
  }

  lemma {:induction false} AddDaysOrdinal(d: Date, k: nat)
    requires WellFormed(d)
    ensures ToOrdinal(AddDays(d, k)) == ToOrdinal(d) + k
    decreases k
  {
    if k > 0 {
      NextDayIsOrdinalSuccessor(d);
      AddDaysOrdinal(NextDay(d), k - 1);
    }
  }

  /** Each day added advances the weekday by one, modulo 7. */
  lemma AddDaysWeekday(d: Date, k: nat)
    requires WellFormed(d)
    ensures Weekday(AddDays(d, k)) == (Weekday(d) + k) % 7
  {
    AddDaysOrdinal(d, k);
    ModShift(ToOrdinal(d) + 6, k);
  }

  /** Within a week after `d`, a day falls on weekday `t` exactly when it lies the forward
      distance from `d`'s weekday to `t` after `d`. */
  lemma WeekdayWithinWeek(d: Date, e: Date, t: int)
    requires WellFormed(d) && WellFormed(e) && 0 <= t < 7
    requires ToOrdinal(d) <= ToOrdinal(e) < ToOrdinal(d) + 7
    ensures Weekday(e) == t <==> ToOrdinal(e) - ToOrdinal(d) == (7 - Weekday(d) + t) % 7
  {
    ModShift(ToOrdinal(d) + 6, ToOrdinal(e) - ToOrdinal(d));
    WeekdayJump(Weekday(d), t, ToOrdinal(e) - ToOrdinal(d));
  }

  lemma WeekdayJump(wd: int, t: int, j: int)
    requires 0 <= wd < 7 && 0 <= t < 7 && 0 <= j < 7
    ensures (wd + j) % 7 == t <==> j == (7 - wd + t) % 7
  {
    var x := 7 - wd + t;
    assert x % 7 == if x >= 7 then x - 7 else x;
    assert (wd + j) % 7 == if wd + j >= 7 then wd + j - 7 else wd + j;
  }

  lemma ModShift(x: int, k: int)
    ensures (x + k) % 7 == (x % 7 + k) % 7
  {
    var q := x / 7;
    assert x == 7 * q + x % 7;
    assert x + k == 7 * q + (x % 7 + k);
  }

  /** A day number lies strictly after the days of the previous years and within its own year. */
  lemma OrdinalWithinYear(d: Date)
    requires WellFormed(d)
    ensures DaysBeforeYear(d.year) < ToOrdinal(d) <= DaysBeforeYear(d.year + 1)
  {
    // Dafny can find this step unaided, but on some solver seeds only at many times the cost.
    DaysBeforeNextYear(d.year);
  }

  lemma DaysBeforeYearMonotone(a: int, b: int)
    requires 1 <= a <= b
    ensures DaysBeforeYear(a) <= DaysBeforeYear(b)
  {
  }

  lemma DaysBeforeMonthMonotone(year: int, a: int, b: int)
    requires 1 <= a < b <= 12
    ensures DaysBeforeMonth(year, a) + DaysInMonth(year, a) <= DaysBeforeMonth(year, b)
  {
  }

  /** Earlier dates have smaller day numbers. */
  lemma DateLessOrdinal(a: Date, b: Date)
    requires WellFormed(a) && WellFormed(b)
    requires DateLess(a, b)
    ensures ToOrdinal(a) < ToOrdinal(b)
  {
    if a.year < b.year {
      OrdinalWithinYear(a);
      OrdinalWithinYear(b);
      DaysBeforeYearMonotone(a.year + 1, b.year);
    } else if a.month < b.month {
      DaysBeforeMonthMonotone(a.year, a.month, b.month);
    }
  }

  /** The date order is the order of the day numbers, and different dates have different numbers. */
  lemma DateOrderIsOrdinalOrder(a: Date, b: Date)
    requires WellFormed(a) && WellFormed(b)
    ensures DateLess(a, b) <==> ToOrdinal(a) < ToOrdinal(b)
    ensures a == b <==> ToOrdinal(a) == ToOrdinal(b)
  {
    if DateLess(a, b) {
      DateLessOrdinal(a, b);
    } else if DateLess(b, a) {
      DateLessOrdinal(b, a);
    }
  }

  /** A date on or after `a` and before `b` has a day number in between. */
  lemma OrdinalBetween(a: Date, e: Date, b: Date)
    requires WellFormed(a) && WellFormed(e) && WellFormed(b)
    requires !DateLess(e, a) && DateLess(e, b)
    ensures ToOrdinal(a) <= ToOrdinal(e) < ToOrdinal(b)
  {
    DateOrderIsOrdinalOrder(e, a);
    DateLessOrdinal(e, b);
  }

  /** A date is within Python's range exactly when its day number is at most that of 9999-12-31,
      the bound CPython checks after day arithmetic. */
  lemma ValidIsWithinMaxOrdinal(d: Date)
    requires WellFormed(d)
    ensures ValidDate(d) <==> ToOrdinal(d) <= MaxOrdinal
  {
    var last := Date(MaxYear, 12, 31);
    assert ToOrdinal(last) == MaxOrdinal;
    DateOrderIsOrdinalOrder(last, d);
  }

  /** Python's datetime comparison agrees with the number line of instants. */
  lemma LessIsInstantOrder(a: DateTime, b: DateTime)
    requires ValidDateTime(a) && ValidDateTime(b)
    ensures Less(a, b) <==> Instant(a) < Instant(b)
  {
    DateOrderIsOrdinalOrder(a.date, b.date);
  }
}

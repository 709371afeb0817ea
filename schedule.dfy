/**
 * The next-date calculators: the weekday-name lookup `get_day`, the date arithmetic of
 * `next_merge_date_sql` (a daily merge at a configured time) and of `next_rebuild_date` (a weekly
 * rebuild on a configured weekday and time). Each calculator returns the value it would write
 * into the index's row; the database update itself is not part of the model.
 */
module Schedule {

  import opened Wrappers
  import opened Calendar
  import opened TimeParse

  /** dateutil's weekday constants MO .. SU. */
  datatype DayOfWeek = Monday | Tuesday | Wednesday | Thursday | Friday | Saturday | Sunday

  /** The weekday number dateutil gives each constant, the same numbering as `date.weekday()`. */
  function WeekdayIndex(w: DayOfWeek): (n: int)
    ensures 0 <= n < 7
  {
    match w
    case Monday => 0
    case Tuesday => 1
    case Wednesday => 2
    case Thursday => 3
    case Friday => 4
    case Saturday => 5
    case Sunday => 6
  }

  /** The English name the setting uses for each weekday. */
  function DayName(w: DayOfWeek): string {
    match w
    case Monday => "Monday"
    case Tuesday => "Tuesday"
    case Wednesday => "Wednesday"
    case Thursday => "Thursday"
    case Friday => "Friday"
    case Saturday => "Saturday"
    case Sunday => "Sunday"
  }

  /** `get_day`: exact, case-sensitive comparison with each name in turn. `None` means rebuilds
      are disabled. */
  function GetDay(name: string): (r: Option<DayOfWeek>)
    ensures r.Some? ==> DayName(r.value) == name
  {
    if name == "Sunday" then Some(Sunday)
    else if name == "Monday" then Some(Monday)
    else if name == "Tuesday" then Some(Tuesday)
    else if name == "Wednesday" then Some(Wednesday)
    else if name == "Thursday" then Some(Thursday)
    else if name == "Friday" then Some(Friday)
    else if name == "Saturday" then Some(Saturday)
    else None
  }

  /** A string names a weekday exactly when it is that weekday's name, so the seven names give
      seven different weekdays and every other string (other case, padding, "") gives none. */
  lemma GetDayExactlyNames(name: string, w: DayOfWeek)
    ensures GetDay(name) == Some(w) <==> name == DayName(w)
  {
    if name == DayName(w) {
      match w
      case Monday =>
      case Tuesday =>
      case Wednesday =>
      case Thursday =>
      case Friday =>
      case Saturday =>
      case Sunday =>
    }
  }

  /** The seven weekdays carry seven different numbers and seven different names. */
  lemma DaysDistinct(v: DayOfWeek, w: DayOfWeek)
    ensures WeekdayIndex(v) == WeekdayIndex(w) <==> v == w
    ensures DayName(v) == DayName(w) <==> v == w
  {
  }

  datatype ScheduleError =
    | BadTimeFormat  // strptime raises ValueError
    | DateOverflow   // the date arithmetic raises OverflowError past 9999-12-31

  /** `datetime.datetime(now.year, now.month, now.day, hour, minute, 0)`. */
  function SlotOn(now: DateTime, hm: HourMinute): (t: DateTime)
    requires ValidDateTime(now)
    requires 0 <= hm.hour < 24 && 0 <= hm.minute < 60
    ensures ValidDateTime(t)
  {
    DateTime(now.date, hm.hour, hm.minute, 0, 0)
  }

  /** The value `next_merge_date_sql` writes as the next merge date. */
  function NextMergeDate(mergeFreq: string, now: DateTime): Result<DateTime, ScheduleError>
    requires ValidDateTime(now)
  {
    match ParseHourMinute(mergeFreq)
    case None => Failure(BadTimeFormat)
    case Some(hm) =>
      var todayMerge := SlotOn(now, hm);
      if Less(now, todayMerge) then Success(todayMerge)
      else
        match AddDaysToDateTime(todayMerge, 1)
        case None => Failure(DateOverflow)
        case Some(next) => Success(next)
  }

  /** The number of days dateutil's `relativedelta(weekday=w)` moves `d` forward. */
  function DaysUntil(d: Date, w: DayOfWeek): (k: nat)
    requires WellFormed(d)
    ensures k < 7
  {
    (7 - Weekday(d) + WeekdayIndex(w)) % 7
  }

  /** The value `next_rebuild_date` writes as the next rebuild date; `Success(None)` is the early
      return when the configured day is not a weekday name (rebuilds disabled, nothing written). */
  function NextRebuildDate(rebuildDay: string, rebuildFreq: string, now: DateTime)
    : Result<Option<DateTime>, ScheduleError>
    requires ValidDateTime(now)
  {
    match GetDay(rebuildDay)
    case None => Success(None)
    case Some(day) =>
      match ParseHourMinute(rebuildFreq)
      case None => Failure(BadTimeFormat)
      case Some(hm) =>
        var base := SlotOn(now, hm);
        match AddDaysToDateTime(base, DaysUntil(base.date, day))
        case None => Failure(DateOverflow)
        case Some(next) => Success(Some(next))
  }

  // ---------------------------------------------------------------------------------------------
  // Merge

  /** The next merge lands on the configured hour and minute, at second 0. */
  lemma MergeTimeOfDay(mergeFreq: string, now: DateTime, next: DateTime)
    requires ValidDateTime(now)
    requires NextMergeDate(mergeFreq, now) == Success(next)
    ensures ValidDateTime(next)
    ensures ParseHourMinute(mergeFreq) == Some(HourMinute(next.hour, next.minute))
    ensures next.second == 0 && next.microsecond == 0
  {
  }

  /** The next merge is strictly after `now` and at most one day after it, also when today's slot
      equals `now` exactly. */
  lemma MergeWithinNextDay(mergeFreq: string, now: DateTime, next: DateTime)
    requires ValidDateTime(now)
    requires NextMergeDate(mergeFreq, now) == Success(next)
    ensures ValidDateTime(next)
    ensures Less(now, next)
    ensures Instant(now) < Instant(next) <= Instant(now) + MicrosPerDay
  {
    var hm := ParseHourMinute(mergeFreq).value;
    var todayMerge := SlotOn(now, hm);
    if !Less(now, todayMerge) {
      assert next.date == NextDay(now.date);
      NextDayIsOrdinalSuccessor(now.date);
    }
    LessIsInstantOrder(now, next);
  }

  /** Today's slot is used exactly when it is still ahead of `now`; otherwise the same time on the
      following calendar day. */
  lemma MergeDate(mergeFreq: string, now: DateTime, next: DateTime)
    requires ValidDateTime(now)
    requires NextMergeDate(mergeFreq, now) == Success(next)
    ensures next.date == now.date || next.date == NextDay(now.date)
    ensures next.date == now.date <==> Less(now, SlotOn(now, HourMinute(next.hour, next.minute)))
  {
    var todayMerge := SlotOn(now, ParseHourMinute(mergeFreq).value);
    if !Less(now, todayMerge) {
      assert next.date == NextDay(now.date);
    }
  }

  /** The calculation fails when the stored time does not parse, or when the slot has passed on
      9999-12-31, the last day Python can represent. */
  lemma MergeFailures(mergeFreq: string, now: DateTime)
    requires ValidDateTime(now)
    ensures NextMergeDate(mergeFreq, now) == Failure(BadTimeFormat)
            <==> ParseHourMinute(mergeFreq).None?
    ensures NextMergeDate(mergeFreq, now) == Failure(DateOverflow)
            <==> ParseHourMinute(mergeFreq).Some?
                 && !Less(now, SlotOn(now, ParseHourMinute(mergeFreq).value))
                 && now.date == Date(MaxYear, 12, 31)
  {
    if ParseHourMinute(mergeFreq).Some? {
      assert AddDays(now.date, 1) == NextDay(now.date);
    }
  }

  /** A slot at exactly `now` is not "later than now": the merge moves to the next day. */
  lemma MergeExamples()
    ensures NextMergeDate("0330", DateTime(Date(2024, 3, 10), 3, 30, 0, 0))
            == Success(DateTime(Date(2024, 3, 11), 3, 30, 0, 0))
    ensures NextMergeDate("0330", DateTime(Date(2024, 3, 10), 3, 29, 59, 0))
            == Success(DateTime(Date(2024, 3, 10), 3, 30, 0, 0))
    ensures NextMergeDate("2330", DateTime(Date(2024, 2, 29), 23, 45, 0, 0))
            == Success(DateTime(Date(2024, 3, 1), 23, 30, 0, 0))
  {
    FourDigitParse("0330");
    FourDigitParse("2330");
    assert AddDays(Date(2024, 3, 10), 1) == Date(2024, 3, 11);
    assert AddDays(Date(2024, 2, 29), 1) == Date(2024, 3, 1);
  }

  // ---------------------------------------------------------------------------------------------
  // Rebuild

  /** Nothing is written exactly when the configured day is not one of the seven names. */
  lemma RebuildDisabled(rebuildDay: string, rebuildFreq: string, now: DateTime)
    requires ValidDateTime(now)
    ensures NextRebuildDate(rebuildDay, rebuildFreq, now) == Success(None)
            <==> GetDay(rebuildDay) == None
  {
  }

  /** The next rebuild lies `DaysUntil` days after today, at the configured hour and minute. */
  lemma RebuildOffset(rebuildDay: string, rebuildFreq: string, now: DateTime,
                      day: DayOfWeek, next: DateTime)
    requires ValidDateTime(now)
    requires GetDay(rebuildDay) == Some(day)
    requires NextRebuildDate(rebuildDay, rebuildFreq, now) == Success(Some(next))
    ensures ValidDateTime(next)
    ensures ToOrdinal(next.date) == ToOrdinal(now.date) + DaysUntil(now.date, day)
    ensures ParseHourMinute(rebuildFreq) == Some(HourMinute(next.hour, next.minute))
    ensures next.second == 0 && next.microsecond == 0
  {
    AddDaysOrdinal(now.date, DaysUntil(now.date, day));
  }

  /** The next rebuild falls on the configured weekday at the configured hour and minute. */
  lemma RebuildWeekdayAndTime(rebuildDay: string, rebuildFreq: string, now: DateTime,
                              day: DayOfWeek, next: DateTime)
    requires ValidDateTime(now)
    requires GetDay(rebuildDay) == Some(day)
    requires NextRebuildDate(rebuildDay, rebuildFreq, now) == Success(Some(next))
    ensures ValidDateTime(next)
    ensures Weekday(next.date) == WeekdayIndex(day)
    ensures ParseHourMinute(rebuildFreq) == Some(HourMinute(next.hour, next.minute))
    ensures next.second == 0 && next.microsecond == 0
  {
    RebuildOffset(rebuildDay, rebuildFreq, now, day, next);
    JumpWithinWeek(now.date, next.date, day);
  }

  /** The next rebuild is today or one of the six following days, and today exactly when today
      already is the configured weekday. */
  lemma RebuildWithinWeek(rebuildDay: string, rebuildFreq: string, now: DateTime,
                          day: DayOfWeek, next: DateTime)
    requires ValidDateTime(now)
    requires GetDay(rebuildDay) == Some(day)
    requires NextRebuildDate(rebuildDay, rebuildFreq, now) == Success(Some(next))
    ensures ValidDateTime(next)
    ensures 0 <= ToOrdinal(next.date) - ToOrdinal(now.date) < 7
    ensures next.date == now.date <==> Weekday(now.date) == WeekdayIndex(day)
  {
    RebuildOffset(rebuildDay, rebuildFreq, now, day, next);
    JumpWithinWeek(now.date, next.date, day);
  }

  /** No date from today up to, but not including, the next rebuild's date is the configured
      weekday: the rebuild is set on the first such day on or after today. */
  lemma RebuildIsFirstMatchingDay(rebuildDay: string, rebuildFreq: string, now: DateTime,
                                  day: DayOfWeek, next: DateTime, e: Date)
    requires ValidDateTime(now)
    requires GetDay(rebuildDay) == Some(day)
    requires NextRebuildDate(rebuildDay, rebuildFreq, now) == Success(Some(next))
    requires WellFormed(e) && !DateLess(e, now.date) && DateLess(e, next.date)
    ensures Weekday(e) != WeekdayIndex(day)
  {
    RebuildOffset(rebuildDay, rebuildFreq, now, day, next);
    JumpSkipsEarlierDays(now.date, e, next.date, day);
  }

  /** The date `DaysUntil` days after `d` lies within the week from `d`, falls on `day`, and is `d`
      itself exactly when `d` already falls on `day`. */
  lemma JumpWithinWeek(d: Date, n: Date, day: DayOfWeek)
    requires WellFormed(d) && WellFormed(n)
    requires ToOrdinal(n) == ToOrdinal(d) + DaysUntil(d, day)
    ensures 0 <= ToOrdinal(n) - ToOrdinal(d) < 7
    ensures Weekday(n) == WeekdayIndex(day)
    ensures n == d <==> Weekday(d) == WeekdayIndex(day)
  {
    DateOrderIsOrdinalOrder(d, n);
    WeekdayWithinWeek(d, n, WeekdayIndex(day));
  }

  /** No date from `d` up to the date `DaysUntil` days after it falls on `day`. */
  lemma JumpSkipsEarlierDays(d: Date, e: Date, n: Date, day: DayOfWeek)
    requires WellFormed(d) && WellFormed(e) && WellFormed(n)
    requires ToOrdinal(n) == ToOrdinal(d) + DaysUntil(d, day)
    requires !DateLess(e, d) && DateLess(e, n)
    ensures Weekday(e) != WeekdayIndex(day)
  {
    OrdinalBetween(d, e, n);
    WeekdayWithinWeek(d, e, WeekdayIndex(day));
  }

  /** No comparison with `now` is made: on the configured weekday the rebuild is set for today even
      when today's slot has already passed, and then it lies before `now`. */
  lemma RebuildCanPrecedeNow(rebuildDay: string, rebuildFreq: string, now: DateTime,
                             day: DayOfWeek, next: DateTime)
    requires ValidDateTime(now)
    requires GetDay(rebuildDay) == Some(day) && Weekday(now.date) == WeekdayIndex(day)
    requires NextRebuildDate(rebuildDay, rebuildFreq, now) == Success(Some(next))
    ensures next.date == now.date
    ensures Less(next, now) <==> TimeOfDay(next) < TimeOfDay(now)
  {
    assert DaysUntil(now.date, day) == 0;
  }

  /** The calculation fails when the day resolves but the stored time does not parse, or when the
      weekday lies beyond 9999-12-31. */
  lemma RebuildFailures(rebuildDay: string, rebuildFreq: string, now: DateTime)
    requires ValidDateTime(now)
    ensures NextRebuildDate(rebuildDay, rebuildFreq, now) == Failure(BadTimeFormat)
            <==> GetDay(rebuildDay).Some? && ParseHourMinute(rebuildFreq).None?
    ensures NextRebuildDate(rebuildDay, rebuildFreq, now) == Failure(DateOverflow)
            <==> GetDay(rebuildDay).Some? && ParseHourMinute(rebuildFreq).Some?
                 && AddDays(now.date, DaysUntil(now.date, GetDay(rebuildDay).value)).year > MaxYear
  {
  }

  /** On Friday 2024-03-15 at noon a Friday rebuild at 03:30 is set for 03:30 that same morning,
      which lies before `now`. */
  lemma RebuildExampleSameDay()
    ensures NextRebuildDate("Friday", "0330", DateTime(Date(2024, 3, 15), 12, 0, 0, 0))
            == Success(Some(DateTime(Date(2024, 3, 15), 3, 30, 0, 0)))
    ensures Less(DateTime(Date(2024, 3, 15), 3, 30, 0, 0), DateTime(Date(2024, 3, 15), 12, 0, 0, 0))
  {
    FourDigitParse("0330");
    assert ToOrdinal(Date(2024, 3, 15)) == 738960;
    assert DaysUntil(Date(2024, 3, 15), Friday) == 0;
  }

  /** On Wednesday 2024-03-13 a Friday rebuild is set for that Friday. */
  lemma RebuildExampleLaterDay()
    ensures NextRebuildDate("Friday", "0330", DateTime(Date(2024, 3, 13), 1, 0, 0, 0))
            == Success(Some(DateTime(Date(2024, 3, 15), 3, 30, 0, 0)))
  {
    FourDigitParse("0330");
    assert ToOrdinal(Date(2024, 3, 13)) == 738958;
    assert DaysUntil(Date(2024, 3, 13), Friday) == 2;
    assert NextDay(Date(2024, 3, 13)) == Date(2024, 3, 14);
    assert NextDay(Date(2024, 3, 14)) == Date(2024, 3, 15);
    assert AddDays(Date(2024, 3, 15), 0) == Date(2024, 3, 15);
    assert AddDays(Date(2024, 3, 14), 1) == Date(2024, 3, 15);
    assert AddDays(Date(2024, 3, 13), 2) == Date(2024, 3, 15);
  }

  /** Day names are matched case-sensitively: a lower-case name disables the rebuild. */
  lemma RebuildExampleWrongCase()
    ensures NextRebuildDate("friday", "0330", DateTime(Date(2024, 3, 13), 1, 0, 0, 0))
            == Success(None)
  {
    assert GetDay("friday") == None;
  }
}

/** The proleptic Gregorian calendar to the minute, in UTC, years 1 to 9999. */
module Calendar {
  import opened Cursors

  datatype DateTime = DateTime(year: int, month: int, day: int, hour: int, minute: int)

  const MAX_YEAR := 9999

  predicate IsLeap(year: int) { year % 4 == 0 && (year % 100 != 0 || year % 400 == 0) }

  function DaysInMonth(year: int, month: int): int {
    if month == 2 then (if IsLeap(year) then 29 else 28)
    else if month == 4 || month == 6 || month == 9 || month == 11 then 30
    else 31
  }

  predicate Valid(t: DateTime) {
    && 1 <= t.year <= MAX_YEAR && 1 <= t.month <= 12 && 1 <= t.day <= DaysInMonth(t.year, t.month)
    && 0 <= t.hour <= 23 && 0 <= t.minute <= 59
  }

  function DaysBeforeYear(year: int): int {
    var y := year - 1;
    365 * y + y / 4 - y / 100 + y / 400
  }

  function DaysBeforeMonth(year: int, month: nat): int
    requires 1 <= month <= 13
  {
    if month == 1 then 0 else DaysBeforeMonth(year, month - 1) + DaysInMonth(year, month - 1)
  }

  /** date.toordinal: 1 January of year 1 is day 1. */
  function Ordinal(t: DateTime): int
    requires 1 <= t.month <= 13
  {
    DaysBeforeYear(t.year) + DaysBeforeMonth(t.year, t.month) + t.day
  }

  function MinuteOfDay(t: DateTime): int { t.hour * 60 + t.minute }

  function AbsMinute(t: DateTime): int
    requires 1 <= t.month <= 13
  {
    Ordinal(t) * 1440 + MinuteOfDay(t)
  }

  /** datetime comparison: field by field. */
  predicate Less(a: DateTime, b: DateTime) {
    a.year < b.year || (a.year == b.year && (a.month < b.month || (a.month == b.month && (a.day < b.day
      || (a.day == b.day && (a.hour < b.hour || (a.hour == b.hour && a.minute < b.minute)))))))
  }

  // ---------------------------------------------------------------- moving forward

  function Midnight(t: DateTime): DateTime { t.(hour := 0, minute := 0) }

  /** t + timedelta(days=1); None is the OverflowError past the last year. */
  function PlusDay(t: DateTime): Option<DateTime> {
    if t.day < DaysInMonth(t.year, t.month) then Some(t.(day := t.day + 1))
    else if t.month < 12 then Some(t.(month := t.month + 1, day := 1))
    else if t.year < MAX_YEAR then Some(t.(year := t.year + 1, month := 1, day := 1))
    else None
  }

  /** t + timedelta(hours=1). */
  function PlusHour(t: DateTime): Option<DateTime> {
    if t.hour < 23 then Some(t.(hour := t.hour + 1))
    else var d := PlusDay(t); if d.None? then None else Some(d.value.(hour := 0))
  }

  /** t + timedelta(minutes=1). */
  function PlusMinute(t: DateTime): Option<DateTime> {
    if t.minute < 59 then Some(t.(minute := t.minute + 1))
    else var h := PlusHour(t); if h.None? then None else Some(h.value.(minute := 0))
  }

  function MinusDay(t: DateTime): Option<DateTime> {
    if t.day > 1 then Some(t.(day := t.day - 1))
    else if t.month > 1 then Some(t.(month := t.month - 1, day := DaysInMonth(t.year, t.month - 1)))
    else if t.year > 1 then Some(t.(year := t.year - 1, month := 12, day := 31))
    else None
  }

  /** t - timedelta(minutes=1); None is the OverflowError before year 1. */
  function MinusMinute(t: DateTime): Option<DateTime> {
    if t.minute > 0 then Some(t.(minute := t.minute - 1))
    else if t.hour > 0 then Some(t.(hour := t.hour - 1, minute := 59))
    else var d := MinusDay(t); if d.None? then None else Some(d.value.(hour := 23, minute := 59))
  }

  function MinusHour(t: DateTime): Option<DateTime> {
    if t.hour > 0 then Some(t.(hour := t.hour - 1))
    else var d := MinusDay(t); if d.None? then None else Some(d.value.(hour := 23))
  }

  // ---------------------------------------------------------------- dates and day numbers

  /** The days of a year before each of its months. */
  lemma MonthTable(year: int)
    ensures DaysBeforeMonth(year, 1) == 0 && DaysBeforeMonth(year, 2) == 31
    ensures var leap := if IsLeap(year) then 1 else 0;
            && DaysBeforeMonth(year, 3) == 59 + leap && DaysBeforeMonth(year, 4) == 90 + leap
            && DaysBeforeMonth(year, 5) == 120 + leap && DaysBeforeMonth(year, 6) == 151 + leap
            && DaysBeforeMonth(year, 7) == 181 + leap && DaysBeforeMonth(year, 8) == 212 + leap
            && DaysBeforeMonth(year, 9) == 243 + leap && DaysBeforeMonth(year, 10) == 273 + leap
            && DaysBeforeMonth(year, 11) == 304 + leap && DaysBeforeMonth(year, 12) == 334 + leap
            && DaysBeforeMonth(year, 13) == 365 + leap
  {
    var feb := DaysInMonth(year, 2);
    assert DaysBeforeMonth(year, 2) == 31 && DaysBeforeMonth(year, 3) == 31 + feb;
    assert DaysBeforeMonth(year, 4) == 62 + feb && DaysBeforeMonth(year, 5) == 92 + feb;
    assert DaysBeforeMonth(year, 6) == 123 + feb && DaysBeforeMonth(year, 7) == 153 + feb;
    assert DaysBeforeMonth(year, 8) == 184 + feb && DaysBeforeMonth(year, 9) == 215 + feb;
    assert DaysBeforeMonth(year, 10) == 245 + feb && DaysBeforeMonth(year, 11) == 276 + feb;
    assert DaysBeforeMonth(year, 12) == 306 + feb && DaysBeforeMonth(year, 13) == 337 + feb;
  }

  lemma YearLength(year: int)
    ensures DaysBeforeYear(year + 1) == DaysBeforeYear(year) + (if IsLeap(year) then 366 else 365)
    ensures DaysBeforeMonth(year, 13) == (if IsLeap(year) then 366 else 365)
  {
    DivisionSteps(year);
    MonthTable(year);
  }

  /** y/4 - y/100 + y/400 counts the leap years up to y. */
  lemma DivisionSteps(y: int)
    ensures y / 4 - (y - 1) / 4 == (if y % 4 == 0 then 1 else 0)
    ensures y / 100 - (y - 1) / 100 == (if y % 100 == 0 then 1 else 0)
    ensures y / 400 - (y - 1) / 400 == (if y % 400 == 0 then 1 else 0)
  {
  }

  lemma {:induction false} MonthsGrow(year: int, m: nat, n: nat)
    requires 1 <= m < n <= 13
    ensures DaysBeforeMonth(year, m) + DaysInMonth(year, m) <= DaysBeforeMonth(year, n)
  {
    if m < n - 1 { MonthsGrow(year, m, n - 1); }
  }

  lemma {:induction false} YearsGrow(y: int, z: int)
    requires y < z
    ensures DaysBeforeYear(y + 1) <= DaysBeforeYear(z)
    ensures DaysBeforeYear(z) <= DaysBeforeYear(y) + 366 * (z - y)
    decreases z - y
  {
    YearLength(z - 1);
    if y + 1 < z { YearsGrow(y, z - 1); }
  }

  lemma DayWithinYear(t: DateTime)
    requires Valid(t)
    ensures DaysBeforeYear(t.year) < Ordinal(t) <= DaysBeforeYear(t.year + 1)
  {
    YearLength(t.year);
    MonthsGrow(t.year, t.month, 13);
    MonthStart(t.year, t.month);
  }

  lemma {:induction false} MonthStart(year: int, month: nat)
    requires 1 <= month <= 13
    ensures DaysBeforeMonth(year, month) >= 0
  {
    if month > 1 { MonthStart(year, month - 1); }
  }

  predicate SameDay(a: DateTime, b: DateTime) { a.year == b.year && a.month == b.month && a.day == b.day }

  predicate EarlierDay(a: DateTime, b: DateTime) { Less(Midnight(a), Midnight(b)) }

  /** Day numbers follow the calendar. */
  lemma DaysInOrder(a: DateTime, b: DateTime)
    requires Valid(a) && Valid(b) && EarlierDay(a, b)
    ensures Ordinal(a) < Ordinal(b)
  {
    if a.year < b.year {
      DayWithinYear(a);
      DayWithinYear(b);
      YearsGrow(a.year, b.year);
    } else if a.month < b.month {
      MonthsGrow(a.year, a.month, b.month);
    }
  }

  /** Field-by-field comparison is chronological order. */
  lemma LessIsEarlier(a: DateTime, b: DateTime)
    requires Valid(a) && Valid(b)
    ensures Less(a, b) <==> AbsMinute(a) < AbsMinute(b)
  {
    if EarlierDay(a, b) { DaysInOrder(a, b); }
    else if EarlierDay(b, a) { DaysInOrder(b, a); }
    else { assert SameDay(a, b); }
  }

  /** Each step is exactly as long as it says, across month ends, leap days and new years. */
  lemma DayLength(t: DateTime)
    requires Valid(t)
    ensures PlusDay(t).Some? ==> Valid(PlusDay(t).value) && Ordinal(PlusDay(t).value) == Ordinal(t) + 1
                                 && MinuteOfDay(PlusDay(t).value) == MinuteOfDay(t)
    ensures PlusDay(t).None? <==> t.year == MAX_YEAR && t.month == 12 && t.day == 31
  {
    YearLength(t.year);
    if t.month == 12 { assert DaysBeforeMonth(t.year, 13) == DaysBeforeMonth(t.year, 12) + 31; }
  }

  lemma StepLengths(t: DateTime)
    requires Valid(t)
    ensures PlusHour(t).Some? ==> Valid(PlusHour(t).value) && AbsMinute(PlusHour(t).value) == AbsMinute(t) + 60
    ensures PlusMinute(t).Some? ==> Valid(PlusMinute(t).value) && AbsMinute(PlusMinute(t).value) == AbsMinute(t) + 1
    ensures PlusMinute(t).None? <==> t == DateTime(MAX_YEAR, 12, 31, 23, 59)
    ensures PlusHour(t).None? <==> t == DateTime(MAX_YEAR, 12, 31, 23, t.minute)
  {
    DayLength(t);
  }

  /** The steps back are as long, and stop at 1 January of year 1. */
  lemma DayBack(t: DateTime)
    requires Valid(t)
    ensures MinusDay(t).Some? ==> Valid(MinusDay(t).value) && Ordinal(MinusDay(t).value) == Ordinal(t) - 1
                                  && MinuteOfDay(MinusDay(t).value) == MinuteOfDay(t)
    ensures MinusDay(t).None? <==> t.year == t.month == t.day == 1
  {
    var d := MinusDay(t);
    if d.Some? { DayLength(d.value); assert PlusDay(d.value) == Some(t); }
  }

  lemma HourBack(t: DateTime)
    requires Valid(t)
    ensures MinusHour(t).Some? ==> Valid(MinusHour(t).value) && AbsMinute(MinusHour(t).value) == AbsMinute(t) - 60
    ensures MinusHour(t).None? <==> t == DateTime(1, 1, 1, 0, t.minute)
  {
    if t.hour == 0 { DayBack(t); }
  }

  lemma MinuteBack(t: DateTime)
    requires Valid(t)
    ensures MinusMinute(t).Some? ==> Valid(MinusMinute(t).value) && AbsMinute(MinusMinute(t).value) == AbsMinute(t) - 1
    ensures MinusMinute(t).None? <==> t == DateTime(1, 1, 1, 0, 0)
  {
    if t.hour == 0 && t.minute == 0 { DayBack(t); }
  }

  // ---------------------------------------------------------------- weekdays and leap years

  /** Python's weekday(): Monday is 0. */
  function Weekday(t: DateTime): int
    requires 1 <= t.month <= 13
  {
    (Ordinal(t) + 6) % 7
  }

  lemma FirstOfYear(t: DateTime)
    requires t.month == t.day == 1
    ensures Ordinal(t) == DaysBeforeYear(t.year) + 1
  {
  }

  lemma DaysBefore2024()
    ensures DaysBeforeYear(1) == 0 && DaysBeforeYear(2024) == 738885
  {
  }

  /** The weekdays are anchored: 1 January of year 1 is day 1 and a Monday, and so is 1 January 2024. */
  lemma KnownMondays(t: DateTime)
    requires t.year in {1, 2024} && t.month == t.day == 1
    ensures Ordinal(t) == if t.year == 1 then 1 else 738886
    ensures Weekday(t) == 0
  {
    FirstOfYear(t);
    DaysBefore2024();
  }

  /** The day after a day is the next weekday, across month ends, leap days and new years. */
  lemma WeekdaysFollow(t: DateTime)
    requires Valid(t) && PlusDay(t).Some?
    ensures Weekday(PlusDay(t).value) == if Weekday(t) == 6 then 0 else Weekday(t) + 1
  {
    DayLength(t);
  }

  /** Among any eight successive years one is a leap year, also across a century that is not. */
  lemma LeapWithinEight(y: int) returns (k: nat)
    ensures k < 8 && IsLeap(y + k)
  {
    var q := (y + 3) / 4;
    k := if q % 25 != 0 then 4 * q - y else 4 * (q + 1) - y;
    FourthYears(if q % 25 != 0 then q else q + 1);
  }

  lemma FourthYears(q: int)
    requires q % 25 != 0
    ensures IsLeap(4 * q)
  {
    Remainder(q / 25, 4 * (q % 25));
    assert 4 * q == 100 * (q / 25) + 4 * (q % 25);
  }

  lemma Remainder(k: int, r: int)
    requires 0 <= r < 100
    ensures (100 * k + r) % 100 == r
  {
  }

  /** Every weekday falls in the first week of every month. */
  lemma WeekdayInFirstWeek(year: int, month: nat, w: int) returns (d: nat)
    requires 1 <= month <= 12 && 0 <= w <= 6
    ensures 1 <= d <= 7 && (Weekday(DateTime(year, month, d, 0, 0)) + 1) % 7 == w
  {
    var first := Ordinal(DateTime(year, month, 1, 0, 0));
    d := 1 + (w - first) % 7;
    assert Ordinal(DateTime(year, month, d, 0, 0)) == first + (w - first) % 7;
  }
}

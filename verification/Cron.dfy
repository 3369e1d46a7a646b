/** The search for the next time a cron expression matches: it skips whole months, days and hours,
    and gives up after a fixed number of iterations. */
module Cron {
  import opened Cursors
  import opened Calendar

  /** One comma-separated part. "a-b/n" is read as "a/n": the end of a range with a step is ignored. */
  datatype Part =
    | Every(start: Option<int>, step: int)   // */n, /n, a/n, a-b/n
    | Range(lo: int, hi: int)
    | Exact(value: int)

  /** "*", "?" or a list of parts. Only the day-of-week field may be "?". */
  datatype Field = Star | Question | Parts(parts: seq<Part>)

  datatype Expr = Expr(minute: Field, hour: Field, dayOfMonth: Field, month: Field, dayOfWeek: Field)

  predicate StepsPositive(f: Field) {
    f.Parts? ==> forall i :: 0 <= i < |f.parts| && f.parts[i].Every? ==> f.parts[i].step > 0
  }

  predicate WellFormed(e: Expr) {
    && StepsPositive(e.minute) && StepsPositive(e.hour) && StepsPositive(e.dayOfMonth)
    && StepsPositive(e.month) && StepsPositive(e.dayOfWeek)
    && !e.minute.Question? && !e.hour.Question? && !e.dayOfMonth.Question? && !e.month.Question?
  }

  predicate PartMatches(p: Part, value: int, min: int)
    requires p.Every? ==> p.step > 0
  {
    match p
    case Every(start, step) =>
      var from := if start.Some? then start.value else min;
      value >= from && (value - from) % step == 0
    case Range(lo, hi) => lo <= value <= hi
    case Exact(v) => v == value
  }

  predicate Matches(f: Field, value: int, min: int)
    requires StepsPositive(f)
  {
    f.Star? || (f.Parts? && exists i :: 0 <= i < |f.parts| && PartMatches(f.parts[i], value, min))
  }

  /** 0 is Sunday. */
  function CronDay(t: DateTime): int
    requires 1 <= t.month <= 13
  {
    (Weekday(t) + 1) % 7
  }

  predicate DomRestricted(e: Expr) { !e.dayOfMonth.Star? }

  predicate DowRestricted(e: Expr) { !e.dayOfWeek.Star? && !e.dayOfWeek.Question? }

  predicate MonthOk(e: Expr, t: DateTime)
    requires WellFormed(e)
  {
    Matches(e.month, t.month, 1)
  }

  /** When both day fields are restricted, either of them will do. */
  predicate DayOk(e: Expr, t: DateTime)
    requires WellFormed(e) && 1 <= t.month <= 13
  {
    if DomRestricted(e) && DowRestricted(e) then Matches(e.dayOfMonth, t.day, 1) || Matches(e.dayOfWeek, CronDay(t), 0)
    else if DomRestricted(e) then Matches(e.dayOfMonth, t.day, 1)
    else if DowRestricted(e) then Matches(e.dayOfWeek, CronDay(t), 0)
    else true
  }

  predicate HourOk(e: Expr, t: DateTime)
    requires WellFormed(e)
  {
    Matches(e.hour, t.hour, 0)
  }

  predicate MinuteOk(e: Expr, t: DateTime)
    requires WellFormed(e)
  {
    Matches(e.minute, t.minute, 0)
  }

  predicate Match(e: Expr, t: DateTime)
    requires WellFormed(e) && 1 <= t.month <= 13
  {
    MonthOk(e, t) && DayOk(e, t) && HourOk(e, t) && MinuteOk(e, t)
  }

  // ---------------------------------------------------------------- what an expression says

  /** The k-th value of a part with a step. */
  function Nth(from: int, step: int, k: nat): int { from + k * step }

  /** The value is one a part stands for. */
  ghost predicate IsValueOf(p: Part, value: int, min: int) {
    match p
    case Every(None, step) => exists k: nat :: value == Nth(min, step, k)
    case Every(Some(from), step) => exists k: nat :: value == Nth(from, step, k)
    case Range(lo, hi) => lo <= value && value <= hi
    case Exact(v) => value == v
  }

  /** A part with a step admits its start and every further step, counted up from the least value of the
      field when no start is given; a range admits what lies in it and a number only itself. */
  lemma PartAdmitsItsValues(p: Part, value: int, min: int)
    requires p.Every? ==> p.step > 0
    ensures PartMatches(p, value, min) <==> IsValueOf(p, value, min)
  {
    if p.Every? {
      var from := if p.start.Some? then p.start.value else min;
      if PartMatches(p, value, min) {
        var k: nat := (value - from) / p.step;
        assert value == Nth(from, p.step, k);
      }
      if IsValueOf(p, value, min) {
        var k: nat :| value == Nth(from, p.step, k);
        StepsDivide(k, p.step);
      }
    }
  }

  lemma StepsDivide(k: nat, step: int)
    requires step > 0
    ensures k * step >= 0 && (k * step) % step == 0
  {
    var q, r := (k * step) / step, (k * step) % step;
    assert (k - q) * step == r;
    if k > q { AtLeastOne(k - q, step); }
    if k < q { AtLeastOne(q - k, step); }
  }

  lemma AtLeastOne(n: int, step: int)
    requires n > 0 && step > 0
    ensures n * step >= step
  {
  }

  /** The field admits the value: it is "*", or the value is one of a part. */
  ghost predicate Allows(f: Field, value: int, min: int) {
    f.Star? || (f.Parts? && exists i :: 0 <= i < |f.parts| && IsValueOf(f.parts[i], value, min))
  }

  lemma FieldAllows(f: Field, value: int, min: int)
    requires StepsPositive(f)
    ensures Matches(f, value, min) <==> Allows(f, value, min)
  {
    if f.Parts? {
      forall i | 0 <= i < |f.parts| ensures PartMatches(f.parts[i], value, min) <==> IsValueOf(f.parts[i], value, min) {
        PartAdmitsItsValues(f.parts[i], value, min);
      }
    }
  }

  /** Months and days of the month count from 1, hours, minutes and weekdays from 0. A day is right when
      its number or its weekday is, if both are given; when one is given, that one decides, and when
      neither is, every day is right. */
  lemma MatchMeans(e: Expr, t: DateTime)
    requires WellFormed(e) && Valid(t)
    ensures Match(e, t) <==>
            && Allows(e.month, t.month, 1) && Allows(e.hour, t.hour, 0) && Allows(e.minute, t.minute, 0)
            && (if e.dayOfWeek.Parts? && e.dayOfMonth.Parts?
                then Allows(e.dayOfMonth, t.day, 1) || Allows(e.dayOfWeek, CronDay(t), 0)
                else (e.dayOfMonth.Parts? ==> Allows(e.dayOfMonth, t.day, 1))
                     && (e.dayOfWeek.Parts? ==> Allows(e.dayOfWeek, CronDay(t), 0)))
  {
    FieldAllows(e.month, t.month, 1);
    FieldAllows(e.hour, t.hour, 0);
    FieldAllows(e.minute, t.minute, 0);
    FieldAllows(e.dayOfMonth, t.day, 1);
    FieldAllows(e.dayOfWeek, CronDay(t), 0);
  }

  /** Cron days are anchored: the first Mondays of year 1 and of 2024 have cron day 1. */
  lemma MondayIsOne(t: DateTime)
    requires t.year in {1, 2024} && t.month == t.day == 1
    ensures CronDay(t) == 1
  {
    KnownMondays(t);
  }

  /** The day after has the next cron day, and after Saturday, 6, comes Sunday, 0. */
  lemma CronDaysFollow(t: DateTime)
    requires Valid(t) && PlusDay(t).Some?
    ensures 0 <= CronDay(t) <= 6
    ensures CronDay(PlusDay(t).value) == if CronDay(t) == 6 then 0 else CronDay(t) + 1
    ensures CronDay(t) == 0 <==> Weekday(t) == 6
  {
    WeekdaysFollow(t);
  }

  // ---------------------------------------------------------------- which expressions ever match

  predicate Admits(f: Field, min: int, max: int)
    requires StepsPositive(f)
  {
    exists v :: min <= v <= max && Matches(f, v, min)
  }

  function LongestMonth(month: int): int { DaysInMonth(2000, month) }

  predicate DayPossible(e: Expr, month: int)
    requires WellFormed(e)
  {
    || (!DomRestricted(e) && !DowRestricted(e))
    || (DomRestricted(e) && Admits(e.dayOfMonth, 1, LongestMonth(month)))
    || (DowRestricted(e) && Admits(e.dayOfWeek, 0, 6))
  }

  /** Some allowed month has an allowed day, and minute and hour admit a value in range. */
  ghost predicate Satisfiable(e: Expr)
    requires WellFormed(e)
  {
    && Admits(e.minute, 0, 59) && Admits(e.hour, 0, 23)
    && exists m :: 1 <= m <= 12 && Matches(e.month, m, 1) && DayPossible(e, m)
  }

  lemma MatchMakesSatisfiable(e: Expr, t: DateTime)
    requires WellFormed(e) && Valid(t) && Match(e, t)
    ensures Satisfiable(e)
  {
    assert DaysInMonth(t.year, t.month) <= LongestMonth(t.month);
    assert 0 <= CronDay(t) <= 6;
    assert Matches(e.minute, t.minute, 0) && Matches(e.hour, t.hour, 0);
    assert DayPossible(e, t.month);
  }

  function EightYearsAfter(t: DateTime): DateTime { t.(year := t.year + 8) }

  /** A satisfiable expression matches within eight years: 29 February may have to wait that long, at a
      century that is not a leap year. */
  lemma MatchWithinEightYears(e: Expr, start: DateTime) returns (t: DateTime)
    requires WellFormed(e) && Satisfiable(e) && Valid(start) && start.year + 8 <= MAX_YEAR
    ensures Valid(t) && Match(e, t) && !Less(t, start) && Less(t, EightYearsAfter(start))
  {
    var mi :| 0 <= mi <= 59 && Matches(e.minute, mi, 0);
    var h :| 0 <= h <= 23 && Matches(e.hour, h, 0);
    var m :| 1 <= m <= 12 && Matches(e.month, m, 1) && DayPossible(e, m);
    if DomRestricted(e) && Admits(e.dayOfMonth, 1, LongestMonth(m)) {
      var d :| 1 <= d <= LongestMonth(m) && Matches(e.dayOfMonth, d, 1);
      t := DateWithinEightYears(start, m, d, h, mi);
    } else if DowRestricted(e) && Admits(e.dayOfWeek, 0, 6) {
      var w :| 0 <= w <= 6 && Matches(e.dayOfWeek, w, 0);
      var d := WeekdayInFirstWeek(start.year + 1, m, w);
      t := DateTime(start.year + 1, m, d, h, mi);
      assert Weekday(t) == Weekday(DateTime(start.year + 1, m, d, 0, 0));
    } else {
      t := DateTime(start.year + 1, m, 1, h, mi);
    }
  }

  lemma DateWithinEightYears(start: DateTime, m: int, d: int, h: int, mi: int) returns (t: DateTime)
    requires Valid(start) && start.year + 8 <= MAX_YEAR
    requires 1 <= m <= 12 && 1 <= d <= LongestMonth(m) && 0 <= h <= 23 && 0 <= mi <= 59
    ensures Valid(t) && t == DateTime(t.year, m, d, h, mi) && !Less(t, start) && Less(t, EightYearsAfter(start))
  {
    var first := if Less(DateTime(start.year, m, d, h, mi), start) then start.year + 1 else start.year;
    var k := LeapWithinEight(first);
    t := DateTime(if m == 2 && d == 29 then first + k else first, m, d, h, mi);
  }

  // ---------------------------------------------------------------- the search

  const BUDGET := 366 * 5 * 24 * 60

  datatype Result = Next(at: DateTime) | NoMatch | OutOfRange

  /** No time from start up to, not including, dt matches. */
  ghost predicate Searched(e: Expr, start: DateTime, dt: DateTime)
    requires WellFormed(e)
  {
    && Valid(start) && Valid(dt) && !Less(dt, start)
    && forall t :: Valid(t) && !Less(t, start) && Less(t, dt) ==> !Match(e, t)
  }

  /** No time from start on matches. */
  ghost predicate Exhausted(e: Expr, start: DateTime)
    requires WellFormed(e)
  {
    forall t :: Valid(t) && !Less(t, start) ==> !Match(e, t)
  }

  /** dt.replace to the first minute of the next month; None is the ValueError past the last year. */
  function NextMonth(dt: DateTime): Option<DateTime> {
    if dt.month == 12 then (if dt.year < MAX_YEAR then Some(DateTime(dt.year + 1, 1, 1, 0, 0)) else None)
    else Some(DateTime(dt.year, dt.month + 1, 1, 0, 0))
  }

  function NextDay(dt: DateTime): Option<DateTime> {
    var d := PlusDay(dt); if d.None? then None else Some(Midnight(d.value))
  }

  function NextHour(dt: DateTime): Option<DateTime> {
    var h := PlusHour(dt); if h.None? then None else Some(h.value.(minute := 0))
  }

  lemma MonthSkipMissesNothing(e: Expr, start: DateTime, dt: DateTime)
    requires WellFormed(e) && Searched(e, start, dt) && !MonthOk(e, dt)
    ensures if NextMonth(dt).Some? then Searched(e, start, NextMonth(dt).value) else Exhausted(e, start)
  {
    if NextMonth(dt).None? {
      forall t | Valid(t) && !Less(t, start) ensures !Match(e, t) { if !Less(t, dt) { assert t.month == dt.month; } }
    }
    if NextMonth(dt).Some? {
      forall t | Valid(t) && !Less(t, start) && Less(t, NextMonth(dt).value) ensures !Match(e, t) {
        if !Less(t, dt) { assert t.month == dt.month; }
      }
    }
  }

  lemma DayOkSameDay(e: Expr, a: DateTime, b: DateTime)
    requires WellFormed(e) && Valid(a) && Valid(b) && SameDay(a, b)
    ensures DayOk(e, a) == DayOk(e, b)
  {
    assert Ordinal(a) == Ordinal(b);
  }

  lemma DaySkipMissesNothing(e: Expr, start: DateTime, dt: DateTime)
    requires WellFormed(e) && Searched(e, start, dt) && !DayOk(e, dt)
    ensures if NextDay(dt).Some? then Searched(e, start, NextDay(dt).value) else Exhausted(e, start)
  {
    if NextDay(dt).None? {
      forall t | Valid(t) && !Less(t, start) ensures !Match(e, t) {
        if !Less(t, dt) { assert SameDay(t, dt); DayOkSameDay(e, t, dt); }
      }
    }
    if NextDay(dt).Some? {
      DayLength(dt);
      forall t | Valid(t) && !Less(t, start) && Less(t, NextDay(dt).value) ensures !Match(e, t) {
        if !Less(t, dt) { assert SameDay(t, dt); DayOkSameDay(e, t, dt); }
      }
    }
  }

  lemma HourSkipMissesNothing(e: Expr, start: DateTime, dt: DateTime)
    requires WellFormed(e) && Searched(e, start, dt) && !HourOk(e, dt)
    ensures if NextHour(dt).Some? then Searched(e, start, NextHour(dt).value) else Exhausted(e, start)
  {
    if NextHour(dt).None? {
      forall t | Valid(t) && !Less(t, start) ensures !Match(e, t) { if !Less(t, dt) { assert t.hour == dt.hour; } }
    }
    if NextHour(dt).Some? {
      StepLengths(dt);
      DayLength(dt);
      forall t | Valid(t) && !Less(t, start) && Less(t, NextHour(dt).value) ensures !Match(e, t) {
        if !Less(t, dt) { assert t.hour == dt.hour; }
      }
    }
  }

  lemma MinuteSkipMissesNothing(e: Expr, start: DateTime, dt: DateTime)
    requires WellFormed(e) && Searched(e, start, dt) && !Match(e, dt)
    ensures if PlusMinute(dt).Some? then Searched(e, start, PlusMinute(dt).value) else Exhausted(e, start)
  {
    if PlusMinute(dt).None? {
      StepLengths(dt);
      forall t | Valid(t) && !Less(t, start) ensures !Match(e, t) { if !Less(t, dt) { SameMinute(t, dt); } }
    }
    if PlusMinute(dt).Some? {
      StepLengths(dt);
      forall t | Valid(t) && !Less(t, start) && Less(t, PlusMinute(dt).value) ensures !Match(e, t) {
        LessIsEarlier(t, PlusMinute(dt).value);
        if !Less(t, dt) { LessIsEarlier(t, dt); LessIsEarlier(dt, t); SameMinute(t, dt); }
      }
    }
  }

  lemma SameMinute(a: DateTime, b: DateTime)
    requires Valid(a) && Valid(b) && !Less(a, b) && !Less(b, a)
    ensures a == b
  {
  }

  // ---------------------------------------------------------------- the iteration budget

  /** Iterations done so far: on the first day at most one a minute; after that one a day, and more
      than that only on a day that is allowed, where a match must follow. */
  ghost predicate Worked(e: Expr, start: DateTime, dt: DateTime, n: int)
    requires WellFormed(e) && Valid(start) && Valid(dt)
  {
    if Ordinal(dt) == Ordinal(start) then n <= MinuteOfDay(dt) - MinuteOfDay(start)
    else
      && n <= 1440 + Ordinal(dt) - Ordinal(start) + MinuteOfDay(dt)
      && (MinuteOfDay(dt) > 0 ==> MonthOk(e, dt) && DayOk(e, dt))
  }

  lemma Monotone(start: DateTime, dt: DateTime)
    requires Valid(start) && Valid(dt) && !Less(dt, start)
    ensures AbsMinute(start) <= AbsMinute(dt) && Ordinal(start) <= Ordinal(dt)
  {
    LessIsEarlier(dt, start);
  }

  /** A month or day skip spends one iteration and gains at least a day. */
  lemma DaySkipWorks(e: Expr, start: DateTime, dt: DateTime, to: DateTime, n: int)
    requires WellFormed(e) && Valid(start) && Valid(dt) && Valid(to) && !Less(dt, start) && Worked(e, start, dt, n)
    requires Ordinal(dt) < Ordinal(to) && MinuteOfDay(to) == 0
    requires Ordinal(dt) == Ordinal(start) || MinuteOfDay(dt) == 0
    ensures Worked(e, start, to, n + 1)
  {
    Monotone(start, dt);
  }

  /** Once midnight of an allowed day has been reached, the search does not leave that day. */
  lemma AllowedDayHasMatch(e: Expr, start: DateTime, dt: DateTime, to: DateTime)
    requires WellFormed(e) && Satisfiable(e) && Searched(e, start, to) && Valid(dt) && MonthOk(e, dt) && DayOk(e, dt)
    requires Ordinal(start) < Ordinal(dt)
    ensures !EarlierDay(dt, to)
  {
    var mi :| 0 <= mi <= 59 && Matches(e.minute, mi, 0);
    var h :| 0 <= h <= 23 && Matches(e.hour, h, 0);
    var t := dt.(hour := h, minute := mi);
    DayOkSameDay(e, t, dt);
    assert Match(e, t);
    if Less(t, start) { Monotone(t, start); }
  }

  /** An hour or minute skip spends one iteration and gains at least a minute of the same day, or, on
      the first day only, reaches the next midnight. */
  lemma ClockSkipWorks(e: Expr, start: DateTime, dt: DateTime, to: DateTime, n: int)
    requires WellFormed(e) && Satisfiable(e) && Searched(e, start, to) && Valid(dt) && !Less(dt, start)
             && Worked(e, start, dt, n)
    requires MonthOk(e, dt) && DayOk(e, dt) && AbsMinute(dt) < AbsMinute(to)
    requires SameDay(dt, to) || (Ordinal(to) == Ordinal(dt) + 1 && MinuteOfDay(to) == 0)
    ensures Worked(e, start, to, n + 1)
  {
    Monotone(start, dt);
    if SameDay(dt, to) {
      DayOkSameDay(e, to, dt);
    } else if Ordinal(dt) != Ordinal(start) {
      AllowedDayHasMatch(e, start, dt, to);
      if EarlierDay(to, dt) { DaysInOrder(to, dt); }
      assert false;
    }
  }

  /** Within eight years the work done stays far below the budget. */
  lemma BudgetSuffices(e: Expr, start: DateTime, dt: DateTime, n: int, t: DateTime)
    requires WellFormed(e) && Searched(e, start, dt) && Worked(e, start, dt, n)
    requires Valid(t) && Match(e, t) && !Less(t, start) && Less(t, EightYearsAfter(start))
    ensures !Less(t, dt) && n < 7000 < BUDGET
  {
    Monotone(dt, t);
    Monotone(start, dt);
    DayWithinYear(t);
    DayWithinYear(start);
    if start.year < t.year + 1 { YearsGrow(start.year, t.year + 1); }
  }

  /** A search for a satisfiable expression is still far from its budget wherever it stands: it meets a
      match, or near the end of the calendar runs off it, before. */
  lemma BudgetNotSpent(e: Expr, start: DateTime, dt: DateTime, n: int)
    requires WellFormed(e) && Satisfiable(e) && Searched(e, start, dt) && Worked(e, start, dt, n)
    ensures n < BUDGET
  {
    if start.year + 8 <= MAX_YEAR {
      var t := MatchWithinEightYears(e, start);
      BudgetSuffices(e, start, dt, n, t);
    } else {
      DayWithinYear(dt);
      DayWithinYear(start);
      YearsGrow(start.year, dt.year + 1);
    }
  }

  lemma MonthSkipGains(dt: DateTime)
    requires Valid(dt) && NextMonth(dt).Some?
    ensures Valid(NextMonth(dt).value) && Ordinal(dt) < Ordinal(NextMonth(dt).value)
            && MinuteOfDay(NextMonth(dt).value) == 0
  {
    DaysInOrder(dt, NextMonth(dt).value);
  }

  lemma HourSkipGains(dt: DateTime)
    requires Valid(dt) && NextHour(dt).Some?
    ensures var to := NextHour(dt).value;
            && Valid(to) && AbsMinute(dt) < AbsMinute(to)
            && (SameDay(dt, to) || (Ordinal(to) == Ordinal(dt) + 1 && MinuteOfDay(to) == 0))
  {
    DayLength(dt);
  }

  lemma MinuteSkipGains(dt: DateTime)
    requires Valid(dt) && PlusMinute(dt).Some?
    ensures var to := PlusMinute(dt).value;
            && Valid(to) && AbsMinute(to) == AbsMinute(dt) + 1
            && (SameDay(dt, to) || (Ordinal(to) == Ordinal(dt) + 1 && MinuteOfDay(to) == 0))
  {
    DayLength(dt);
    StepLengths(dt);
  }

  // ---------------------------------------------------------------- cron_next

  method Search(e: Expr, start: DateTime) returns (r: Result)
    requires WellFormed(e) && Valid(start)
    ensures r.Next? ==> Searched(e, start, r.at) && Match(e, r.at)
    ensures r.OutOfRange? ==> Exhausted(e, start)
    ensures r.NoMatch? ==> !Satisfiable(e)
    ensures Satisfiable(e) && start.year + 8 <= MAX_YEAR ==> r.Next?
  {
    var dt := start;
    for n := 0 to BUDGET
      invariant Searched(e, start, dt)
      invariant Satisfiable(e) ==> Worked(e, start, dt, n)
    {
      var to;
      if !MonthOk(e, dt) {
        MonthSkipMissesNothing(e, start, dt);
        to := NextMonth(dt);
        if to.Some? { MonthSkipGains(dt); }
      } else if !DayOk(e, dt) {
        DaySkipMissesNothing(e, start, dt);
        to := NextDay(dt);
        DayLength(dt);
      } else if !HourOk(e, dt) {
        HourSkipMissesNothing(e, start, dt);
        to := NextHour(dt);
        if to.Some? { HourSkipGains(dt); }
      } else if !MinuteOk(e, dt) {
        MinuteSkipMissesNothing(e, start, dt);
        to := PlusMinute(dt);
        if to.Some? { MinuteSkipGains(dt); }
      } else {
        return Next(dt);
      }
      if to.None? {
        ExhaustedMeansUnsatisfiable(e, start);
        return OutOfRange;
      }
      if Satisfiable(e) {
        if MonthOk(e, dt) && DayOk(e, dt) { ClockSkipWorks(e, start, dt, to.value, n); }
        else { DaySkipWorks(e, start, dt, to.value, n); }
      }
      dt := to.value;
    }
    if Satisfiable(e) { BudgetNotSpent(e, start, dt, BUDGET); }
    return NoMatch;
  }

  lemma ExhaustedMeansUnsatisfiable(e: Expr, start: DateTime)
    requires WellFormed(e) && Valid(start) && Exhausted(e, start)
    ensures Satisfiable(e) ==> start.year + 8 > MAX_YEAR
  {
    if Satisfiable(e) && start.year + 8 <= MAX_YEAR { var t := MatchWithinEightYears(e, start); }
  }

  /** `after` is a UTC time cut to its minute. The result is the least matching minute strictly later,
      less than eight years away; OutOfRange says that none is left before the calendar ends, NoMatch
      that the expression never matches at all. Short of year 9999 there is a result exactly when the
      expression is satisfiable, so the budget never runs out before it. */
  method CronNext(e: Expr, after: DateTime) returns (r: Result)
    requires WellFormed(e) && Valid(after)
    ensures r.Next? ==> Valid(r.at) && Match(e, r.at) && Less(after, r.at)
    ensures r.Next? ==> forall t :: Valid(t) && Less(after, t) && Less(t, r.at) ==> !Match(e, t)
    ensures r.OutOfRange? ==> forall t :: Valid(t) && Less(after, t) ==> !Match(e, t)
    ensures r.NoMatch? ==> !Satisfiable(e)
    ensures after.year < 9991 ==> (r.Next? <==> Satisfiable(e))
    ensures after.year < 9991 && r.Next? ==> Less(r.at, EightYearsAfter(PlusMinute(after).value))
  {
    var first := PlusMinute(after);
    StepLengths(after);
    if first.None? { return OutOfRange; }
    NextIsLeast(after);
    r := Search(e, first.value);
    if r.Next? {
      MatchMakesSatisfiable(e, r.at);
      if after.year < 9991 { var t := MatchWithinEightYears(e, first.value); }
    }
  }

  // ---------------------------------------------------------------- the naive scan

  /** Look at every minute in turn, `limit` more at most. */
  function NaiveScan(e: Expr, t: DateTime, limit: nat): Option<DateTime>
    requires WellFormed(e) && Valid(t)
    decreases limit
  {
    if Match(e, t) then Some(t)
    else if limit == 0 then None
    else
      StepLengths(t);
      var u := PlusMinute(t);
      if u.None? then None else NaiveScan(e, u.value, limit - 1)
  }

  /** The skipping search and the minute-by-minute scan find the same time. */
  lemma {:induction false} ScanFindsLeast(e: Expr, start: DateTime, at: DateTime)
    requires WellFormed(e) && Searched(e, start, at) && Match(e, at)
    ensures AbsMinute(start) <= AbsMinute(at) && NaiveScan(e, start, AbsMinute(at) - AbsMinute(start)) == Some(at)
    decreases AbsMinute(at) - AbsMinute(start)
  {
    Monotone(start, at);
    if start == at {
    } else {
      NextStart(e, start, at);
      ScanFindsLeast(e, PlusMinute(start).value, at);
    }
  }

  /** A search that did not end where it began goes on from the next minute. */
  lemma NextStart(e: Expr, start: DateTime, at: DateTime)
    requires WellFormed(e) && Searched(e, start, at) && start != at
    ensures PlusMinute(start).Some? && Searched(e, PlusMinute(start).value, at) && !Match(e, start)
    ensures AbsMinute(PlusMinute(start).value) == AbsMinute(start) + 1
  {
    StartBefore(start, at);
    StepLengths(start);
    LaterMinuteExists(start, at);
    NextIsLeast(start);
    LaterStart(e, start, PlusMinute(start).value, at);
  }

  lemma StartBefore(start: DateTime, at: DateTime)
    requires Valid(start) && Valid(at) && !Less(at, start) && start != at
    ensures Less(start, at)
  {
  }

  lemma LaterStart(e: Expr, start: DateTime, u: DateTime, at: DateTime)
    requires WellFormed(e) && Searched(e, start, at) && Valid(u) && Less(start, u) && !Less(at, u)
    ensures Searched(e, u, at)
  {
  }

  lemma LaterMinuteExists(after: DateTime, t: DateTime)
    requires Valid(after) && Valid(t) && Less(after, t)
    ensures PlusMinute(after).Some?
  {
    StepLengths(after);
  }

  /** A scan of minutes that do not match finds nothing. */
  lemma {:induction false} ScanFindsNothing(e: Expr, t: DateTime, limit: nat)
    requires WellFormed(e) && Valid(t) && forall u :: Valid(u) && !Less(u, t) ==> !Match(e, u)
    ensures NaiveScan(e, t, limit) == None
    decreases limit
  {
    if limit > 0 && PlusMinute(t).Some? {
      StepLengths(t);
      NextIsLeast(t);
      var next := PlusMinute(t).value;
      forall u | Valid(u) && !Less(u, next) ensures !Match(e, u) { LaterStill(t, next, u); }
      ScanFindsNothing(e, next, limit - 1);
    }
  }

  lemma LaterStill(t: DateTime, next: DateTime, u: DateTime)
    requires Valid(t) && Valid(next) && Valid(u) && Less(t, next) && !Less(u, next)
    ensures !Less(u, t)
  {
  }

  /** The search finds what the minute-by-minute scan finds, and gives up only where the scan would
      find nothing however long it went on. */
  method AgreesWithNaiveScan(e: Expr, after: DateTime) returns (r: Result)
    requires WellFormed(e) && Valid(after)
    ensures r.Next? ==>
              var first := PlusMinute(after);
              && Valid(r.at) && first.Some? && Valid(first.value) && AbsMinute(first.value) <= AbsMinute(r.at)
              && NaiveScan(e, first.value, AbsMinute(r.at) - AbsMinute(first.value)) == Some(r.at)
    ensures !r.Next? && PlusMinute(after).Some? ==>
              && Valid(PlusMinute(after).value)
              && forall limit: nat :: NaiveScan(e, PlusMinute(after).value, limit) == None
  {
    r := CronNext(e, after);
    StepLengths(after);
    if r.Next? {
      LaterMinuteExists(after, r.at);
      NextIsLeast(after);
      assert Searched(e, PlusMinute(after).value, r.at);
      ScanFindsLeast(e, PlusMinute(after).value, r.at);
    } else if PlusMinute(after).Some? {
      NextIsLeast(after);
      GaveUpRightly(e, after, PlusMinute(after).value, r);
    }
  }

  lemma GaveUpRightly(e: Expr, after: DateTime, first: DateTime, r: Result)
    requires WellFormed(e) && Valid(after) && Valid(first) && Less(after, first) && !r.Next?
    requires r.NoMatch? ==> !Satisfiable(e)
    requires r.OutOfRange? ==> forall t :: Valid(t) && Less(after, t) ==> !Match(e, t)
    ensures forall limit: nat :: NaiveScan(e, first, limit) == None
  {
    forall u | Valid(u) && !Less(u, first) ensures !Match(e, u) { NoneLater(e, after, first, u, r); }
    forall limit: nat ensures NaiveScan(e, first, limit) == None { ScanFindsNothing(e, first, limit); }
  }

  lemma NoneLater(e: Expr, after: DateTime, first: DateTime, u: DateTime, r: Result)
    requires WellFormed(e) && Valid(after) && Valid(first) && Valid(u) && Less(after, first) && !Less(u, first)
    requires r.NoMatch? ==> !Satisfiable(e)
    requires r.OutOfRange? ==> forall t :: Valid(t) && Less(after, t) ==> !Match(e, t)
    requires !r.Next?
    ensures !Match(e, u)
  {
    if Match(e, u) {
      MatchMakesSatisfiable(e, u);
      assert false;
    }
  }

  /** Nothing lies between a minute and the next. */
  lemma NextIsLeast(after: DateTime)
    requires Valid(after) && PlusMinute(after).Some?
    ensures Valid(PlusMinute(after).value) && Less(after, PlusMinute(after).value)
    ensures forall t :: Valid(t) && Less(after, t) ==> !Less(t, PlusMinute(after).value)
    ensures PlusMinute(after).value.year <= after.year + 1
  {
    StepLengths(after);
    var u := PlusMinute(after).value;
    LessIsEarlier(after, u);
    forall t | Valid(t) && Less(after, t) ensures !Less(t, u) {
      LessIsEarlier(after, t);
      LessIsEarlier(t, u);
    }
  }
}

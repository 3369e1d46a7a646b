/** Interval schedules: so many days, hours, minutes or seconds, which the program turns into seconds. */
module Intervals {
  import opened Cursors
  import opened Calendar
  import opened IsoTime

  datatype Unit = Days | Hours | Minutes | Seconds

  /** parse_interval_seconds of an interval such as "30m" or "6h". */
  function IntervalSeconds(n: int, u: Unit): int {
    match u case Days => n * 86400 case Hours => n * 3600 case Minutes => n * 60 case Seconds => n
  }

  function Retimed(s: Stamp, at: Option<DateTime>): Option<Stamp> {
    if at.None? then None else Some(s.(at := at.value))
  }

  /** The same time of the next day, or the next hour, minute or second. */
  function Forward(s: Stamp, u: Unit): Option<Stamp> {
    match u
    case Days => Retimed(s, PlusDay(s.at))
    case Hours => Retimed(s, PlusHour(s.at))
    case Minutes => Retimed(s, PlusMinute(s.at))
    case Seconds => PlusSecond(s)
  }

  function Back(s: Stamp, u: Unit): Option<Stamp> {
    match u
    case Days => Retimed(s, MinusDay(s.at))
    case Hours => Retimed(s, MinusHour(s.at))
    case Minutes => Retimed(s, MinusMinute(s.at))
    case Seconds => MinusSecond(s)
  }

  /** n units on, one after the other, or back when n is negative; None once the calendar ends. */
  function Steps(s: Stamp, n: int, u: Unit): Option<Stamp>
    decreases if n < 0 then -n else n
  {
    if n == 0 then Some(s)
    else
      var t := if n > 0 then Forward(s, u) else Back(s, u);
      if t.None? then None else Steps(t.value, if n > 0 then n - 1 else n + 1, u)
  }

  // ---------------------------------------------------------------- how long a unit is

  lemma ForwardLength(s: Stamp, u: Unit)
    requires ValidStamp(s) && Forward(s, u).Some?
    ensures ValidStamp(Forward(s, u).value)
    ensures AbsMicro(Forward(s, u).value) == AbsMicro(s) + IntervalSeconds(1, u) * 1_000_000
  {
    match u {
      case Days => DayLength(s.at);
      case Hours => StepLengths(s.at);
      case Minutes => StepLengths(s.at);
      case Seconds => SecondOn(s);
    }
  }

  lemma BackLength(s: Stamp, u: Unit)
    requires ValidStamp(s) && Back(s, u).Some?
    ensures ValidStamp(Back(s, u).value)
    ensures AbsMicro(Back(s, u).value) == AbsMicro(s) - IntervalSeconds(1, u) * 1_000_000
  {
    match u {
      case Days => DayBack(s.at);
      case Hours => HourBack(s.at);
      case Minutes => MinuteBack(s.at);
      case Seconds => SecondBack(s);
    }
  }

  /** Where a unit does not fit, the rest of the calendar is shorter than the unit. */
  lemma NothingForward(s: Stamp, u: Unit, v: Stamp)
    requires ValidStamp(s) && ValidStamp(v) && Forward(s, u).None?
    ensures AbsMicro(v) < AbsMicro(s) + IntervalSeconds(1, u) * 1_000_000
  {
    var last := DateTime(MAX_YEAR, 12, 31, 23, 59);
    StepLengths(last);
    LastMinute(last, v.at);
    if u == Seconds { NothingAfterLast(s, v); }
    else if u == Days { DayLength(s.at); SameOrdinal(s.at, last); }
    else { StepLengths(s.at); SameOrdinal(s.at, last); }
  }

  lemma NothingBack(s: Stamp, u: Unit, v: Stamp)
    requires ValidStamp(s) && ValidStamp(v) && Back(s, u).None?
    ensures AbsMicro(s) - IntervalSeconds(1, u) * 1_000_000 < AbsMicro(v)
  {
    if u == Seconds { NothingBeforeFirst(s, v); } else { UnitFromFirst(s, u); FirstIsFirst(v); }
  }

  const FIRST := DateTime(1, 1, 1, 0, 0)

  lemma FirstIsFirst(v: Stamp)
    requires ValidStamp(v)
    ensures AbsMinute(FIRST) <= AbsMinute(v.at)
  {
    assert !Less(v.at, FIRST);
    LessIsEarlier(v.at, FIRST);
  }

  lemma UnitFromFirst(s: Stamp, u: Unit)
    requires ValidStamp(s) && u != Seconds && Back(s, u).None?
    ensures AbsMinute(s.at) * 60 - IntervalSeconds(1, u) < AbsMinute(FIRST) * 60 - 59
  {
    match u {
      case Days => DayBack(s.at);
      case Hours => HourBack(s.at);
      case Minutes => MinuteBack(s.at);
    }
    SameOrdinal(s.at, FIRST);
  }

  lemma SameOrdinal(a: DateTime, b: DateTime)
    requires 1 <= a.month <= 12 && SameDay(a, b)
    ensures Ordinal(a) == Ordinal(b)
  {
  }

  // ---------------------------------------------------------------- seconds and units agree

  lemma OneUnitLess(n: int, u: Unit)
    ensures IntervalSeconds(n - 1, u) == IntervalSeconds(n, u) - IntervalSeconds(1, u)
    ensures IntervalSeconds(n + 1, u) == IntervalSeconds(n, u) + IntervalSeconds(1, u)
    ensures n >= 1 ==> IntervalSeconds(n, u) >= IntervalSeconds(1, u) > 0
    ensures n <= -1 ==> IntervalSeconds(n, u) <= -IntervalSeconds(1, u) < 0
  {
  }

  lemma {:induction false} StepsLength(s: Stamp, n: int, u: Unit)
    requires ValidStamp(s)
    ensures var t, to := Steps(s, n, u), AbsMicro(s) + IntervalSeconds(n, u) * 1_000_000;
            && (t.Some? ==> ValidStamp(t.value) && AbsMicro(t.value) == to)
            && (t.Some? <==> InCalendar(to))
    decreases if n < 0 then -n else n
  {
    OneUnitLess(n, u);
    if n > 0 {
      if Forward(s, u).Some? { ForwardLength(s, u); StepsLength(Forward(s, u).value, n - 1, u); }
      else { OutAbove(s, n, u); }
    } else if n < 0 {
      if Back(s, u).Some? { BackLength(s, u); StepsLength(Back(s, u).value, n + 1, u); }
      else { OutBelow(s, n, u); }
    }
  }

  lemma OutAbove(s: Stamp, n: int, u: Unit)
    requires ValidStamp(s) && Forward(s, u).None? && n > 0
    ensures !InCalendar(AbsMicro(s) + IntervalSeconds(n, u) * 1_000_000)
  {
    OneUnitLess(n, u);
    forall v | ValidStamp(v) ensures AbsMicro(v) != AbsMicro(s) + IntervalSeconds(n, u) * 1_000_000 {
      NothingForward(s, u, v);
    }
  }

  lemma OutBelow(s: Stamp, n: int, u: Unit)
    requires ValidStamp(s) && Back(s, u).None? && n < 0
    ensures !InCalendar(AbsMicro(s) + IntervalSeconds(n, u) * 1_000_000)
  {
    OneUnitLess(n, u);
    forall v | ValidStamp(v) ensures AbsMicro(v) != AbsMicro(s) + IntervalSeconds(n, u) * 1_000_000 {
      NothingBack(s, u, v);
    }
  }

  lemma SameInstant(a: Stamp, b: Stamp)
    requires ValidStamp(a) && ValidStamp(b) && AbsMicro(a) == AbsMicro(b)
    ensures a == b
  {
    LessIsEarlier(a.at, b.at);
    LessIsEarlier(b.at, a.at);
  }

  /** Adding an interval in seconds is going on by so many days, hours, minutes or seconds of the calendar,
      one after the other: the result is the same, and one leaves the calendar exactly when the other does. */
  lemma IntervalIsSteps(now: Stamp, n: int, u: Unit)
    requires ValidStamp(now)
    ensures PlusSeconds(now, IntervalSeconds(n, u)) == Steps(now, n, u)
  {
    PlusSecondsLength(now, IntervalSeconds(n, u));
    StepsLength(now, n, u);
    var a, b := PlusSeconds(now, IntervalSeconds(n, u)), Steps(now, n, u);
    if a.Some? { SameInstant(a.value, b.value); }
  }
}

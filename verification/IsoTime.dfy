/** UTC times as the store keeps them: isoformat() strings, compared as strings. */
module IsoTime {
  import opened Cursors
  import opened Calendar
  import opened Text

  datatype Stamp = Stamp(at: DateTime, second: int, micro: int)

  predicate ValidStamp(s: Stamp) { Valid(s.at) && 0 <= s.second <= 59 && 0 <= s.micro <= 999_999 }

  function AbsMicro(s: Stamp): int
    requires 1 <= s.at.month <= 13
  {
    (AbsMinute(s.at) * 60 + s.second) * 1_000_000 + s.micro
  }

  /** n in exactly `width` digits. */
  function Pad(n: nat, width: nat): (s: string)
    ensures |s| == width
  {
    if width == 0 then "" else Pad(n / 10, width - 1) + ['0' + (n % 10) as char]
  }

  function Pow10(k: nat): nat { if k == 0 then 1 else 10 * Pow10(k - 1) }

  function Tail(micro: nat): string { if micro == 0 then "+00:00" else "." + (Pad(micro, 6) + "+00:00") }

  /** isoformat(): the microsecond part is left out when it is zero. */
  function Iso(s: Stamp): string
    requires ValidStamp(s)
  {
    Pad(s.at.year, 4) + ("-" + (Pad(s.at.month, 2) + ("-" + (Pad(s.at.day, 2) + ("T" + (Pad(s.at.hour, 2)
    + (":" + (Pad(s.at.minute, 2) + (":" + (Pad(s.second, 2) + Tail(s.micro)))))))))))
  }

  /** Strings of one length decide a comparison before what follows them. */
  lemma {:induction false} LexPrefix(a: string, b: string, x: string, y: string)
    requires |a| == |b|
    ensures LexLe(a + x, b + y) <==> (if a == b then LexLe(x, y) else LexLe(a, b))
  {
    if a == "" {
      assert a + x == x && b + y == y;
    } else {
      assert (a + x)[1..] == a[1..] + x && (b + y)[1..] == b[1..] + y;
      if a[0] == b[0] {
        LexPrefix(a[1..], b[1..], x, y);
        assert a == b <==> a[1..] == b[1..] by { assert a == [a[0]] + a[1..] && b == [b[0]] + b[1..]; }
      }
    }
  }

  /** Digits of one width compare as the numbers they print. */
  lemma {:induction false} PadOrder(m: nat, n: nat, width: nat)
    requires m < Pow10(width) && n < Pow10(width)
    ensures LexLe(Pad(m, width), Pad(n, width)) <==> m <= n
    ensures Pad(m, width) == Pad(n, width) <==> m == n
  {
    if width > 0 {
      PadOrder(m / 10, n / 10, width - 1);
      var p, q := Pad(m / 10, width - 1), Pad(n / 10, width - 1);
      var d, e := ['0' + (m % 10) as char], ['0' + (n % 10) as char];
      LexPrefix(p, q, d, e);
      assert (p + d)[..width - 1] == p && (q + e)[..width - 1] == q;
      assert (p + d)[width - 1] == d[0] && (q + e)[width - 1] == e[0];
    }
  }

  /** A printed field decides, and when it is equal the rest does. */
  lemma FieldOrder(m: nat, n: nat, width: nat, x: string, y: string)
    requires m < Pow10(width) && n < Pow10(width)
    ensures LexLe(Pad(m, width) + x, Pad(n, width) + y) <==> m < n || (m == n && LexLe(x, y))
  {
    PadOrder(m, n, width);
    LexPrefix(Pad(m, width), Pad(n, width), x, y);
  }

  lemma SameSeparator(c: char, x: string, y: string)
    ensures LexLe([c] + x, [c] + y) <==> LexLe(x, y)
  {
    assert ([c] + x)[1..] == x && ([c] + y)[1..] == y;
  }

  /** "+" sorts before ".", so a whole second sorts before its fractions. */
  lemma TailOrder(m: nat, n: nat)
    requires m <= 999_999 && n <= 999_999
    ensures LexLe(Tail(m), Tail(n)) <==> m <= n
  {
    assert Pow10(6) == 1_000_000;
    if m > 0 && n > 0 {
      SameSeparator('.', Pad(m, 6) + "+00:00", Pad(n, 6) + "+00:00");
      FieldOrder(m, n, 6, "+00:00", "+00:00");
      LexReflexive("+00:00");
    } else if m == 0 && n == 0 {
      LexReflexive("+00:00");
    } else {
      assert Tail(0)[0] == '+' && '+' < '.';
    }
  }

  function SecondPart(s: Stamp): string requires ValidStamp(s) { Pad(s.second, 2) + Tail(s.micro) }

  function MinutePart(s: Stamp): string requires ValidStamp(s) { Pad(s.at.minute, 2) + (":" + SecondPart(s)) }

  function HourPart(s: Stamp): string requires ValidStamp(s) { Pad(s.at.hour, 2) + (":" + MinutePart(s)) }

  function DayPart(s: Stamp): string requires ValidStamp(s) { Pad(s.at.day, 2) + ("T" + HourPart(s)) }

  function MonthPart(s: Stamp): string requires ValidStamp(s) { Pad(s.at.month, 2) + ("-" + DayPart(s)) }

  lemma ClockOrder(a: Stamp, b: Stamp)
    requires ValidStamp(a) && ValidStamp(b)
    ensures LexLe(HourPart(a), HourPart(b)) <==>
            a.at.hour < b.at.hour || (a.at.hour == b.at.hour
                && (a.at.minute < b.at.minute || (a.at.minute == b.at.minute
              && (a.second < b.second || (a.second == b.second && a.micro <= b.micro)))))
  {
    assert Pow10(2) == 100;
    TailOrder(a.micro, b.micro);
    FieldOrder(a.second, b.second, 2, Tail(a.micro), Tail(b.micro));
    SameSeparator(':', SecondPart(a), SecondPart(b));
    FieldOrder(a.at.minute, b.at.minute, 2, ":" + SecondPart(a), ":" + SecondPart(b));
    SameSeparator(':', MinutePart(a), MinutePart(b));
    FieldOrder(a.at.hour, b.at.hour, 2, ":" + MinutePart(a), ":" + MinutePart(b));
  }

  predicate Later(a: Stamp, b: Stamp) {
    Less(b.at, a.at) || (a.at == b.at && (b.second < a.second || (b.second == a.second && b.micro < a.micro)))
  }

  lemma FieldsInOrder(a: Stamp, b: Stamp)
    requires ValidStamp(a) && ValidStamp(b)
    ensures LexLe(Iso(a), Iso(b)) <==> !Later(a, b)
  {
    assert Pow10(2) == 100 && Pow10(4) == 10_000;
    ClockOrder(a, b);
    SameSeparator('T', HourPart(a), HourPart(b));
    FieldOrder(a.at.day, b.at.day, 2, "T" + HourPart(a), "T" + HourPart(b));
    SameSeparator('-', DayPart(a), DayPart(b));
    FieldOrder(a.at.month, b.at.month, 2, "-" + DayPart(a), "-" + DayPart(b));
    SameSeparator('-', MonthPart(a), MonthPart(b));
    FieldOrder(a.at.year, b.at.year, 4, "-" + MonthPart(a), "-" + MonthPart(b));
    assert Iso(a) == Pad(a.at.year, 4) + ("-" + MonthPart(a)) && Iso(b) == Pad(b.at.year, 4) + ("-" + MonthPart(b));
  }

  /** Comparing the stored strings is comparing the instants, with or without microseconds. */
  lemma StringOrderIsTimeOrder(a: Stamp, b: Stamp)
    requires ValidStamp(a) && ValidStamp(b)
    ensures LexLe(Iso(a), Iso(b)) <==> AbsMicro(a) <= AbsMicro(b)
  {
    FieldsInOrder(a, b);
    LessIsEarlier(a.at, b.at);
    LessIsEarlier(b.at, a.at);
    if !Less(a.at, b.at) && !Less(b.at, a.at) { assert a.at == b.at; }
  }

  // ---------------------------------------------------------------- what the strings say

  predicate Digits(s: string) { forall i :: 0 <= i < |s| ==> IsDigit(s[i]) }

  /** A padded number reads as itself. */
  lemma {:induction false} PadReads(n: nat, width: nat)
    requires n < Pow10(width)
    ensures Digits(Pad(n, width)) && Value(Pad(n, width)) == n
  {
    if width > 0 {
      PadReads(n / 10, width - 1);
      assert Pad(n, width)[..width - 1] == Pad(n / 10, width - 1);
    }
  }

  /** Digits alone stand at these positions, and they read n. */
  predicate Reads(s: string, lo: nat, hi: nat, n: int) {
    lo <= hi <= |s| && Digits(s[lo..hi]) && Value(s[lo..hi]) == n
  }

  lemma Cut(n: nat, width: nat, rest: string)
    requires n < Pow10(width)
    ensures var t := Pad(n, width) + rest;
            Reads(t, 0, width, n) && t[width..] == rest && |t| == width + |rest|
  {
    PadReads(n, width);
    assert (Pad(n, width) + rest)[0..width] == Pad(n, width);
  }

  /** A field printed after a separator. */
  lemma CutAfter(t: string, k: nat, c: char, n: nat, width: nat, rest: string)
    requires n < Pow10(width) && k <= |t| && t[k..] == [c] + (Pad(n, width) + rest)
    ensures k < |t| && t[k] == c && |t| == k + 1 + width + |rest|
    ensures Reads(t, k + 1, k + 1 + width, n) && t[k + 1 + width..] == rest
  {
    Cut(n, width, rest);
    var u := Pad(n, width) + rest;
    assert t[k] == t[k..][0] && t[k + 1..] == t[k..][1..] == u;
    assert t[k + 1..k + 1 + width] == u[0..width] && t[k + 1 + width..] == u[width..];
  }

  /** Three fields of a date or a time, and what follows them. */
  lemma FieldsRead(t: string, x: nat, width: nat, c: char, y: nat, z: nat, rest: string)
    requires x < Pow10(width) && y < 100 && z < 100
    requires t == Pad(x, width) + ([c] + (Pad(y, 2) + ([c] + (Pad(z, 2) + rest))))
    ensures |t| == width + 6 + |rest| && t[width + 6..] == rest
    ensures Reads(t, 0, width, x) && t[width] == c && Reads(t, width + 1, width + 3, y)
    ensures t[width + 3] == c && Reads(t, width + 4, width + 6, z)
  {
    assert Pow10(2) == 100;
    var second := [c] + (Pad(z, 2) + rest);
    Cut(x, width, [c] + (Pad(y, 2) + second));
    CutAfter(t, width, c, y, 2, second);
    CutAfter(t, width + 3, c, z, 2, rest);
  }

  lemma ClockReads(s: Stamp)
    requires ValidStamp(s)
    ensures var t := HourPart(s);
            && |t| == (if s.micro == 0 then 14 else 21)
            && Reads(t, 0, 2, s.at.hour) && t[2] == ':' && Reads(t, 3, 5, s.at.minute) && t[5] == ':'
            && Reads(t, 6, 8, s.second) && t[8..] == Tail(s.micro)
  {
    assert Pow10(2) == 100;
    FieldsRead(HourPart(s), s.at.hour, 2, ':', s.at.minute, s.second, Tail(s.micro));
  }

  lemma DateReads(s: Stamp)
    requires ValidStamp(s)
    ensures var t := Iso(s);
            && |t| == 11 + |HourPart(s)| && t[11..] == HourPart(s)
            && Reads(t, 0, 4, s.at.year) && t[4] == '-' && Reads(t, 5, 7, s.at.month) && t[7] == '-'
            && Reads(t, 8, 10, s.at.day) && t[10] == 'T'
  {
    assert Pow10(4) == 10_000;
    var rest := "T" + HourPart(s);
    FieldsRead(Iso(s), s.at.year, 4, '-', s.at.month, s.at.day, rest);
    assert Iso(s)[11..] == Iso(s)[10..][1..] == rest[1..];
    assert Iso(s)[10] == Iso(s)[10..][0];
  }

  lemma MicrosRead(micro: nat)
    requires 0 < micro <= 999_999
    ensures var t := Tail(micro);
            |t| == 13 && t[0] == '.' && Reads(t, 1, 7, micro) && t[7..] == "+00:00"
  {
    assert Pow10(6) == 1_000_000;
    PadReads(micro, 6);
    assert Tail(micro)[1..7] == Pad(micro, 6);
  }

  /** The string reads YYYY-MM-DDTHH:MM:SS+00:00, with a point and six digits after the seconds when the
      microseconds are not zero, and each field reads as the number it prints. */
  lemma IsoReads(s: Stamp)
    requires ValidStamp(s)
    ensures var t := Iso(s);
            && |t| == (if s.micro == 0 then 25 else 32)
            && Reads(t, 0, 4, s.at.year) && t[4] == '-' && Reads(t, 5, 7, s.at.month) && t[7] == '-'
            && Reads(t, 8, 10, s.at.day) && t[10] == 'T' && Reads(t, 11, 13, s.at.hour) && t[13] == ':'
            && Reads(t, 14, 16, s.at.minute) && t[16] == ':' && Reads(t, 17, 19, s.second)
            && (s.micro == 0 ==> t[19..] == "+00:00")
            && (s.micro != 0 ==> t[19] == '.' && Reads(t, 20, 26, s.micro) && t[26..] == "+00:00")
  {
    DateReads(s);
    ClockReads(s);
    var t, c := Iso(s), HourPart(s);
    assert t[11..13] == c[0..2] && t[14..16] == c[3..5] && t[17..19] == c[6..8] && t[19..] == c[8..];
    if s.micro != 0 {
      MicrosRead(s.micro);
      assert t[20..26] == Tail(s.micro)[1..7] && t[26..] == Tail(s.micro)[7..];
    }
  }

  // ---------------------------------------------------------------- timedelta(seconds=...)

  function PlusSecond(s: Stamp): Option<Stamp> {
    if s.second < 59 then Some(s.(second := s.second + 1))
    else var m := PlusMinute(s.at); if m.None? then None else Some(Stamp(m.value, 0, s.micro))
  }

  function MinusSecond(s: Stamp): Option<Stamp> {
    if s.second > 0 then Some(s.(second := s.second - 1))
    else var m := MinusMinute(s.at); if m.None? then None else Some(Stamp(m.value, 59, s.micro))
  }

  /** s + timedelta(seconds=n); None is the OverflowError. */
  function PlusSeconds(s: Stamp, n: int): Option<Stamp>
    decreases if n < 0 then -n else n
  {
    if n == 0 then Some(s)
    else
      var t := if n > 0 then PlusSecond(s) else MinusSecond(s);
      if t.None? then None else PlusSeconds(t.value, if n > 0 then n - 1 else n + 1)
  }

  /** Some valid stamp stands at this instant. */
  ghost predicate InCalendar(micro: int) { exists s :: ValidStamp(s) && AbsMicro(s) == micro }

  lemma LastMinute(t: DateTime, u: DateTime)
    requires Valid(t) && Valid(u) && PlusMinute(t).None?
    ensures AbsMinute(u) <= AbsMinute(t)
  {
    assert !Less(t, u);
    LessIsEarlier(t, u);
  }

  lemma FirstMinute(t: DateTime, u: DateTime)
    requires Valid(t) && Valid(u) && MinusMinute(t).None?
    ensures AbsMinute(t) <= AbsMinute(u)
  {
    assert !Less(u, t);
    LessIsEarlier(u, t);
  }

  lemma NothingAfterLast(s: Stamp, u: Stamp)
    requires ValidStamp(s) && ValidStamp(u) && PlusSecond(s).None?
    ensures AbsMicro(u) < AbsMicro(s) + 1_000_000
  {
    LastMinute(s.at, u.at);
  }

  lemma NothingBeforeFirst(s: Stamp, u: Stamp)
    requires ValidStamp(s) && ValidStamp(u) && MinusSecond(s).None?
    ensures AbsMicro(s) - 1_000_000 < AbsMicro(u)
  {
    FirstMinute(s.at, u.at);
  }

  lemma SecondOn(s: Stamp)
    requires ValidStamp(s)
    ensures PlusSecond(s).Some? ==>
              ValidStamp(PlusSecond(s).value) && AbsMicro(PlusSecond(s).value) == AbsMicro(s) + 1_000_000
  {
    if s.second == 59 { StepLengths(s.at); }
  }

  lemma SecondBack(s: Stamp)
    requires ValidStamp(s)
    ensures MinusSecond(s).Some? ==>
              ValidStamp(MinusSecond(s).value) && AbsMicro(MinusSecond(s).value) == AbsMicro(s) - 1_000_000
  {
    if s.second == 0 { MinuteBack(s.at); }
  }

  /** Adding seconds moves the instant by exactly that much, and overflows exactly when the sum lies
      outside the calendar. */
  lemma {:induction false} PlusSecondsLength(s: Stamp, n: int)
    requires ValidStamp(s)
    ensures var t := PlusSeconds(s, n);
            && (t.Some? ==> ValidStamp(t.value) && AbsMicro(t.value) == AbsMicro(s) + n * 1_000_000)
            && (t.Some? <==> InCalendar(AbsMicro(s) + n * 1_000_000))
    decreases if n < 0 then -n else n
  {
    SecondOn(s);
    SecondBack(s);
    if n > 0 {
      if PlusSecond(s).Some? { PlusSecondsLength(PlusSecond(s).value, n - 1); } else { Overflows(s, n); }
    } else if n < 0 {
      if MinusSecond(s).Some? { PlusSecondsLength(MinusSecond(s).value, n + 1); } else { Underflows(s, n); }
    }
  }

  lemma Overflows(s: Stamp, n: int)
    requires ValidStamp(s) && PlusSecond(s).None? && n > 0
    ensures !InCalendar(AbsMicro(s) + n * 1_000_000)
  {
    forall u | ValidStamp(u) ensures AbsMicro(u) != AbsMicro(s) + n * 1_000_000 { NothingAfterLast(s, u); }
  }

  lemma Underflows(s: Stamp, n: int)
    requires ValidStamp(s) && MinusSecond(s).None? && n < 0
    ensures !InCalendar(AbsMicro(s) + n * 1_000_000)
  {
    forall u | ValidStamp(u) ensures AbsMicro(u) != AbsMicro(s) + n * 1_000_000 { NothingBeforeFirst(s, u); }
  }
}

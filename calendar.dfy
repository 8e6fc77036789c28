/** The proleptic Gregorian calendar as Python's `datetime` module has it:
    years 1 to 9999, leap years, day ordinals, stepping one day forward or
    back, and the ISO text that `str()` writes for a date and a time. */
module Calendar {
  import opened Wrappers
  import opened Text

  const MinYear := 1
  const MaxYear := 9999
  const SecondsPerDay := 86400

  datatype Date = Date(year: int, month: int, day: int)

  datatype Time = Time(hour: int, minute: int, second: int)

  datatype DateTime = DateTime(date: Date, time: Time)

  predicate IsLeapYear(y: int)
  {
    y % 4 == 0 && (y % 100 != 0 || y % 400 == 0)
  }

  function DaysInMonth(y: int, m: int): (n: int)
    requires 1 <= m <= 12
    ensures 28 <= n <= 31
    ensures n == 29 <==> m == 2 && IsLeapYear(y)
  {
    if m == 2 then (if IsLeapYear(y) then 29 else 28)
    else if m == 4 || m == 6 || m == 9 || m == 11 then 30
    else 31
  }

  /** A value that Python's `date` constructor accepts. */
  predicate ValidDate(d: Date)
  {
    MinYear <= d.year <= MaxYear && 1 <= d.month <= 12 && 1 <= d.day <= DaysInMonth(d.year, d.month)
  }

  /** A value that Python's `time` constructor accepts (whole seconds). */
  predicate ValidTime(t: Time)
  {
    0 <= t.hour < 24 && 0 <= t.minute < 60 && 0 <= t.second < 60
  }

  predicate ValidDateTime(dt: DateTime)
  {
    ValidDate(dt.date) && ValidTime(dt.time)
  }

  // ---------------------------------------------------------------------
  // Day ordinals: 0001-01-01 is day 1, as in `date.toordinal()`

  function DaysBeforeYear(y: int): int
    requires y >= 1
  {
    var p := y - 1;
    p * 365 + p / 4 - p / 100 + p / 400
  }

  function DaysBeforeMonth(y: int, m: int): int
    requires 1 <= m <= 12
  {
    var common :=
      if m == 1 then 0 else if m == 2 then 31 else if m == 3 then 59
      else if m == 4 then 90 else if m == 5 then 120 else if m == 6 then 151
      else if m == 7 then 181 else if m == 8 then 212 else if m == 9 then 243
      else if m == 10 then 273 else if m == 11 then 304 else 334;
    common + (if m > 2 && IsLeapYear(y) then 1 else 0)
  }

  function Ordinal(d: Date): int
    requires d.year >= 1 && 1 <= d.month <= 12
  {
    DaysBeforeYear(d.year) + DaysBeforeMonth(d.year, d.month) + d.day
  }

  /** Seconds since 0001-01-01 00:00:00 minus one day: a count that grows by
      one with every second of the calendar. */
  function Instant(dt: DateTime): int
    requires dt.date.year >= 1 && 1 <= dt.date.month <= 12
  {
    Ordinal(dt.date) * SecondsPerDay + SecondOfDay(dt.time)
  }

  function SecondOfDay(t: Time): int
  {
    t.hour * 3600 + t.minute * 60 + t.second
  }

  /** The time of day `s` seconds after midnight. */
  function TimeOfDay(s: int): (t: Time)
    requires 0 <= s < SecondsPerDay
    ensures ValidTime(t) && SecondOfDay(t) == s
  {
    Time(s / 3600, s % 3600 / 60, s % 60)
  }

  lemma TimeOfDaySecond(t: Time)
    requires ValidTime(t)
    ensures TimeOfDay(SecondOfDay(t)) == t
  {
    var rest := t.minute * 60 + t.second;
    DivUnique(SecondOfDay(t), 3600, t.hour, rest);
    DivUnique(rest, 60, t.minute, t.second);
    DivUnique(SecondOfDay(t), 60, t.hour * 60 + t.minute, t.second);
  }

  lemma YearLength(y: int)
    requires y >= 1
    ensures DaysBeforeYear(y + 1) == DaysBeforeYear(y) + (if IsLeapYear(y) then 366 else 365)
  {
    var p := y - 1;
    assert DaysBeforeYear(y + 1) == y * 365 + y / 4 - y / 100 + y / 400;
    assert DaysBeforeYear(y) == p * 365 + p / 4 - p / 100 + p / 400;
    DivStep(y, 4);
    DivStep(y, 100);
    DivStep(y, 400);
    if y % 400 == 0 {
      DivUnique(y, 100, 4 * (y / 400), 0);
    }
    if y % 100 == 0 {
      DivUnique(y, 4, 25 * (y / 100), 0);
    }
  }

  /** Going from `y - 1` to `y`, the quotient by `k` grows by one exactly
      when `k` divides `y`. */
  lemma DivStep(y: int, k: int)
    requires y >= 1 && k >= 1
    ensures y / k - (y - 1) / k == (if y % k == 0 then 1 else 0)
  {
    var q, r := y / k, y % k;
    if r == 0 {
      DivUnique(y - 1, k, q - 1, k - 1);
    } else {
      DivUnique(y - 1, k, q, r - 1);
    }
  }

  /** Quotient and remainder are the only ones with the remainder in
      `0 .. k-1`. */
  lemma DivUnique(n: int, k: int, q: int, r: int)
    requires k >= 1 && 0 <= r < k && n == k * q + r
    ensures n / k == q && n % k == r
  {
    var q0, r0 := n / k, n % k;
    if q > q0 {
      assert k * (q - q0) == r0 - r;
      MulAtLeast(k, q - q0);
    } else if q < q0 {
      assert k * (q0 - q) == r - r0;
      MulAtLeast(k, q0 - q);
    }
  }

  lemma {:induction false} MulAtLeast(k: int, d: int)
    requires k >= 1 && d >= 1
    ensures k * d >= k
    decreases d
  {
    if d > 1 {
      MulAtLeast(k, d - 1);
      assert k * d == k * (d - 1) + k;
    }
  }

  // ---------------------------------------------------------------------
  // Stepping one day

  /** The calendar day after `d` (year 10000 after 9999-12-31). */
  function NextDay(d: Date): Date
    requires ValidDate(d)
  {
    if d.day < DaysInMonth(d.year, d.month) then Date(d.year, d.month, d.day + 1)
    else if d.month < 12 then Date(d.year, d.month + 1, 1)
    else Date(d.year + 1, 1, 1)
  }

  /** The calendar day before `d` (year 0 before 0001-01-01). */
  function PrevDay(d: Date): Date
    requires ValidDate(d)
  {
    if d.day > 1 then Date(d.year, d.month, d.day - 1)
    else if d.month > 1 then Date(d.year, d.month - 1, DaysInMonth(d.year, d.month - 1))
    else Date(d.year - 1, 12, 31)
  }

  const FirstDate := Date(MinYear, 1, 1)
  const LastDate := Date(MaxYear, 12, 31)

  /** The next day is a date again, except after the last date; its
      ordinal is one more. */
  lemma NextDayOrdinal(d: Date)
    requires ValidDate(d)
    ensures ValidDate(NextDay(d)) <==> d != LastDate
    ensures NextDay(d).year >= 1 && 1 <= NextDay(d).month <= 12
    ensures Ordinal(NextDay(d)) == Ordinal(d) + 1
  {
    if d.day == DaysInMonth(d.year, d.month) && d.month == 12 {
      YearLength(d.year);
    }
  }

  /** The previous day is a date again, except before the first date; its
      ordinal is one less. */
  lemma PrevDayOrdinal(d: Date)
    requires ValidDate(d) && d != FirstDate
    ensures ValidDate(PrevDay(d))
    ensures Ordinal(PrevDay(d)) == Ordinal(d) - 1
  {
    if d.day == 1 && d.month == 1 {
      YearLength(d.year - 1);
    }
  }

  /** Stepping forward then back returns to the same date. */
  lemma PrevNextDay(d: Date)
    requires ValidDate(d) && d != LastDate
    ensures ValidDate(NextDay(d)) && PrevDay(NextDay(d)) == d
  {
    NextDayOrdinal(d);
  }

  /** Stepping back then forward returns to the same date. */
  lemma NextPrevDay(d: Date)
    requires ValidDate(d) && d != FirstDate
    ensures ValidDate(PrevDay(d)) && NextDay(PrevDay(d)) == d
  {
  }

  // ---------------------------------------------------------------------
  // ISO text

  /** `str(d)` of a Python date: `YYYY-MM-DD`. */
  function IsoDate(d: Date): (s: string)
    requires ValidDate(d)
    ensures |s| == 10
  {
    PadDigits(d.year, 4) + "-" + PadDigits(d.month, 2) + "-" + PadDigits(d.day, 2)
  }

  /** `str(t)` of a Python time without microseconds: `HH:MM:SS`. */
  function IsoTime(t: Time): (s: string)
    requires ValidTime(t)
    ensures |s| == 8
  {
    PadDigits(t.hour, 2) + ":" + PadDigits(t.minute, 2) + ":" + PadDigits(t.second, 2)
  }

  /** Reads a `YYYY-MM-DD` date; `None` for anything else, including a day
      past the end of its month. */
  function ParseIsoDate(s: string): (r: Option<Date>)
    ensures r.Some? ==> ValidDate(r.value)
  {
    if |s| == 10 && s[4] == '-' && s[7] == '-'
       && AllDigits(s[..4]) && AllDigits(s[5..7]) && AllDigits(s[8..])
    then
      var d := Date(DigitsValue(s[..4]), DigitsValue(s[5..7]), DigitsValue(s[8..]));
      if ValidDate(d) then Some(d) else None
    else None
  }

  /** Reads an `HH:MM:SS` time; `None` for anything else. */
  function ParseIsoTime(s: string): (r: Option<Time>)
    ensures r.Some? ==> ValidTime(r.value)
  {
    if |s| == 8 && s[2] == ':' && s[5] == ':'
       && AllDigits(s[..2]) && AllDigits(s[3..5]) && AllDigits(s[6..])
    then
      var t := Time(DigitsValue(s[..2]), DigitsValue(s[3..5]), DigitsValue(s[6..]));
      if ValidTime(t) then Some(t) else None
    else None
  }

  /** Every date reads back from its ISO text. */
  lemma ParseIsoDateRoundTrip(d: Date)
    requires ValidDate(d)
    ensures ParseIsoDate(IsoDate(d)) == Some(d)
  {
    var s := IsoDate(d);
    assert s[..4] == PadDigits(d.year, 4);
    assert s[5..7] == PadDigits(d.month, 2);
    assert s[8..] == PadDigits(d.day, 2);
    DigitsValuePad(d.year, 4);
    DigitsValuePad(d.month, 2);
    DigitsValuePad(d.day, 2);
  }

  /** A text that reads as a date is exactly that date's ISO text. */
  lemma IsoDateOfParsed(s: string)
    requires ParseIsoDate(s).Some?
    ensures IsoDate(ParseIsoDate(s).value) == s
  {
    PadDigitsValue(s[..4]);
    PadDigitsValue(s[5..7]);
    PadDigitsValue(s[8..]);
    assert s == s[..4] + "-" + s[5..7] + "-" + s[8..];
  }

  /** Every time of day reads back from its ISO text. */
  lemma ParseIsoTimeRoundTrip(t: Time)
    requires ValidTime(t)
    ensures ParseIsoTime(IsoTime(t)) == Some(t)
  {
    var s := IsoTime(t);
    assert s[..2] == PadDigits(t.hour, 2);
    assert s[3..5] == PadDigits(t.minute, 2);
    assert s[6..] == PadDigits(t.second, 2);
    DigitsValuePad(t.hour, 2);
    DigitsValuePad(t.minute, 2);
    DigitsValuePad(t.second, 2);
  }

  /** Chronological order of dates. */
  predicate DateLeq(a: Date, b: Date)
  {
    a.year < b.year
    || (a.year == b.year && (a.month < b.month || (a.month == b.month && a.day <= b.day)))
  }

  // ---------------------------------------------------------------------
  // Ordinals follow the calendar order

  lemma MonthEnd(y: int, m: int)
    requires 1 <= m <= 12
    ensures m < 12 ==> DaysBeforeMonth(y, m + 1) == DaysBeforeMonth(y, m) + DaysInMonth(y, m)
    ensures m == 12 ==> DaysBeforeMonth(y, m) + DaysInMonth(y, m) == (if IsLeapYear(y) then 366 else 365)
  {
  }

  lemma {:induction false} DaysBeforeMonthGrows(y: int, m1: int, m2: int)
    requires 1 <= m1 < m2 <= 12
    ensures DaysBeforeMonth(y, m1) + DaysInMonth(y, m1) <= DaysBeforeMonth(y, m2)
    decreases m2 - m1
  {
    MonthEnd(y, m1);
    if m1 + 1 < m2 {
      DaysBeforeMonthGrows(y, m1 + 1, m2);
      MonthEnd(y, m1 + 1);
    }
  }

  lemma {:induction false} DaysBeforeYearGrows(y1: int, y2: int)
    requires 1 <= y1 < y2
    ensures DaysBeforeYear(y1 + 1) <= DaysBeforeYear(y2)
    decreases y2 - y1
  {
    if y1 + 1 < y2 {
      DaysBeforeYearGrows(y1 + 1, y2);
      YearLength(y1 + 1);
    }
  }

  /** The days of year `y` have the ordinals just after the days before it. */
  lemma OrdinalInYear(d: Date)
    requires ValidDate(d)
    ensures DaysBeforeYear(d.year) < Ordinal(d) <= DaysBeforeYear(d.year + 1)
  {
    YearLength(d.year);
    MonthEnd(d.year, 12);
    if d.month < 12 {
      DaysBeforeMonthGrows(d.year, d.month, 12);
    }
  }

  /** Calendar order and ordinal order agree. */
  lemma OrdinalOrder(a: Date, b: Date)
    requires ValidDate(a) && ValidDate(b)
    ensures DateLeq(a, b) <==> Ordinal(a) <= Ordinal(b)
  {
    OrdinalInYear(a);
    OrdinalInYear(b);
    if a.year < b.year {
      DaysBeforeYearGrows(a.year, b.year);
    } else if b.year < a.year {
      DaysBeforeYearGrows(b.year, a.year);
    } else if a.month < b.month {
      DaysBeforeMonthGrows(a.year, a.month, b.month);
    } else if b.month < a.month {
      DaysBeforeMonthGrows(a.year, b.month, a.month);
    }
  }

  /** Two dates with the same ordinal are the same date. */
  lemma OrdinalInjective(a: Date, b: Date)
    requires ValidDate(a) && ValidDate(b) && Ordinal(a) == Ordinal(b)
    ensures a == b
  {
    OrdinalOrder(a, b);
    OrdinalOrder(b, a);
  }

  /** Every date lies between the first and the last date. */
  lemma OrdinalRange(d: Date)
    requires ValidDate(d)
    ensures 1 <= Ordinal(d) <= 3652059
  {
    OrdinalAtLeastOne(d);
    OrdinalAtMostLast(d);
  }

  lemma OrdinalAtLeastOne(d: Date)
    requires ValidDate(d)
    ensures 1 <= Ordinal(d)
  {
    OrdinalInYear(d);
    if d.year > 1 {
      DaysBeforeYearGrows(1, d.year);
    }
  }

  lemma OrdinalAtMostLast(d: Date)
    requires ValidDate(d)
    ensures Ordinal(d) <= 3652059
  {
    OrdinalInYear(d);
    LastOrdinal();
    YearLength(MaxYear);
    if d.year < MaxYear {
      DaysBeforeYearGrows(d.year, MaxYear);
    }
  }

  lemma LastOrdinal()
    ensures Ordinal(LastDate) == 3652059
  {
    assert 9998 / 4 == 2499 && 9998 / 100 == 99 && 9998 / 400 == 24;
    assert DaysBeforeYear(MaxYear) == 3651694;
    assert !IsLeapYear(MaxYear);
  }

  /** `u` is the valid date-time at second `t` of the calendar. */
  predicate AtInstant(u: DateTime, t: int)
  {
    ValidDateTime(u) && Instant(u) == t
  }

  /** No date-time is at second `t`: it lies outside years 1 to 9999. */
  ghost predicate Unrepresentable(t: int)
  {
    forall u :: !AtInstant(u, t)
  }

  /** At most one date-time is at a given second. */
  lemma InstantUnique(u: DateTime, v: DateTime, t: int)
    requires AtInstant(u, t) && AtInstant(v, t)
    ensures u == v
  {
    if Ordinal(u.date) < Ordinal(v.date) {
      assert false;
    } else if Ordinal(v.date) < Ordinal(u.date) {
      assert false;
    }
    OrdinalInjective(u.date, v.date);
    TimeOfDaySecond(u.time);
    TimeOfDaySecond(v.time);
  }

  /** No date-time lies before the first second of 0001-01-01 or after the
      last second of 9999-12-31. */
  lemma InstantRange(u: DateTime)
    requires ValidDateTime(u)
    ensures SecondsPerDay <= Instant(u) < 3652060 * SecondsPerDay
  {
    OrdinalRange(u.date);
  }
}

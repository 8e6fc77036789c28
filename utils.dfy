/** The quarter lock of `utils.py`: the calendar quarter of a date, and
    whether an observation, taken back to UTC, was logged in the same
    quarter as a base date. */
module Utils {
  import opened Wrappers
  import opened Text
  import opened Calendar
  import opened Models

  /** The quarter of the year, 1 to 4, that a date falls in. */
  function GetQuarter(d: Date): (q: int)
    requires ValidDate(d)
    ensures 1 <= q <= 4
    ensures q == (d.month - 1) / 3 + 1
    ensures 3 * q - 2 <= d.month <= 3 * q
  {
    match d.month
    case 1 | 2 | 3 => 1
    case 4 | 5 | 6 => 2
    case 7 | 8 | 9 => 3
    case _ => 4   // months 10, 11 and 12
  }

  /** The quarter depends on the month alone, never on the year or day. */
  lemma GetQuarterByMonth(a: Date, b: Date)
    requires ValidDate(a) && ValidDate(b) && a.month == b.month
    ensures GetQuarter(a) == GetQuarter(b)
  {
  }

  // ---------------------------------------------------------------------
  // The `%z` directive of `strptime`

  /** Two ASCII digits. */
  predicate TwoDigits(s: string)
  {
    |s| == 2 && AllDigits(s)
  }

  /** Two digits, the first 0 to 5: a minutes or seconds field. */
  predicate Sexagesimal(s: string)
  {
    |s| == 2 && '0' <= s[0] <= '5' && IsDigit(s[1])
  }

  /** The hours, minutes and seconds fields of the text after the sign, for
      the four layouts `HHMM`, `HH:MM`, `HHMMSS` and `HH:MM:SS` (colons used
      throughout or not at all). */
  function OffsetFields(body: string): Option<(string, string, string)>
  {
    if |body| == 4 then Some((body[..2], body[2..], "00"))
    else if |body| == 5 && body[2] == ':' then Some((body[..2], body[3..], "00"))
    else if |body| == 6 then Some((body[..2], body[2..4], body[4..]))
    else if |body| == 8 && body[2] == ':' && body[5] == ':' then Some((body[..2], body[3..5], body[6..]))
    else None
  }

  /** The UTC offset, in seconds, that `%z` reads from `z`, or the
      `ValueError` that `strptime` raises: `Z` is zero; otherwise a sign and
      one of the layouts of `OffsetFields`; the offset must be less than a
      day either way, as `datetime.timezone` requires. */
  function ParseOffset(z: string): (r: Result<int, Exception>)
    ensures r.Ok? ==> -SecondsPerDay < r.value < SecondsPerDay
    ensures r.Ok? ==> z == "Z" || (|z| >= 5 && (z[0] == '+' || z[0] == '-'))
    ensures r.Ok? && z != "Z" ==> (z[0] == '-' <==> r.value < 0) || r.value == 0
    ensures r.Err? ==> r.error == ValueError
  {
    if z == "Z" then Ok(0)
    else if |z| == 0 || (z[0] != '+' && z[0] != '-') then Err(ValueError)
    else
      match OffsetFields(z[1..])
      case None => Err(ValueError)
      case Some((h, m, s)) => SignedFields(z[0] == '-', h, m, s)
  }

  /** The offset that the fields `h`, `m`, `s` after the sign denote, or
      `ValueError` when a field is malformed or the offset is a day or
      more. */
  function SignedFields(negative: bool, h: string, m: string, s: string): (r: Result<int, Exception>)
    ensures r.Ok? ==> -SecondsPerDay < r.value < SecondsPerDay
    ensures r.Ok? ==> (negative <==> r.value < 0) || r.value == 0
    ensures r.Err? ==> r.error == ValueError
  {
    if !(TwoDigits(h) && Sexagesimal(m) && Sexagesimal(s)) then Err(ValueError)
    else
      var magnitude := DigitsValue(h) * 3600 + DigitsValue(m) * 60 + DigitsValue(s);
      if magnitude >= SecondsPerDay then Err(ValueError)
      else Ok(if negative then -magnitude else magnitude)
  }

  lemma SexagesimalPad(n: nat)
    requires n < 60
    ensures Sexagesimal(PadDigits(n, 2)) && DigitsValue(PadDigits(n, 2)) == n
  {
    DigitsValuePad(n, 2);
  }

  /** The text after the sign, from its two-digit fields: `HH:MM` or
      `HH:MM:SS` with colons, `HHMM` or `HHMMSS` without. */
  function Layout(hh: string, mm: string, ss: string, colons: bool, withSeconds: bool): string
  {
    if colons then (if withSeconds then hh + ":" + mm + ":" + ss else hh + ":" + mm)
    else (if withSeconds then hh + mm + ss else hh + mm)
  }

  /** The text after the sign for fields `h`, `m`, `s`, zero-padded. */
  function OffsetBody(h: nat, m: nat, s: nat, colons: bool, withSeconds: bool): string
    requires h < 24 && m < 60 && s < 60
  {
    Layout(PadDigits(h, 2), PadDigits(m, 2), PadDigits(s, 2), colons, withSeconds)
  }

  /** The sign and then the text of fields `h`, `m`, `s` in one of the four
      layouts. */
  function OffsetText(negative: bool, h: nat, m: nat, s: nat, colons: bool, withSeconds: bool): string
    requires h < 24 && m < 60 && s < 60
  {
    [if negative then '-' else '+'] + OffsetBody(h, m, s, colons, withSeconds)
  }

  /** Every layout, with or without colons and seconds, reads back as the
      signed offset of its fields. */
  lemma ParseOffsetText(negative: bool, h: nat, m: nat, s: nat, colons: bool, withSeconds: bool)
    requires h < 24 && m < 60 && s < 60 && (withSeconds || s == 0)
    ensures var magnitude := h * 3600 + m * 60 + s;
      ParseOffset(OffsetText(negative, h, m, s, colons, withSeconds)) == Ok(if negative then -magnitude else magnitude)
  {
    var hh, mm := PadDigits(h, 2), PadDigits(m, 2);
    var fs := if withSeconds then PadDigits(s, 2) else "00";
    OffsetBodyFields(h, m, s, colons, withSeconds);
    var body := OffsetBody(h, m, s, colons, withSeconds);
    var z := OffsetText(negative, h, m, s, colons, withSeconds);
    assert z[0] == (if negative then '-' else '+') && z[1..] == body;
    ParseOffsetOfFields(z, negative, hh, mm, fs);
    SignedFieldsValue(negative, hh, mm, fs, h, m, s);
  }

  /** The fields `OffsetFields` finds in the text `OffsetBody` writes, and
      their values. */
  lemma OffsetBodyFields(h: nat, m: nat, s: nat, colons: bool, withSeconds: bool)
    requires h < 24 && m < 60 && s < 60 && (withSeconds || s == 0)
    ensures var fs := if withSeconds then PadDigits(s, 2) else "00";
      && OffsetFields(OffsetBody(h, m, s, colons, withSeconds)) == Some((PadDigits(h, 2), PadDigits(m, 2), fs))
      && TwoDigits(PadDigits(h, 2)) && Sexagesimal(PadDigits(m, 2)) && Sexagesimal(fs)
      && DigitsValue(PadDigits(h, 2)) == h && DigitsValue(PadDigits(m, 2)) == m && DigitsValue(fs) == s
  {
    DigitsValuePad(h, 2);
    SexagesimalPad(m);
    SexagesimalPad(s);
    LayoutFields(PadDigits(h, 2), PadDigits(m, 2), PadDigits(s, 2), colons, withSeconds);
  }

  /** `ParseOffset` hands the fields after a sign to `SignedFields`. */
  lemma ParseOffsetOfFields(z: string, negative: bool, hh: string, mm: string, ss: string)
    requires |z| > 1 && z[0] == (if negative then '-' else '+')
    requires OffsetFields(z[1..]) == Some((hh, mm, ss))
    ensures ParseOffset(z) == SignedFields(negative, hh, mm, ss)
  {
    assert z != "Z";
  }

  /** Good fields with hours below 24 give their signed magnitude. */
  lemma SignedFieldsValue(negative: bool, hh: string, mm: string, ss: string, h: nat, m: nat, s: nat)
    requires TwoDigits(hh) && Sexagesimal(mm) && Sexagesimal(ss)
    requires DigitsValue(hh) == h < 24 && DigitsValue(mm) == m && DigitsValue(ss) == s
    ensures var magnitude := h * 3600 + m * 60 + s;
      SignedFields(negative, hh, mm, ss) == Ok(if negative then -magnitude else magnitude)
  {
    SexagesimalValue(mm);
    SexagesimalValue(ss);
    assert h * 3600 + m * 60 + s < SecondsPerDay;
  }

  /** A minutes or seconds field is below 60. */
  lemma SexagesimalValue(s: string)
    requires Sexagesimal(s)
    ensures AllDigits(s) && DigitsValue(s) < 60
  {
    assert s[..1][..0] == [];
    assert DigitsValue(s[..1]) == s[0] as int - '0' as int;
  }

  /** `OffsetFields` splits each layout into its fields; a layout without
      seconds has seconds `00`. */
  lemma LayoutFields(hh: string, mm: string, ss: string, colons: bool, withSeconds: bool)
    requires |hh| == |mm| == |ss| == 2
    ensures OffsetFields(Layout(hh, mm, ss, colons, withSeconds)) == Some((hh, mm, if withSeconds then ss else "00"))
    ensures Sexagesimal("00") && DigitsValue("00") == 0
  {
    var body := Layout(hh, mm, ss, colons, withSeconds);
    if colons && withSeconds {
      assert body[..2] == hh && body[3..5] == mm && body[6..] == ss;
    } else if colons {
      assert body[..2] == hh && body[3..] == mm;
    } else if withSeconds {
      assert body[..2] == hh && body[2..4] == mm && body[4..] == ss;
    } else {
      assert body[..2] == hh && body[2..] == mm;
    }
  }

  /** The text after the sign is one of the four layouts of the fields
      `OffsetFields` finds in it; without seconds, the seconds are `00`. */
  lemma FieldsLayout(body: string, hh: string, mm: string, ss: string) returns (colons: bool, withSeconds: bool)
    requires OffsetFields(body) == Some((hh, mm, ss))
    ensures body == Layout(hh, mm, ss, colons, withSeconds)
    ensures withSeconds || ss == "00"
    ensures colons == (|body| == 5 || |body| == 8) && withSeconds == (|body| == 6 || |body| == 8)
  {
    colons := |body| == 5 || |body| == 8;
    withSeconds := |body| == 6 || |body| == 8;
    if |body| == 4 {
      assert body == body[..2] + body[2..];
    } else if |body| == 5 {
      assert body == body[..2] + ":" + body[3..];
    } else if |body| == 6 {
      assert body == body[..2] + body[2..4] + body[4..];
    } else {
      assert body == body[..2] + ":" + body[3..5] + ":" + body[6..];
    }
  }

  /** Conversely, a text other than `Z` that `%z` accepts is a sign and one
      of the four layouts of the offset it reads as, the one its length
      picks: malformed text, mixed colons included, is refused. */
  lemma ParsedOffsetLayout(z: string)
    requires ParseOffset(z).Ok? && z != "Z"
    ensures var off := ParseOffset(z).value;
      var magnitude := if off < 0 then -off else off;
      var colons, withSeconds := |z| == 6 || |z| == 9, |z| == 7 || |z| == 9;
      && (withSeconds || magnitude % 60 == 0)
      && z == OffsetText(z[0] == '-', magnitude / 3600, magnitude % 3600 / 60, magnitude % 60, colons, withSeconds)
  {
    var h, m, s, colons, withSeconds := ParsedOffsetFields(z);
    var off := ParseOffset(z).value;
    MagnitudeText(z, if off < 0 then -off else off, h, m, s, colons, withSeconds);
  }

  /** The text of fields `h`, `m`, `s` is the text of the magnitude they add
      up to. */
  lemma MagnitudeText(z: string, magnitude: nat, h: nat, m: nat, s: nat, colons: bool, withSeconds: bool)
    requires h < 24 && m < 60 && s < 60 && magnitude == h * 3600 + m * 60 + s
    requires |z| > 0 && z == OffsetText(z[0] == '-', h, m, s, colons, withSeconds)
    ensures magnitude / 3600 < 24
    ensures z == OffsetText(z[0] == '-', magnitude / 3600, magnitude % 3600 / 60, magnitude % 60, colons, withSeconds)
    ensures s == 0 ==> magnitude % 60 == 0
  {
    FieldsDiv(h, m, s);
  }

  /** The fields and the layout of a text other than `Z` that `%z`
      accepts. */
  lemma ParsedOffsetFields(z: string) returns (h: nat, m: nat, s: nat, colons: bool, withSeconds: bool)
    requires ParseOffset(z).Ok? && z != "Z"
    ensures h < 24 && m < 60 && s < 60 && (withSeconds || s == 0)
    ensures var off := ParseOffset(z).value;
      (if off < 0 then -off else off) == h * 3600 + m * 60 + s
    ensures z == OffsetText(z[0] == '-', h, m, s, colons, withSeconds)
    ensures colons == (|z| == 6 || |z| == 9) && withSeconds == (|z| == 7 || |z| == 9)
  {
    var negative := z[0] == '-';
    var fields := OffsetFields(z[1..]).value;
    var hh, mm, ss := fields.0, fields.1, fields.2;
    ParseOffsetOfFields(z, negative, hh, mm, ss);
    var off := ParseOffset(z).value;
    assert SignedFields(negative, hh, mm, ss) == Ok(off);
    assert TwoDigits(hh) && Sexagesimal(mm) && Sexagesimal(ss);
    SexagesimalValue(mm);
    SexagesimalValue(ss);
    h, m, s := DigitsValue(hh), DigitsValue(mm), DigitsValue(ss);
    assert (if off < 0 then -off else off) == h * 3600 + m * 60 + s < SecondsPerDay;
    PadDigitsValue(hh);
    PadDigitsValue(mm);
    PadDigitsValue(ss);
    colons, withSeconds := FieldsLayout(z[1..], hh, mm, ss);
    SignedLayout(z, h, m, s, colons, withSeconds);
  }

  /** Hours, minutes and seconds are recovered from the magnitude they add
      up to. */
  lemma FieldsDiv(h: nat, m: nat, s: nat)
    requires m < 60 && s < 60
    ensures (h * 3600 + m * 60 + s) / 3600 == h
    ensures (h * 3600 + m * 60 + s) % 3600 / 60 == m
    ensures (h * 3600 + m * 60 + s) % 60 == s
  {
    var rest := m * 60 + s;
    DivUnique(h * 3600 + rest, 3600, h, rest);
    DivUnique(rest, 60, m, s);
    DivUnique(h * 3600 + rest, 60, h * 60 + m, s);
  }

  /** A sign followed by a layout of the padded fields `h`, `m`, `s` is the
      `OffsetText` of that layout. */
  lemma SignedLayout(z: string, h: nat, m: nat, s: nat, colons: bool, withSeconds: bool)
    requires |z| > 1 && (z[0] == '+' || z[0] == '-') && h < 24 && m < 60 && s < 60
    requires z[1..] == Layout(PadDigits(h, 2), PadDigits(m, 2), PadDigits(s, 2), colons, withSeconds)
    requires withSeconds || PadDigits(s, 2) == "00"
    ensures z == OffsetText(z[0] == '-', h, m, s, colons, withSeconds)
    ensures withSeconds || s == 0
  {
    SecondsOfPad(s);
    var sign := if z[0] == '-' then '-' else '+';
    assert sign == z[0];
    assert OffsetBody(h, m, s, colons, withSeconds) == z[1..];
    assert z == [sign] + z[1..];
  }

  /** Padded seconds `00` are zero seconds. */
  lemma SecondsOfPad(s: nat)
    requires s < 60
    ensures PadDigits(s, 2) == "00" ==> s == 0
  {
    DigitsValuePad(s, 2);
    assert DigitsValue("00") == 0;
  }

  /** The `±HH:MM` text of an offset (`±HH:MM:SS` when it has seconds), the
      name `str(datetime.timezone(offset))` gives after its `UTC`; or the
      same without colons, `±HHMM[SS]`, as in `UTC+0000`. */
  function FormatOffset(off: int, colons: bool): (z: string)
    requires -SecondsPerDay < off < SecondsPerDay
  {
    var magnitude := if off < 0 then -off else off;
    OffsetText(off < 0, magnitude / 3600, magnitude % 3600 / 60, magnitude % 60, colons, magnitude % 60 != 0)
  }

  /** Every offset reads back from its `±HH:MM[:SS]` text and from its
      `±HHMM[SS]` text. */
  lemma ParseFormatOffset(off: int, colons: bool)
    requires -SecondsPerDay < off < SecondsPerDay
    ensures ParseOffset(FormatOffset(off, colons)) == Ok(off)
  {
    var magnitude := if off < 0 then -off else off;
    var h, m, s := magnitude / 3600, magnitude % 3600 / 60, magnitude % 60;
    assert h * 3600 + m * 60 + s == magnitude;
    ParseOffsetText(off < 0, h, m, s, colons, s != 0);
  }

  /** A `UTC±HH:MM` or `UTC±HHMM` name reads the same as its offset part once
      every `UTC` is removed. */
  lemma ParseUtcNamedOffset(off: int, colons: bool)
    requires -SecondsPerDay < off < SecondsPerDay
    ensures ParseOffset(RemoveAll("UTC" + FormatOffset(off, colons), "UTC")) == Ok(off)
  {
    var z := FormatOffset(off, colons);
    var magnitude := if off < 0 then -off else off;
    var hh, mm, ss := PadDigits(magnitude / 3600, 2), PadDigits(magnitude % 3600 / 60, 2), PadDigits(magnitude % 60, 2);
    assert forall k :: 0 <= k < 2 ==> IsDigit(hh[k]) && IsDigit(mm[k]) && IsDigit(ss[k]);
    forall i | 0 <= i < |z| ensures z[i] != 'U' {
    }
    RemoveAllLeading("UTC", z);
    AbsentWithoutFirstChar("UTC", z);
    RemoveAllAbsent(z, "UTC");
    ParseFormatOffset(off, colons);
  }

  // ---------------------------------------------------------------------
  // Parsing the logged date-time and converting it to UTC

  /** `datetime.strptime(text, "%Y-%m-%d %H:%M:%S%z")` for the texts this
      module builds: the local date-time and its UTC offset in seconds. */
  function Strptime(text: string): (r: Result<(DateTime, int), Exception>)
    ensures r.Ok? ==> ValidDateTime(r.value.0) && -SecondsPerDay < r.value.1 < SecondsPerDay
    ensures r.Err? ==> r.error == ValueError
  {
    if |text| < 19 || text[10] != ' ' then Err(ValueError)
    else
      match (ParseIsoDate(text[..10]), ParseIsoTime(text[11..19]))
      case (Some(d), Some(t)) =>
        (match ParseOffset(text[19..])
         case Ok(off) => Ok((DateTime(d, t), off))
         case Err(e) => Err(e))
      case _ => Err(ValueError)
  }

  /** The text `f"{date} {time}{offset}"` reads back as that date and time,
      with whatever the offset part reads as. */
  lemma StrptimeRoundTrip(d: Date, t: Time, z: string)
    requires ValidDate(d) && ValidTime(t)
    ensures Strptime(IsoDate(d) + " " + IsoTime(t) + z)
         == match ParseOffset(z)
            case Ok(off) => Ok((DateTime(d, t), off))
            case Err(e) => Err(e)
  {
    var text := IsoDate(d) + " " + IsoTime(t) + z;
    assert text[..10] == IsoDate(d);
    assert text[11..19] == IsoTime(t);
    assert text[19..] == z;
    ParseIsoDateRoundTrip(d);
    ParseIsoTimeRoundTrip(t);
  }

  /** `dt.astimezone(timezone.utc)` for a date-time whose UTC offset is
      `offset` seconds: the same second of the calendar seen from UTC, or
      `OverflowError` when that second lies outside years 1 to 9999. */
  function ToUtc(dt: DateTime, offset: int): (r: Result<DateTime, Exception>)
    requires ValidDateTime(dt) && -SecondsPerDay < offset < SecondsPerDay
    ensures r.Ok? ==> AtInstant(r.value, Instant(dt) - offset)
    ensures r.Err? ==> r.error == OverflowError && Unrepresentable(Instant(dt) - offset)
  {
    var s := SecondOfDay(dt.time) - offset;
    if s < 0 then
      if dt.date == FirstDate then
        (forall u | ValidDateTime(u) ensures !AtInstant(u, Instant(dt) - offset) { InstantRange(u); }
         Err(OverflowError))
      else
        PrevDayOrdinal(dt.date);
        Ok(DateTime(PrevDay(dt.date), TimeOfDay(s + SecondsPerDay)))
    else if s >= SecondsPerDay then
      if dt.date == LastDate then
        (forall u | ValidDateTime(u) ensures !AtInstant(u, Instant(dt) - offset) { InstantRange(u); LastOrdinal(); }
         Err(OverflowError))
      else
        NextDayOrdinal(dt.date);
        Ok(DateTime(NextDay(dt.date), TimeOfDay(s - SecondsPerDay)))
    else
      Ok(DateTime(dt.date, TimeOfDay(s)))
  }

  /** Converting to UTC and back with the opposite offset gives the local
      date-time again. */
  lemma ToUtcRoundTrip(dt: DateTime, offset: int)
    requires ValidDateTime(dt) && -SecondsPerDay < offset < SecondsPerDay
    requires ToUtc(dt, offset).Ok?
    ensures ToUtc(ToUtc(dt, offset).value, -offset) == Ok(dt)
  {
    var u := ToUtc(dt, offset).value;
    assert AtInstant(dt, Instant(u) - -offset);
    var back := ToUtc(u, -offset);
    InstantUnique(back.value, dt, Instant(dt));
  }

  /** With a zero offset the UTC date-time is the logged one. */
  lemma ToUtcZero(dt: DateTime)
    requires ValidDateTime(dt)
    ensures ToUtc(dt, 0) == Ok(dt)
  {
    TimeOfDaySecond(dt.time);
  }

  // ---------------------------------------------------------------------
  // The quarter lock

  /** The text `is_same_quarter` hands to `strptime`. */
  function LoggedText(obs: Observation): string
    requires WellFormed(obs)
  {
    IsoDate(obs.dateLogged) + " " + IsoTime(obs.timeLogged) + RemoveAll(obs.timeZoneOffset, "UTC")
  }

  function LocalDateTime(obs: Observation): DateTime
  {
    DateTime(obs.dateLogged, obs.timeLogged)
  }

  /** Whether `obs`, logged at its local date and time with its offset, was
      logged (in UTC) in the same quarter of the year as `baseDate`. Every
      `UTC` is removed from the offset text first; an offset that does not
      parse gives `ValueError`, a UTC time outside years 1 to 9999 gives
      `OverflowError`. */
  function IsSameQuarter(obs: Observation, baseDate: Date): (r: Result<bool, Exception>)
    requires WellFormed(obs) && ValidDate(baseDate)
    ensures r.Err? ==> r.error == ValueError || r.error == OverflowError
  {
    match Strptime(LoggedText(obs))
    case Err(e) => Err(e)
    case Ok(parsed) => UtcQuarterMatches(parsed.0, parsed.1, baseDate)
  }

  /** Whether the local date-time `dt` at offset `offset` falls, in UTC, in
      the quarter of `baseDate`; `OverflowError` when the conversion leaves
      the calendar. */
  function UtcQuarterMatches(dt: DateTime, offset: int, baseDate: Date): (r: Result<bool, Exception>)
    requires ValidDateTime(dt) && -SecondsPerDay < offset < SecondsPerDay && ValidDate(baseDate)
    ensures r.Err? ==> r.error == OverflowError && Unrepresentable(Instant(dt) - offset)
    ensures r.Ok? ==> QuarterAt(Instant(dt) - offset, baseDate, r.value)
  {
    match ToUtc(dt, offset)
    case Err(e) => Err(e)
    case Ok(utc) => Ok(GetQuarter(utc.date) == GetQuarter(baseDate))
  }

  /** What `IsSameQuarter` computes: with `off` the offset read from the text
      left after removing every `UTC`, the answer compares the quarter of
      the date-time `off` seconds before the logged local one with the
      quarter of the base date; `ValueError` when the offset text does not
      read, `OverflowError` exactly when no date-time is at that second. */
  lemma IsSameQuarterUtc(obs: Observation, baseDate: Date)
    requires WellFormed(obs) && ValidDate(baseDate)
    ensures var z := ParseOffset(RemoveAll(obs.timeZoneOffset, "UTC"));
            var r := IsSameQuarter(obs, baseDate);
      && (z.Err? ==> r == Err(ValueError))
      && (z.Ok? && r.Err? ==>
            r.error == OverflowError && Unrepresentable(Instant(LocalDateTime(obs)) - z.value))
      && (r.Ok? ==> z.Ok? && QuarterAt(Instant(LocalDateTime(obs)) - z.value, baseDate, r.value))
  {
    IsSameQuarterOfOffset(obs, baseDate);
  }

  /** The answer once the offset has been read: its error, or the quarter
      comparison at the converted second. */
  function OffsetQuarter(z: Result<int, Exception>, dt: DateTime, baseDate: Date): (r: Result<bool, Exception>)
    requires ValidDateTime(dt) && ValidDate(baseDate)
    requires z.Ok? ==> -SecondsPerDay < z.value < SecondsPerDay
    requires z.Err? ==> z.error == ValueError
    ensures z.Err? ==> r == Err(ValueError)
    ensures z.Ok? && r.Err? ==> r.error == OverflowError && Unrepresentable(Instant(dt) - z.value)
    ensures r.Ok? ==> z.Ok? && QuarterAt(Instant(dt) - z.value, baseDate, r.value)
  {
    match z
    case Err(e) => Err(e)
    case Ok(off) =>
      var r := UtcQuarterMatches(dt, off, baseDate);
      assert r.Err? ==> Unrepresentable(Instant(dt) - off);
      assert r.Ok? ==> QuarterAt(Instant(dt) - off, baseDate, r.value);
      r
  }

  /** `IsSameQuarter` once the logged date and time have read back: only the
      offset text decides between an error and a conversion. */
  lemma IsSameQuarterOfOffset(obs: Observation, baseDate: Date)
    requires WellFormed(obs) && ValidDate(baseDate)
    ensures IsSameQuarter(obs, baseDate)
         == OffsetQuarter(ParseOffset(RemoveAll(obs.timeZoneOffset, "UTC")), LocalDateTime(obs), baseDate)
  {
    StrptimeRoundTrip(obs.dateLogged, obs.timeLogged, RemoveAll(obs.timeZoneOffset, "UTC"));
  }

  /** The date-time at second `t` lies in the quarter of `baseDate`
      exactly when `same` holds. */
  ghost predicate QuarterAt(t: int, baseDate: Date, same: bool)
    requires ValidDate(baseDate)
  {
    exists u :: AtInstant(u, t) && same == (GetQuarter(u.date) == GetQuarter(baseDate))
  }

  /** A leading `UTC` in the stored offset changes nothing: `UTC+0000` and
      `+0000` give the same answer. */
  lemma IsSameQuarterUtcPrefix(obs: Observation, baseDate: Date)
    requires WellFormed(obs) && ValidDate(baseDate)
    ensures IsSameQuarter(obs.(timeZoneOffset := "UTC" + obs.timeZoneOffset), baseDate)
         == IsSameQuarter(obs, baseDate)
  {
    RemoveAllLeading("UTC", obs.timeZoneOffset);
    IsSameQuarterOfOffset(obs, baseDate);
    IsSameQuarterOfOffset(obs.(timeZoneOffset := "UTC" + obs.timeZoneOffset), baseDate);
  }

  /** With a zero offset the quarter is that of the logged date itself. */
  lemma IsSameQuarterZeroOffset(obs: Observation, baseDate: Date)
    requires WellFormed(obs) && ValidDate(baseDate)
    requires ParseOffset(RemoveAll(obs.timeZoneOffset, "UTC")) == Ok(0)
    ensures IsSameQuarter(obs, baseDate) == Ok(GetQuarter(obs.dateLogged) == GetQuarter(baseDate))
  {
    IsSameQuarterOfOffset(obs, baseDate);
    ToUtcZero(LocalDateTime(obs));
  }

  /** Only the quarter of the base date matters, never its year, month
      within the quarter or day. */
  lemma IsSameQuarterBaseQuarter(obs: Observation, base1: Date, base2: Date)
    requires WellFormed(obs) && ValidDate(base1) && ValidDate(base2)
    requires GetQuarter(base1) == GetQuarter(base2)
    ensures IsSameQuarter(obs, base1) == IsSameQuarter(obs, base2)
  {
    IsSameQuarterOfOffset(obs, base1);
    IsSameQuarterOfOffset(obs, base2);
  }

  // ---------------------------------------------------------------------
  // Worked cases

  /** An observation at local `d` `t` with offset text `z` and zero readings. */
  function Reading(d: Date, t: Time, z: string): Observation
  {
    Observation(1, d, t, z, 0.0, 0.0, 0, 0, 0, 0, 0, 0, 0, 0, 1)
  }

  /** An offset text without the letter `U` is left as it is. */
  lemma KeepsOffsetText(z: string)
    requires forall i :: 0 <= i < |z| ==> z[i] != 'U'
    ensures RemoveAll(z, "UTC") == z
  {
    AbsentWithoutFirstChar("UTC", z);
    RemoveAllAbsent(z, "UTC");
  }

  /** `UTC+0000` reads as a zero offset. */
  lemma UtcZeroText()
    ensures ParseOffset(RemoveAll("UTC+0000", "UTC")) == Ok(0)
  {
    assert "UTC+0000" == "UTC" + "+0000";
    RemoveAllLeading("UTC", "+0000");
    KeepsOffsetText("+0000");
    LayoutFields("00", "00", "00", false, false);
    assert "+0000"[1..] == Layout("00", "00", "00", false, false);
  }

  /** Noon on 1 January 2024 at `UTC+0000` is in the quarter of 1 January
      2024 and not in that of 1 April 2024. */
  lemma NoonNewYearExample()
    ensures IsSameQuarter(Reading(Date(2024, 1, 1), Time(12, 0, 0), "UTC+0000"), Date(2024, 1, 1)) == Ok(true)
    ensures IsSameQuarter(Reading(Date(2024, 1, 1), Time(12, 0, 0), "UTC+0000"), Date(2024, 4, 1)) == Ok(false)
  {
    var obs := Reading(Date(2024, 1, 1), Time(12, 0, 0), "UTC+0000");
    UtcZeroText();
    IsSameQuarterZeroOffset(obs, Date(2024, 1, 1));
    IsSameQuarterZeroOffset(obs, Date(2024, 4, 1));
  }

  /** `+05:00` reads as five hours east of UTC. */
  lemma FiveHoursEastText()
    ensures ParseOffset(RemoveAll("+05:00", "UTC")) == Ok(18000)
  {
    KeepsOffsetText("+05:00");
    LayoutFields("05", "00", "00", true, false);
    assert "+05:00"[1..] == Layout("05", "00", "00", true, false);
    assert DigitsValue("05") == 5;
  }

  /** 02:00 on 1 April 2024 at `+05:00` is 21:00 on 31 March in UTC: the
      first quarter, not the second. */
  lemma EastOfUtcExample()
    ensures IsSameQuarter(Reading(Date(2024, 4, 1), Time(2, 0, 0), "+05:00"), Date(2024, 4, 1)) == Ok(false)
    ensures IsSameQuarter(Reading(Date(2024, 4, 1), Time(2, 0, 0), "+05:00"), Date(2024, 1, 15)) == Ok(true)
  {
    var obs := Reading(Date(2024, 4, 1), Time(2, 0, 0), "+05:00");
    FiveHoursEastText();
    IsSameQuarterOfOffset(obs, Date(2024, 4, 1));
    IsSameQuarterOfOffset(obs, Date(2024, 1, 15));
    var utc := ToUtc(LocalDateTime(obs), 18000);
    assert utc.value.date == PrevDay(Date(2024, 4, 1)) == Date(2024, 3, 31);
  }

  /** `+01:00` reads as one hour east of UTC. */
  lemma OneHourEastText()
    ensures ParseOffset(RemoveAll("+01:00", "UTC")) == Ok(3600)
  {
    KeepsOffsetText("+01:00");
    LayoutFields("01", "00", "00", true, false);
    assert "+01:00"[1..] == Layout("01", "00", "00", true, false);
    assert DigitsValue("01") == 1;
  }

  /** Half past midnight on 1 January of year 1 at `+01:00` lies before the
      first representable second: `OverflowError`. */
  lemma FirstDayOverflowExample()
    ensures IsSameQuarter(Reading(Date(1, 1, 1), Time(0, 30, 0), "+01:00"), Date(2024, 1, 1)) == Err(OverflowError)
  {
    var obs := Reading(Date(1, 1, 1), Time(0, 30, 0), "+01:00");
    OneHourEastText();
    IsSameQuarterOfOffset(obs, Date(2024, 1, 1));
    assert ToUtc(LocalDateTime(obs), 3600) == Err(OverflowError);
  }

  /** An offset of just `UTC` leaves an empty text, which `%z` rejects. */
  lemma BareUtcExample()
    ensures IsSameQuarter(Reading(Date(2024, 1, 1), Time(12, 0, 0), "UTC"), Date(2024, 1, 1)) == Err(ValueError)
  {
    var obs := Reading(Date(2024, 1, 1), Time(12, 0, 0), "UTC");
    assert "UTC" == "UTC" + "";
    RemoveAllLeading("UTC", "");
    IsSameQuarterOfOffset(obs, Date(2024, 1, 1));
  }
}

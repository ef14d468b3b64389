/**
 * The slice of Go's `time` package the program uses, for UTC instants:
 * a civil date-time record, its position on the time line (days from the
 * civil calendar, Howard Hinnant's algorithm for the proleptic Gregorian
 * calendar), `Hour`, `Weekday`, `Sub`, `Before`/`After`, `IsZero`, the
 * `2006-01-02` date layout, and `time.Parse` for the three compact layouts
 * `20060102`, `20060102T150405` and `20060102T150405Z`.
 *
 * Durations are whole seconds (Go counts nanoseconds, but every time the
 * program compares or subtracts has whole seconds).
 */
module Timestamps {
  import opened Wrappers
  import opened Numerals

  datatype Timestamp = Timestamp(year: int, month: int, day: int, hour: int, minute: int, second: int)

  /** Go's zero `time.Time`: January 1 of year 1, 00:00:00 UTC. */
  const Zero := Timestamp(1, 1, 1, 0, 0, 0)

  const SecondsPerMinute := 60
  const SecondsPerHour := 3600
  const SecondsPerDay := 86400

  predicate IsLeapYear(y: int)
  {
    y % 4 == 0 && (y % 100 != 0 || y % 400 == 0)
  }

  function DaysIn(month: int, year: int): (n: int)
    requires 1 <= month <= 12
    ensures 28 <= n <= 31
  {
    if month == 2 then (if IsLeapYear(year) then 29 else 28)
    else if month == 4 || month == 6 || month == 9 || month == 11 then 30
    else 31
  }

  predicate ValidDate(year: int, month: int, day: int)
  {
    1 <= month <= 12 && 1 <= day <= DaysIn(month, year)
  }

  /** A date and time of day that `time.Parse` accepts and `time.Time` can hold. */
  predicate Valid(t: Timestamp)
  {
    ValidDate(t.year, t.month, t.day) &&
    0 <= t.hour < 24 && 0 <= t.minute < 60 && 0 <= t.second < 60
  }

  /** Days from 1970-01-01 to the given civil date. */
  function DaysFromCivil(y: int, m: int, d: int): int
  {
    var y' := if m <= 2 then y - 1 else y;
    var era := y' / 400;
    var yoe := y' - era * 400;
    var mp := (m + 9) % 12;
    var doy := (153 * mp + 2) / 5 + d - 1;
    var doe := yoe * 365 + yoe / 4 - yoe / 100 + doy;
    era * 146097 + doe - 719468
  }

  /** Seconds since 1970-01-01 00:00:00 UTC: the instant Go compares and subtracts. */
  function Instant(t: Timestamp): int
  {
    DaysFromCivil(t.year, t.month, t.day) * SecondsPerDay
      + t.hour * SecondsPerHour + t.minute * SecondsPerMinute + t.second
  }

  /** `t.IsZero()`: `t` is the zero instant (so a decoded 0001-01-01 00:00:00 looks unset too). */
  predicate IsZero(t: Timestamp)
  {
    Instant(t) == Instant(Zero)
  }

  predicate Before(a: Timestamp, b: Timestamp)
  {
    Instant(a) < Instant(b)
  }

  predicate After(a: Timestamp, b: Timestamp)
  {
    Instant(a) > Instant(b)
  }

  /** `a.Sub(b)` in seconds. */
  function Sub(a: Timestamp, b: Timestamp): int
  {
    Instant(a) - Instant(b)
  }

  /** `t.Hour()`: the hour of the day of the instant. */
  function Hour(t: Timestamp): (h: int)
    ensures 0 <= h < 24
  {
    (Instant(t) % SecondsPerDay) / SecondsPerHour
  }

  /** On a valid record the hour of the instant is the record's own hour field. */
  lemma HourOfValid(t: Timestamp)
    requires Valid(t)
    ensures Hour(t) == t.hour
  {
    var secs := t.hour * SecondsPerHour + t.minute * SecondsPerMinute + t.second;
    var days := DaysFromCivil(t.year, t.month, t.day);
    assert 0 <= secs < SecondsPerDay;
    assert Instant(t) == days * SecondsPerDay + secs;
    assert Instant(t) % SecondsPerDay == secs;
  }

  /** `t.Weekday()`: 0 is Sunday; 1970-01-01 was a Thursday. */
  function Weekday(t: Timestamp): (w: int)
    ensures 0 <= w < 7
  {
    (DaysFromCivil(t.year, t.month, t.day) + 4) % 7
  }

  /** `time.Weekday.String()`. */
  function WeekdayName(w: int): string
    requires 0 <= w < 7
  {
    ["Sunday", "Monday", "Tuesday", "Wednesday", "Thursday", "Friday", "Saturday"][w]
  }

  lemma EpochIsThursday()
    ensures DaysFromCivil(1970, 1, 1) == 0
    ensures WeekdayName(Weekday(Timestamp(1970, 1, 1, 0, 0, 0))) == "Thursday"
  {
  }

  // ---------------------------------------------------------------------
  // Layouts
  // ---------------------------------------------------------------------

  /** The digits of `n`, zero-padded to at least `w` places, as the `time` layouts write a year. */
  function Padded(n: nat, w: nat): (r: string)
    ensures AllDigits(r)
    ensures n < Pow10(w) ==> |r| == w
  {
    if n < Pow10(w) then FixedDigits(n, w) else NatToDecimal(n)
  }

  /** `t.Format("2006-01-02")`. */
  function DateKey(t: Timestamp): (r: string)
    requires Valid(t)
    ensures 0 <= t.year < 10000 ==> |r| == 10 && r[4] == '-' && r[7] == '-'
  {
    assert Pow10(4) == 10000;
    (if t.year < 0 then "-" else "") + Padded(if t.year < 0 then -t.year else t.year, 4)
      + "-" + FixedDigits(t.month, 2) + "-" + FixedDigits(t.day, 2)
  }

  /** The year, month and day can be read back from a date key of years 0..9999. */
  lemma DateKeyFields(t: Timestamp)
    requires Valid(t) && 0 <= t.year < 10000
    ensures var k := DateKey(t);
      |k| == 10 && AllDigits(k[0..4]) && AllDigits(k[5..7]) && AllDigits(k[8..10]) &&
      DecimalValue(k[0..4]) == t.year && DecimalValue(k[5..7]) == t.month && DecimalValue(k[8..10]) == t.day
  {
    assert Pow10(2) == 100 && Pow10(4) == 10000;
    var y, m, d := FixedDigits(t.year, 4), FixedDigits(t.month, 2), FixedDigits(t.day, 2);
    var k := DateKey(t);
    assert k == y + "-" + m + "-" + d;
    assert k[0..4] == y && k[5..7] == m && k[8..10] == d;
    FixedDigitsRoundTrip(t.year, 4);
    FixedDigitsRoundTrip(t.month, 2);
    FixedDigitsRoundTrip(t.day, 2);
  }

  /** Two timestamps in years 0..9999 get the same date key exactly when they fall on the same day. */
  lemma DateKeyInjective(a: Timestamp, b: Timestamp)
    requires Valid(a) && Valid(b) && 0 <= a.year < 10000 && 0 <= b.year < 10000
    ensures DateKey(a) == DateKey(b) <==> (a.year, a.month, a.day) == (b.year, b.month, b.day)
  {
    DateKeyFields(a);
    DateKeyFields(b);
  }

  /** The number written in `s[i..i+w]`, when those are `w` digits. */
  function Field(s: string, i: nat, w: nat): Option<nat>
  {
    if i + w <= |s| && AllDigits(s[i..i + w]) then Some(DecimalValue(s[i..i + w])) else None
  }

  /** `time.Parse("20060102", s)`: eight digits naming a real calendar day. */
  function ParseDate(s: string): Option<Timestamp>
  {
    if |s| != 8 then None
    else
      match (Field(s, 0, 4), Field(s, 4, 2), Field(s, 6, 2))
      case (Some(y), Some(mo), Some(d)) =>
        if ValidDate(y, mo, d) then Some(Timestamp(y, mo, d, 0, 0, 0)) else None
      case _ => None
  }

  /**
   * What `time.Parse` takes right after the seconds even when the layout has
   * no fractional second: nothing, or a `.` or `,` followed by one or more digits.
   */
  predicate OptionalFraction(f: string)
  {
    f == "" || (|f| >= 2 && (f[0] == '.' || f[0] == ',') && AllDigits(f[1..]))
  }

  /**
   * `time.Parse("20060102T150405", s)`: a date, a `T`, six digits of time of day
   * and an optional fractional second, which is dropped.
   */
  function ParseDateTime(s: string): Option<Timestamp>
  {
    if |s| < 15 || s[8] != 'T' || !OptionalFraction(s[15..]) then None
    else
      match (ParseDate(s[..8]), Field(s, 9, 2), Field(s, 11, 2), Field(s, 13, 2))
      case (Some(date), Some(h), Some(mi), Some(sec)) =>
        if h < 24 && mi < 60 && sec < 60
        then Some(date.(hour := h, minute := mi, second := sec))
        else None
      case _ => None
  }

  /** `time.Parse("20060102T150405Z", s)`: the same followed by a literal `Z`. */
  function ParseDateTimeUtc(s: string): Option<Timestamp>
  {
    if |s| >= 16 && s[|s| - 1] == 'Z' then ParseDateTime(s[..|s| - 1]) else None
  }

  function FormatDate(t: Timestamp): string
    requires 0 <= t.year && 0 <= t.month && 0 <= t.day
  {
    FixedDigits(t.year, 4) + FixedDigits(t.month, 2) + FixedDigits(t.day, 2)
  }

  function FormatDateTime(t: Timestamp): string
    requires Valid(t) && 0 <= t.year
  {
    FormatDate(t) + "T" + FixedDigits(t.hour, 2) + FixedDigits(t.minute, 2) + FixedDigits(t.second, 2)
  }

  /** `Field` reads back what `FixedDigits` wrote. */
  lemma FieldOfFixed(s: string, i: nat, n: nat, w: nat)
    requires n < Pow10(w) && i + w <= |s| && s[i..i + w] == FixedDigits(n, w)
    ensures Field(s, i, w) == Some(n)
  {
    FixedDigitsRoundTrip(n, w);
  }

  /** A `Some` from `Field` is the number whose fixed-width text is that slice. */
  lemma FixedOfField(s: string, i: nat, w: nat)
    requires Field(s, i, w).Some?
    ensures Field(s, i, w).value < Pow10(w)
    ensures s[i..i + w] == FixedDigits(Field(s, i, w).value, w)
  {
    DecimalValueRoundTrip(s[i..i + w]);
  }

  /** Every calendar day of years 0..9999 survives formatting and parsing with the date layout. */
  lemma ParseDateRoundTrip(t: Timestamp)
    requires ValidDate(t.year, t.month, t.day) && 0 <= t.year < 10000
    requires t.hour == 0 && t.minute == 0 && t.second == 0
    ensures ParseDate(FormatDate(t)) == Some(t)
  {
    var s := FormatDate(t);
    assert s[0..4] == FixedDigits(t.year, 4);
    assert s[4..6] == FixedDigits(t.month, 2);
    assert s[6..8] == FixedDigits(t.day, 2);
    FieldOfFixed(s, 0, t.year, 4);
    FieldOfFixed(s, 4, t.month, 2);
    FieldOfFixed(s, 6, t.day, 2);
  }

  /** The date layout accepts exactly the formatted calendar days: nothing else parses. */
  lemma ParseDateExact(s: string)
    requires ParseDate(s).Some?
    ensures var t := ParseDate(s).value;
      ValidDate(t.year, t.month, t.day) && 0 <= t.year < 10000 &&
      t.hour == 0 && t.minute == 0 && t.second == 0 && FormatDate(t) == s
  {
    FixedOfField(s, 0, 4);
    FixedOfField(s, 4, 2);
    FixedOfField(s, 6, 2);
    assert s == s[0..4] + s[4..6] + s[6..8];
  }

  /**
   * Every valid time of years 0..9999 survives the `20060102T150405` layout,
   * with or without a fractional second after it.
   */
  lemma ParseDateTimeRoundTrip(t: Timestamp, f: string)
    requires Valid(t) && 0 <= t.year < 10000 && OptionalFraction(f)
    ensures ParseDateTime(FormatDateTime(t) + f) == Some(t)
  {
    var s := FormatDateTime(t) + f;
    var d := t.(hour := 0, minute := 0, second := 0);
    assert s[..8] == FormatDate(d);
    assert s[15..] == f;
    ParseDateRoundTrip(d);
    assert s[9..11] == FixedDigits(t.hour, 2);
    assert s[11..13] == FixedDigits(t.minute, 2);
    assert s[13..15] == FixedDigits(t.second, 2);
    FieldOfFixed(s, 9, t.hour, 2);
    FieldOfFixed(s, 11, t.minute, 2);
    FieldOfFixed(s, 13, t.second, 2);
  }

  /**
   * The `20060102T150405` layout accepts exactly the formatted valid times,
   * each optionally followed by a fractional second.
   */
  lemma ParseDateTimeExact(s: string)
    requires ParseDateTime(s).Some?
    ensures var t := ParseDateTime(s).value;
      Valid(t) && 0 <= t.year < 10000 &&
      |s| >= 15 && s[..15] == FormatDateTime(t) && OptionalFraction(s[15..])
  {
    ParseDateExact(s[..8]);
    FixedOfField(s, 9, 2);
    FixedOfField(s, 11, 2);
    FixedOfField(s, 13, 2);
    assert s[..15] == s[..8] + "T" + s[9..11] + s[11..13] + s[13..15];
  }

  /**
   * Every valid time of years 0..9999 survives the `20060102T150405Z` layout,
   * with or without a fractional second before the `Z`.
   */
  lemma ParseDateTimeUtcRoundTrip(t: Timestamp, f: string)
    requires Valid(t) && 0 <= t.year < 10000 && OptionalFraction(f)
    ensures ParseDateTimeUtc(FormatDateTime(t) + f + "Z") == Some(t)
  {
    var s := FormatDateTime(t) + f + "Z";
    assert s[..|s| - 1] == FormatDateTime(t) + f;
    ParseDateTimeRoundTrip(t, f);
  }

  /**
   * The `20060102T150405Z` layout accepts exactly the formatted valid times,
   * each optionally with a fractional second before the `Z`.
   */
  lemma ParseDateTimeUtcExact(s: string)
    requires ParseDateTimeUtc(s).Some?
    ensures var t := ParseDateTimeUtc(s).value;
      Valid(t) && 0 <= t.year < 10000 &&
      |s| >= 16 && s[..15] == FormatDateTime(t) && OptionalFraction(s[15..|s| - 1]) && s[|s| - 1] == 'Z'
  {
    var body := s[..|s| - 1];
    ParseDateTimeExact(body);
    assert body[..15] == s[..15] && body[15..] == s[15..|s| - 1];
  }
}

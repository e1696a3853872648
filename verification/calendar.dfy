/**
 * The proleptic Gregorian calendar as Python's datetime sees it: whole-second
 * timestamps counted from 1970-01-01T00:00, their broken-down date and time,
 * and the strftime/strptime layouts the archive tools use.
 */
module Calendar {
  import opened Wrappers
  import opened Decimal

  const SecondsPerDay: int := 86400

  datatype DateTime = DateTime(year: int, month: int, day: int, hour: int, minute: int, second: int)

  predicate IsLeapYear(y: int)
  {
    y % 4 == 0 && (y % 100 != 0 || y % 400 == 0)
  }

  function YearLength(y: int): int
  {
    if IsLeapYear(y) then 366 else 365
  }

  /** Days of year y before the first of month m; m == 13 gives the whole year. */
  function DaysBeforeMonth(y: int, m: int): (r: int)
    requires 1 <= m <= 13
    ensures 0 <= r <= YearLength(y)
    ensures m == 13 ==> r == YearLength(y)
  {
    [0, 31, 59, 90, 120, 151, 181, 212, 243, 273, 304, 334, 365][m - 1]
      + (if m > 2 && IsLeapYear(y) then 1 else 0)
  }

  function DaysInMonth(y: int, m: int): int
    requires 1 <= m <= 12
  {
    DaysBeforeMonth(y, m + 1) - DaysBeforeMonth(y, m)
  }

  /** A date and time that datetime can hold (any year; the field ranges of a real calendar). */
  predicate Valid(t: DateTime)
  {
    && 1 <= t.month <= 12
    && 1 <= t.day <= DaysInMonth(t.year, t.month)
    && 0 <= t.hour < 24
    && 0 <= t.minute < 60
    && 0 <= t.second < 60
  }

  /** Days from 1970-01-01 to the first of January of year y (negative before 1970). */
  function DaysBeforeYear(y: int): int
    decreases if y < 1970 then 1970 - y else y - 1970
  {
    if y == 1970 then 0
    else if y > 1970 then DaysBeforeYear(y - 1) + YearLength(y - 1)
    else DaysBeforeYear(y + 1) - YearLength(y)
  }

  lemma DaysBeforeNextYear(y: int)
    ensures DaysBeforeYear(y + 1) == DaysBeforeYear(y) + YearLength(y)
  {
  }

  /** A later year starts at least one whole year later. */
  lemma {:induction false} DaysBeforeYearGrows(y: int, z: int)
    requires y < z
    ensures DaysBeforeYear(z) >= DaysBeforeYear(y) + YearLength(y)
    decreases z - y
  {
    DaysBeforeNextYear(z - 1);
    if y < z - 1 {
      DaysBeforeYearGrows(y, z - 1);
    }
  }

  /** Months start strictly later in the year as the month number grows. */
  lemma DaysBeforeMonthGrows(y: int, a: int, b: int)
    requires 1 <= a < b <= 13
    ensures DaysBeforeMonth(y, a) < DaysBeforeMonth(y, b)
  {
  }

  /**
   * The year holding day d, where d counts from the first of January of year y,
   * and the day's index within that year.
   */
  function LocateYear(y: int, d: int): (r: (int, int))
    ensures 0 <= r.1 < YearLength(r.0)
    ensures DaysBeforeYear(r.0) + r.1 == DaysBeforeYear(y) + d
    decreases if d < 0 then 400 - d else d
  {
    if d < 0 then
      DaysBeforeNextYear(y - 1);
      LocateYear(y - 1, d + YearLength(y - 1))
    else if d >= YearLength(y) then
      DaysBeforeNextYear(y);
      LocateYear(y + 1, d - YearLength(y))
    else (y, d)
  }

  /** The month, at or after m, that holds day index doy of year y. */
  function LocateMonth(y: int, doy: int, m: int): (r: int)
    requires 0 <= doy < YearLength(y)
    requires 1 <= m <= 12 && DaysBeforeMonth(y, m) <= doy
    ensures m <= r <= 12
    ensures DaysBeforeMonth(y, r) <= doy < DaysBeforeMonth(y, r + 1)
    decreases 12 - m
  {
    if doy < DaysBeforeMonth(y, m + 1) then m else LocateMonth(y, doy, m + 1)
  }

  /** datetime.fromtimestamp(ts, tz=timezone.utc) for a whole-second timestamp. */
  function FromTimestamp(ts: int): (t: DateTime)
    ensures Valid(t)
  {
    var days, secs := ts / SecondsPerDay, ts % SecondsPerDay;
    var (y, doy) := LocateYear(1970, days);
    var m := LocateMonth(y, doy, 1);
    DateTime(y, m, doy - DaysBeforeMonth(y, m) + 1, secs / 3600, secs % 3600 / 60, secs % 60)
  }

  /** The timestamp of a date and time: its distance in seconds from 1970-01-01T00:00. */
  function ToTimestamp(t: DateTime): int
    requires 1 <= t.month <= 12
  {
    (DaysBeforeYear(t.year) + DaysBeforeMonth(t.year, t.month) + t.day - 1) * SecondsPerDay
      + t.hour * 3600 + t.minute * 60 + t.second
  }

  /** Every timestamp is the timestamp of its own date and time. */
  lemma TimestampRoundTrip(ts: int)
    ensures ToTimestamp(FromTimestamp(ts)) == ts
  {
    var days, secs := ts / SecondsPerDay, ts % SecondsPerDay;
    var (y, doy) := LocateYear(1970, days);
    assert DaysBeforeYear(1970) == 0;
    assert secs == secs / 3600 * 3600 + secs % 3600 / 60 * 60 + secs % 60;
  }

  /** A day number has one position only: one year and one index within it. */
  lemma YearPositionUnique(y: int, d: int, z: int, e: int)
    requires 0 <= d < YearLength(y) && 0 <= e < YearLength(z)
    requires DaysBeforeYear(y) + d == DaysBeforeYear(z) + e
    ensures y == z && d == e
  {
    if y < z {
      DaysBeforeYearGrows(y, z);
    } else if z < y {
      DaysBeforeYearGrows(z, y);
    }
  }

  /** A day index of a year lies in one month only. */
  lemma MonthPositionUnique(y: int, doy: int, m: int, n: int)
    requires 1 <= m <= 12 && 1 <= n <= 12
    requires DaysBeforeMonth(y, m) <= doy < DaysBeforeMonth(y, m + 1)
    requires DaysBeforeMonth(y, n) <= doy < DaysBeforeMonth(y, n + 1)
    ensures m == n
  {
    if m < n {
      DaysBeforeMonthGrows(y, m + 1, n);
    } else if n < m {
      DaysBeforeMonthGrows(y, n + 1, m);
    }
  }

  /** Splitting a second of the day into hours, minutes and seconds. */
  lemma ClockSplit(h: int, mi: int, s: int)
    requires 0 <= h < 24 && 0 <= mi < 60 && 0 <= s < 60
    ensures var secs := h * 3600 + mi * 60 + s;
      0 <= secs < SecondsPerDay && secs / 3600 == h && secs % 3600 / 60 == mi && secs % 60 == s
  {
    var secs := h * 3600 + mi * 60 + s;
    DivModUnique(secs, 3600, h, mi * 60 + s);
    DivModUnique(mi * 60 + s, 60, mi, s);
    DivModUnique(secs, 60, h * 60 + mi, s);
  }

  /** Every valid date and time is the date and time of its own timestamp. */
  lemma DateTimeRoundTrip(t: DateTime)
    requires Valid(t)
    ensures FromTimestamp(ToTimestamp(t)) == t
  {
    var ts := ToTimestamp(t);
    var doy := DaysBeforeMonth(t.year, t.month) + t.day - 1;
    var days := DaysBeforeYear(t.year) + doy;
    var secs := t.hour * 3600 + t.minute * 60 + t.second;
    ClockSplit(t.hour, t.minute, t.second);
    assert ts == days * SecondsPerDay + secs;
    DivModUnique(ts, SecondsPerDay, days, secs);
    var (y, d) := LocateYear(1970, days);
    assert DaysBeforeYear(1970) == 0;
    YearPositionUnique(y, d, t.year, doy);
    var m := LocateMonth(y, d, 1);
    MonthPositionUnique(y, d, m, t.month);
  }

  /** Distinct valid dates and times have distinct timestamps. */
  lemma TimestampInjective(a: DateTime, b: DateTime)
    requires Valid(a) && Valid(b) && ToTimestamp(a) == ToTimestamp(b)
    ensures a == b
  {
    DateTimeRoundTrip(a);
    DateTimeRoundTrip(b);
  }

  /** The year as strftime's %Y prints it: four digits at least. */
  function YearDigits(y: int): string
  {
    Pad(if y < 0 then -y else y, 4)
  }

  /** strftime("%Y%m%d"). */
  function DateString(t: DateTime): string
    requires Valid(t)
  {
    YearDigits(t.year) + Pad(t.month, 2) + Pad(t.day, 2)
  }

  /** Years 1 to 9999 print "%Y%m%d" in eight characters. */
  lemma DateStringWidth(t: DateTime)
    requires Valid(t) && 1 <= t.year <= 9999
    ensures |DateString(t)| == 8
  {
    PadExactWidth(t.year, 4);
    PadExactWidth(t.month, 2);
    PadExactWidth(t.day, 2);
  }

  /** strftime("%H00"): the hour followed by a literal "00". */
  function HourString(t: DateTime): string
    requires Valid(t)
  {
    Pad(t.hour, 2) + "00"
  }

  /** strftime("%H%M"). */
  function HourMinuteString(t: DateTime): string
    requires Valid(t)
  {
    Pad(t.hour, 2) + Pad(t.minute, 2)
  }

  /** strftime("%y%m%d%H00"): two-digit year, month, day, hour and a literal "00". */
  function LabelString(t: DateTime): string
    requires Valid(t)
  {
    Pad(t.year % 100, 2) + Pad(t.month, 2) + Pad(t.day, 2) + Pad(t.hour, 2) + "00"
  }

  /**
   * datetime.strptime(key, "%Y%m%d:%H%M") on the fixed-width form: eight digits,
   * a colon, four digits, naming a real date of years 1 to 9999 and a time of day.
   */
  function ParseForecastKey(key: string): (r: Option<DateTime>)
    ensures r.Some? ==> Valid(r.value) && r.value.second == 0 && 1 <= r.value.year <= 9999
  {
    if |key| == 13 && key[8] == ':' && AllDigits(key[..8]) && AllDigits(key[9..]) then
      CheckedDateTime(DateTime(ParseDigits(key[..4]), ParseDigits(key[4..6]), ParseDigits(key[6..8]),
                               ParseDigits(key[9..11]), ParseDigits(key[11..]), 0))
    else None
  }

  /** The fields strptime accepts: a real calendar date from year 1 on. */
  function CheckedDateTime(t: DateTime): (r: Option<DateTime>)
    ensures r.Some? ==> r.value == t && Valid(t) && 1 <= t.year
  {
    if 1 <= t.year && Valid(t) then Some(t) else None
  }

  /** The key strftime("%Y%m%d:%H%M") would print for a date and time. */
  function ForecastKey(t: DateTime): string
    requires Valid(t)
  {
    DateString(t) + ":" + HourMinuteString(t)
  }

  /** The five fields of a fixed-width key, around the colon at index 8. */
  lemma SplitKey(key: string)
    requires |key| == 13 && key[8] == ':'
    ensures key == key[..4] + key[4..6] + key[6..8] + ":" + key[9..11] + key[11..]
  {
  }

  /** Parsing a key and printing it back gives the key itself. */
  lemma ParsedKeyPrintsBack(key: string)
    requires ParseForecastKey(key).Some?
    ensures ForecastKey(ParseForecastKey(key).value) == key
  {
    var t := ParseForecastKey(key).value;
    var ys, ms, ds, hs, mins := key[..4], key[4..6], key[6..8], key[9..11], key[11..];
    assert AllDigits(key[..8]) && AllDigits(key[9..]);
    assert AllDigits(ys) && AllDigits(ms) && AllDigits(ds) by {
      assert forall i | 0 <= i < 4 :: ys[i] == key[..8][i];
      assert forall i | 0 <= i < 2 :: ms[i] == key[..8][i + 4] && ds[i] == key[..8][i + 6];
    }
    assert AllDigits(hs) && AllDigits(mins) by {
      assert forall i | 0 <= i < 2 :: hs[i] == key[9..][i] && mins[i] == key[9..][i + 2];
    }
    assert t.year == ParseDigits(ys) && t.month == ParseDigits(ms) && t.day == ParseDigits(ds);
    assert t.hour == ParseDigits(hs) && t.minute == ParseDigits(mins);
    PadOfParseDigits(ys);
    PadOfParseDigits(ms);
    PadOfParseDigits(ds);
    PadOfParseDigits(hs);
    PadOfParseDigits(mins);
    assert DateString(t) == ys + ms + ds;
    assert HourMinuteString(t) == hs + mins;
    SplitKey(key);
  }

  /** Printing a date and time and parsing the key back gives the date and time. */
  lemma PrintedKeyParsesBack(t: DateTime)
    requires Valid(t) && t.second == 0 && 1 <= t.year <= 9999
    ensures ParseForecastKey(ForecastKey(t)) == Some(t)
  {
    var ys, ms, ds, hs, mins := Pad(t.year, 4), Pad(t.month, 2), Pad(t.day, 2), Pad(t.hour, 2), Pad(t.minute, 2);
    assert ForecastKey(t) == ys + ms + ds + ":" + hs + mins;
    PadExactWidth(t.year, 4);
    PadExactWidth(t.month, 2);
    PadExactWidth(t.day, 2);
    PadExactWidth(t.hour, 2);
    PadExactWidth(t.minute, 2);
    ParseJoinedKey(ys, ms, ds, hs, mins);
    assert DateTime(ParseDigits(ys), ParseDigits(ms), ParseDigits(ds), ParseDigits(hs), ParseDigits(mins), 0) == t;
  }

  /** A key joined from fixed-width digit fields parses field by field. */
  lemma ParseJoinedKey(ys: string, ms: string, ds: string, hs: string, mins: string)
    requires |ys| == 4 && |ms| == 2 && |ds| == 2 && |hs| == 2 && |mins| == 2
    requires AllDigits(ys) && AllDigits(ms) && AllDigits(ds) && AllDigits(hs) && AllDigits(mins)
    ensures ParseForecastKey(ys + ms + ds + ":" + hs + mins)
         == CheckedDateTime(DateTime(ParseDigits(ys), ParseDigits(ms), ParseDigits(ds), ParseDigits(hs), ParseDigits(mins), 0))
  {
    var date, time := ys + ms + ds, hs + mins;
    var key := date + ":" + time;
    assert key == ys + ms + ds + ":" + hs + mins;
    assert key[..8] == date && key[9..] == time;
    assert date[..4] == ys && date[4..6] == ms && date[6..] == ds;
    assert time[..2] == hs && time[2..] == mins;
    assert key[..4] == ys && key[4..6] == ms && key[6..8] == ds;
    assert key[8] == ':' && key[9..11] == hs && key[11..] == mins;
    AllDigitsConcat(ys, ms);
    AllDigitsConcat(ys + ms, ds);
    AllDigitsConcat(hs, mins);
    assert |key| == 13 && AllDigits(key[..8]) && AllDigits(key[9..]);
  }

  /** Two keys that parse to the same date and time are the same key. */
  lemma ForecastKeyInjective(k1: string, k2: string)
    requires ParseForecastKey(k1).Some? && ParseForecastKey(k1) == ParseForecastKey(k2)
    ensures k1 == k2
  {
    ParsedKeyPrintsBack(k1);
    ParsedKeyPrintsBack(k2);
  }
}

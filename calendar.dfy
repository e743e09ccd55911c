/** The proleptic Gregorian calendar of Python's `datetime`, in UTC: civil date-times,
    their distance in seconds from 1970-01-01 00:00:00 and back, and the `strftime`
    layouts the modelled code uses. */
module Calendar {
  import opened Results
  import opened Text

  datatype DateTime = DateTime(year: int, month: int, day: int, hour: int, minute: int, second: int)

  predicate IsLeap(y: int) {
    y % 4 == 0 && (y % 100 != 0 || y % 400 == 0)
  }

  function YearLength(y: int): int {
    if IsLeap(y) then 366 else 365
  }

  function DaysInMonth(y: int, m: int): int
    requires 1 <= m <= 12
  {
    if m == 2 then (if IsLeap(y) then 29 else 28)
    else if m == 4 || m == 6 || m == 9 || m == 11 then 30
    else 31
  }

  /** Days of year `y` before the first of month `m`. */
  function DaysBeforeMonth(y: int, m: int): int
    requires 1 <= m <= 12
  {
    var leap := if m > 2 && IsLeap(y) then 1 else 0;
    leap + (if m == 1 then 0 else if m == 2 then 31 else if m == 3 then 59 else if m == 4 then 90
            else if m == 5 then 120 else if m == 6 then 151 else if m == 7 then 181 else if m == 8 then 212
            else if m == 9 then 243 else if m == 10 then 273 else if m == 11 then 304 else 334)
  }

  /** The fields `datetime.datetime(...)` accepts: years 1 to 9999 and in-range fields. */
  predicate Valid(dt: DateTime) {
    && 1 <= dt.year <= 9999
    && 1 <= dt.month <= 12
    && 1 <= dt.day <= DaysInMonth(dt.year, dt.month)
    && 0 <= dt.hour < 24
    && 0 <= dt.minute < 60
    && 0 <= dt.second < 60
  }

  /** Days from 0001-01-01 to January 1 of year `y`. */
  function DaysBeforeYear(y: int): int {
    var p := y - 1;
    365 * p + p / 4 - p / 100 + p / 400
  }

  /** `DaysBeforeYear(1970)`: the day index of the Unix epoch. */
  const EpochDayIndex: int := 719162

  /** Days from 1970-01-01 to the given date (negative before it). */
  function DaysFromCivil(y: int, m: int, d: int): int
    requires 1 <= m <= 12
  {
    DaysBeforeYear(y) + DaysBeforeMonth(y, m) + d - 1 - EpochDayIndex
  }

  /** What `calendar.timegm(dt.timetuple())` computes. */
  function EpochSeconds(dt: DateTime): int
    requires 1 <= dt.month <= 12
  {
    DaysFromCivil(dt.year, dt.month, dt.day) * 86400 + dt.hour * 3600 + dt.minute * 60 + dt.second
  }

  lemma {:induction false} EpochIsDayZero()
    ensures DaysBeforeYear(1970) == EpochDayIndex
    ensures EpochSeconds(DateTime(1970, 1, 1, 0, 0, 0)) == 0
  {
  }

  // ----- from seconds back to the civil fields -----

  lemma {:induction false} DivStep(p: int)
    ensures (p + 1) / 4 - p / 4 == if (p + 1) % 4 == 0 then 1 else 0
    ensures (p + 1) / 100 - p / 100 == if (p + 1) % 100 == 0 then 1 else 0
    ensures (p + 1) / 400 - p / 400 == if (p + 1) % 400 == 0 then 1 else 0
  {
  }

  /** Consecutive new years are one year length apart. */
  lemma {:induction false} YearStep(y: int)
    ensures DaysBeforeYear(y + 1) == DaysBeforeYear(y) + YearLength(y)
  {
    DivStep(y - 1);
    assert DaysBeforeYear(y + 1) - DaysBeforeYear(y)
        == 365 + (y / 4 - (y - 1) / 4) - (y / 100 - (y - 1) / 100) + (y / 400 - (y - 1) / 400);
    MultipleOf(y, 100, 4);
    MultipleOf(y, 400, 100);
  }

  lemma {:induction false} MultipleOf(y: int, big: int, small: int)
    requires (big == 100 && small == 4) || (big == 400 && small == 100)
    ensures y % big == 0 ==> y % small == 0
  {
    if y % big == 0 {
      var k := y / big;
      assert y == big * k;
      if big == 100 {
        assert y == 4 * (25 * k);
      } else {
        assert y == 100 * (4 * k);
      }
    }
  }

  lemma {:induction false} DaysBeforeYearMonotone(a: int, b: int)
    requires a <= b
    ensures DaysBeforeYear(a) <= DaysBeforeYear(b)
    decreases b - a
  {
    if a < b {
      YearStep(a);
      DaysBeforeYearMonotone(a + 1, b);
    }
  }

  /** The year holding day index `z`, searched for from year `y`. */
  function FindYear(z: int, y: int): (r: int)
    ensures DaysBeforeYear(r) <= z < DaysBeforeYear(r + 1)
    decreases if z < DaysBeforeYear(y) then 1 else 0,
              if z < DaysBeforeYear(y) then DaysBeforeYear(y) - z else z - DaysBeforeYear(y)
  {
    YearStep(y);
    YearStep(y - 1);
    if z < DaysBeforeYear(y) then FindYear(z, y - 1)
    else if z >= DaysBeforeYear(y + 1) then FindYear(z, y + 1)
    else y
  }

  /** A day index lies in exactly one year. */
  lemma {:induction false} YearUnique(z: int, a: int, b: int)
    requires DaysBeforeYear(a) <= z < DaysBeforeYear(a + 1)
    requires DaysBeforeYear(b) <= z < DaysBeforeYear(b + 1)
    ensures a == b
  {
    if a < b {
      DaysBeforeYearMonotone(a + 1, b);
    } else if b < a {
      DaysBeforeYearMonotone(b + 1, a);
    }
  }

  lemma {:induction false} MonthStep(y: int, m: int)
    requires 1 <= m <= 12
    ensures m < 12 ==> DaysBeforeMonth(y, m + 1) == DaysBeforeMonth(y, m) + DaysInMonth(y, m)
    ensures m == 12 ==> DaysBeforeMonth(y, m) + DaysInMonth(y, m) == YearLength(y)
  {
  }

  /** The month holding day `doy` (0-based) of year `y`, searched for from month `m`. */
  function FindMonth(y: int, doy: int, m: int): (r: int)
    requires 1 <= m <= 12
    requires DaysBeforeMonth(y, m) <= doy < YearLength(y)
    ensures m <= r <= 12
    ensures DaysBeforeMonth(y, r) <= doy < DaysBeforeMonth(y, r) + DaysInMonth(y, r)
    decreases 12 - m
  {
    MonthStep(y, m);
    if m == 12 || doy < DaysBeforeMonth(y, m + 1) then m else FindMonth(y, doy, m + 1)
  }

  lemma {:induction false} MonthsOrdered(y: int, a: int, b: int)
    requires 1 <= a < b <= 12
    ensures DaysBeforeMonth(y, a) + DaysInMonth(y, a) <= DaysBeforeMonth(y, b)
    decreases b - a
  {
    MonthStep(y, a);
    if a + 1 < b {
      MonthsOrdered(y, a + 1, b);
    }
  }

  /** A day of the year lies in exactly one month. */
  lemma {:induction false} MonthUnique(y: int, doy: int, a: int, b: int)
    requires 1 <= a <= 12 && 1 <= b <= 12
    requires DaysBeforeMonth(y, a) <= doy < DaysBeforeMonth(y, a) + DaysInMonth(y, a)
    requires DaysBeforeMonth(y, b) <= doy < DaysBeforeMonth(y, b) + DaysInMonth(y, b)
    ensures a == b
  {
    if a < b {
      MonthsOrdered(y, a, b);
    } else if b < a {
      MonthsOrdered(y, b, a);
    }
  }

  /** The civil date (year, month, day) of a day number counted from 1970-01-01. */
  function CivilFromDays(days: int): (r: (int, int, int))
    ensures 1 <= r.1 <= 12 && 1 <= r.2 <= DaysInMonth(r.0, r.1)
    ensures DaysFromCivil(r.0, r.1, r.2) == days
  {
    var z := days + EpochDayIndex;
    var y := FindYear(z, 1970);
    YearStep(y);
    var doy := z - DaysBeforeYear(y);
    var m := FindMonth(y, doy, 1);
    (y, m, doy - DaysBeforeMonth(y, m) + 1)
  }

  /** Converting a valid date to a day number and back gives the same date. */
  lemma {:induction false} DaysRoundTrip(y: int, m: int, d: int)
    requires 1 <= m <= 12 && 1 <= d <= DaysInMonth(y, m)
    ensures CivilFromDays(DaysFromCivil(y, m, d)) == (y, m, d)
  {
    var z := DaysFromCivil(y, m, d) + EpochDayIndex;
    MonthStep(y, m);
    if m < 12 {
      MonthsOrdered(y, m, 12);
      MonthStep(y, 12);
    }
    YearStep(y);
    var y' := FindYear(z, 1970);
    YearUnique(z, y', y);
    var doy := z - DaysBeforeYear(y);
    var m' := FindMonth(y, doy, 1);
    MonthUnique(y, doy, m', m);
  }

  lemma {:induction false} SplitSecondsOfDay(x: int)
    requires 0 <= x < 86400
    ensures 0 <= x / 3600 < 24 && 0 <= x % 3600 / 60 < 60 && 0 <= x % 60 < 60
    ensures x == x / 3600 * 3600 + x % 3600 / 60 * 60 + x % 60
  {
  }

  /** What `datetime.datetime.utcfromtimestamp(t)` computes, before its range check on the year. */
  function CivilFromSeconds(t: int): (dt: DateTime)
    ensures 1 <= dt.month <= 12 && 1 <= dt.day <= DaysInMonth(dt.year, dt.month)
    ensures 0 <= dt.hour < 24 && 0 <= dt.minute < 60 && 0 <= dt.second < 60
    ensures EpochSeconds(dt) == t
  {
    var date := CivilFromDays(t / 86400);
    var secs := t % 86400;
    SplitSecondsOfDay(secs);
    DateTime(date.0, date.1, date.2, secs / 3600, secs % 3600 / 60, secs % 60)
  }

  lemma {:induction false} SecondsOfDay(h: int, mi: int, s: int)
    requires 0 <= h < 24 && 0 <= mi < 60 && 0 <= s < 60
    ensures var x := h * 3600 + mi * 60 + s; 0 <= x < 86400 && x / 3600 == h && x % 3600 / 60 == mi && x % 60 == s
  {
  }

  lemma {:induction false} DayAndSecond(e: int, x: int)
    requires 0 <= x < 86400
    ensures (e * 86400 + x) / 86400 == e && (e * 86400 + x) % 86400 == x
  {
  }

  /** Converting a valid date-time to seconds and back gives the same fields. */
  lemma {:induction false} CivilRoundTrip(dt: DateTime)
    requires Valid(dt)
    ensures CivilFromSeconds(EpochSeconds(dt)) == dt
  {
    var e := DaysFromCivil(dt.year, dt.month, dt.day);
    var x := dt.hour * 3600 + dt.minute * 60 + dt.second;
    SecondsOfDay(dt.hour, dt.minute, dt.second);
    DayAndSecond(e, x);
    assert EpochSeconds(dt) == e * 86400 + x;
    DaysRoundTrip(dt.year, dt.month, dt.day);
  }

  // ----- the range of datetime -----

  /** The epoch seconds of 0001-01-01 00:00:00 and of 9999-12-31 23:59:59, the first and
      last seconds a `datetime` can hold. */
  const MinSecond: int := -62135596800
  const MaxSecond: int := 253402300799

  /** A date of year `y` lies between the first day of `y` and the first day of `y + 1`. */
  lemma {:induction false} DayInYear(y: int, m: int, d: int)
    requires 1 <= m <= 12 && 1 <= d <= DaysInMonth(y, m)
    ensures DaysBeforeYear(y) <= DaysFromCivil(y, m, d) + EpochDayIndex < DaysBeforeYear(y + 1)
  {
    MonthStep(y, m);
    if m < 12 {
      MonthsOrdered(y, m, 12);
      MonthStep(y, 12);
    }
    YearStep(y);
  }

  /** The two ends of the range are the seconds of the first and last valid date-times. */
  lemma {:induction false} RangeEnds()
    ensures Valid(DateTime(1, 1, 1, 0, 0, 0)) && EpochSeconds(DateTime(1, 1, 1, 0, 0, 0)) == MinSecond
    ensures Valid(DateTime(9999, 12, 31, 23, 59, 59)) && EpochSeconds(DateTime(9999, 12, 31, 23, 59, 59)) == MaxSecond
  {
    assert DaysBeforeYear(1) == 0;
    assert DaysBeforeYear(9999) == 3651694;
  }

  /** `utcfromtimestamp(t)` accepts `t` (its year lies in 1..9999) exactly when `t` lies in
      the range of `datetime`. */
  lemma {:induction false} YearInRange(t: int)
    ensures 1 <= CivilFromSeconds(t).year <= 9999 <==> MinSecond <= t <= MaxSecond
  {
    var dt := CivilFromSeconds(t);
    var days := DaysFromCivil(dt.year, dt.month, dt.day);
    assert t == days * 86400 + (dt.hour * 3600 + dt.minute * 60 + dt.second);
    DayInYear(dt.year, dt.month, dt.day);
    assert DaysBeforeYear(1) == 0;
    assert DaysBeforeYear(10000) == 3652059;
    if dt.year < 1 {
      DaysBeforeYearMonotone(dt.year + 1, 1);
      assert days <= -719163;
    } else if dt.year > 9999 {
      DaysBeforeYearMonotone(10000, dt.year);
      assert days >= 2932897;
    } else {
      DaysBeforeYearMonotone(1, dt.year);
      DaysBeforeYearMonotone(dt.year + 1, 10000);
      assert -719162 <= days <= 2932896;
    }
  }

  /** Every valid date-time lies in the range of `datetime`. */
  lemma {:induction false} ValidInRange(dt: DateTime)
    requires Valid(dt)
    ensures MinSecond <= EpochSeconds(dt) <= MaxSecond
  {
    CivilRoundTrip(dt);
    YearInRange(EpochSeconds(dt));
  }

  // ----- strftime -----

  /** `dt.strftime('%m/%d/%Y %H:%M:%S')`; Python 2 refuses years before 1900. */
  function FormatUtc(dt: DateTime): (r: Result<string>)
    requires Valid(dt)
    ensures r.Err? <==> dt.year < 1900
  {
    if dt.year < 1900 then Err(ValueError)
    else Ok(Pad2(dt.month) + "/" + Pad2(dt.day) + "/" + Pad4(dt.year) + " " +
            Pad2(dt.hour) + ":" + Pad2(dt.minute) + ":" + Pad2(dt.second))
  }

  /** The year-first layouts: `%Y-%m-%d<mid>%H<sep>%M<sep>%S`. */
  function FormatYmd(dt: DateTime, mid: char, sep: char): (s: string)
    requires Valid(dt)
    ensures |s| == 19
  {
    Pad4(dt.year) + "-" + Pad2(dt.month) + "-" + Pad2(dt.day) + [mid] +
    Pad2(dt.hour) + [sep] + Pad2(dt.minute) + [sep] + Pad2(dt.second)
  }

  /** `dt.strftime('%Y-%m-%dT%H:%M:%S')`, the request time layout; Python 2 refuses years before 1900. */
  function FormatApi(dt: DateTime): (r: Result<string>)
    requires Valid(dt)
    ensures r.Err? <==> dt.year < 1900
  {
    if dt.year < 1900 then Err(ValueError) else Ok(FormatYmd(dt, 'T', ':'))
  }

  /** Reads the fixed-width year-first layout back, `None` when it does not fit or names no valid date-time. */
  function ParseYmd(s: string, mid: char, sep: char): (r: Option<DateTime>)
    ensures r.Some? ==> Valid(r.value)
  {
    if |s| != 19 || s[4] != '-' || s[7] != '-' || s[10] != mid || s[13] != sep || s[16] != sep then None
    else
      match (ParseDigits(s[..4]), ParseDigits(s[5..7]), ParseDigits(s[8..10]),
             ParseDigits(s[11..13]), ParseDigits(s[14..16]), ParseDigits(s[17..19]))
      case (Some(y), Some(mo), Some(d), Some(h), Some(mi), Some(sec)) =>
        var dt := DateTime(y, mo, d, h, mi, sec);
        if Valid(dt) then Some(dt) else None
      case _ => None
  }

  lemma {:induction false} ParseFormatYmd(dt: DateTime, mid: char, sep: char)
    requires Valid(dt)
    requires !('0' <= mid <= '9') && !('0' <= sep <= '9')
    ensures ParseYmd(FormatYmd(dt, mid, sep), mid, sep) == Some(dt)
  {
    var s := FormatYmd(dt, mid, sep);
    assert s[..4] == Pad4(dt.year);
    assert s[5..7] == Pad2(dt.month);
    assert s[8..10] == Pad2(dt.day);
    assert s[11..13] == Pad2(dt.hour);
    assert s[14..16] == Pad2(dt.minute);
    assert s[17..19] == Pad2(dt.second);
    Pad4RoundTrip(dt.year);
    Pad2RoundTrip(dt.month);
    Pad2RoundTrip(dt.day);
    Pad2RoundTrip(dt.hour);
    Pad2RoundTrip(dt.minute);
    Pad2RoundTrip(dt.second);
  }

  /** The name stamp of Beiwe data files, `%Y-%m-%d %H_%M_%S`. */
  function FileStamp(dt: DateTime): string
    requires Valid(dt)
  {
    FormatYmd(dt, ' ', '_')
  }

  /** `strptime(token, '%Y-%m-%d %H_%M_%S')` as epoch seconds, for tokens of exactly that
      fixed width; `None` for what does not fit. */
  function ParseFileStamp(token: string): Option<int> {
    match ParseYmd(token, ' ', '_')
    case None => None
    case Some(dt) => Some(EpochSeconds(dt))
  }

  /** A file stamp reads back as the seconds of the date-time it was written from. */
  lemma {:induction false} FileStampRoundTrip(dt: DateTime)
    requires Valid(dt)
    ensures ParseFileStamp(FileStamp(dt)) == Some(EpochSeconds(dt))
  {
    ParseFormatYmd(dt, ' ', '_');
  }
}

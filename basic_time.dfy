/** The timestamp helpers of basic.py: `make_timestamp` (a UTC civil time to Unix or
    Java time) and `ts_to_utc` (a Unix or Java time to readable UTC text). */
module BasicTime {
  import opened Results
  import opened Text
  import opened Calendar

  /** `make_timestamp(yr, mo, dy, hr, mi, java)`: `datetime.datetime` refuses out-of-range
      fields; seconds are always 0; Java time is in milliseconds. */
  function MakeTimestamp(yr: int, mo: int, dy: int, hr: int, mi: int, java: bool): (r: Result<int>)
    ensures r.Ok? <==> Valid(DateTime(yr, mo, dy, hr, mi, 0))
    ensures r.Err? ==> r.error == ValueError
    ensures r.Ok? ==> r.value == (if java then 1000 else 1) * EpochSeconds(DateTime(yr, mo, dy, hr, mi, 0))
  {
    var dt := DateTime(yr, mo, dy, hr, mi, 0);
    if !Valid(dt) then Err(ValueError)
    else
      var ts := EpochSeconds(dt);
      Ok(if java then ts * 1000 else ts)
  }

  /** A timestamp made by `make_timestamp` falls on a whole minute. */
  lemma {:induction false} MakeTimestampWholeMinutes(yr: int, mo: int, dy: int, hr: int, mi: int, java: bool)
    requires MakeTimestamp(yr, mo, dy, hr, mi, java).Ok?
    ensures MakeTimestamp(yr, mo, dy, hr, mi, java).value % (if java then 60000 else 60) == 0
  {
    var ts := EpochSeconds(DateTime(yr, mo, dy, hr, mi, 0));
    var k := DaysFromCivil(yr, mo, dy) * 1440 + hr * 60 + mi;
    assert ts == 60 * k;
    if java {
      assert ts * 1000 == 60000 * k;
    }
  }

  /** A valid civil time with no seconds has a timestamp. */
  lemma {:induction false} MakeTimestampOfValid(dt: DateTime, java: bool)
    requires Valid(dt) && dt.second == 0
    ensures MakeTimestamp(dt.year, dt.month, dt.day, dt.hour, dt.minute, java) ==
            Ok((if java then 1000 else 1) * EpochSeconds(dt))
  {
  }

  /** The Unix epoch is time 0, in seconds and in milliseconds. */
  lemma {:induction false} MakeTimestampEpoch(java: bool)
    ensures MakeTimestamp(1970, 1, 1, 0, 0, java) == Ok(0)
  {
    var dt := DateTime(1970, 1, 1, 0, 0, 0);
    assert Valid(dt);
    EpochIsDayZero();
    var t := EpochSeconds(dt);
    assert t == 0;
    MakeTimestampOfValid(dt, java);
    assert (if java then 1000 else 1) * t == 0;
  }

  /** Java time is exactly a thousand times Unix time, and both fail together. */
  lemma {:induction false} MakeTimestampJava(yr: int, mo: int, dy: int, hr: int, mi: int)
    ensures MakeTimestamp(yr, mo, dy, hr, mi, true).Ok? == MakeTimestamp(yr, mo, dy, hr, mi, false).Ok?
    ensures MakeTimestamp(yr, mo, dy, hr, mi, false).Ok? ==>
              MakeTimestamp(yr, mo, dy, hr, mi, true).value == 1000 * MakeTimestamp(yr, mo, dy, hr, mi, false).value
  {
  }

  /** Two valid civil times with the same timestamp are the same time: the timestamp loses nothing. */
  lemma {:induction false} MakeTimestampInjective(a: DateTime, b: DateTime, java: bool)
    requires a.second == 0 && b.second == 0
    requires MakeTimestamp(a.year, a.month, a.day, a.hour, a.minute, java).Ok?
    requires MakeTimestamp(a.year, a.month, a.day, a.hour, a.minute, java) ==
             MakeTimestamp(b.year, b.month, b.day, b.hour, b.minute, java)
    ensures a == b
  {
    assert Valid(a) && Valid(b);
    var ta, tb := EpochSeconds(a), EpochSeconds(b);
    assert MakeTimestamp(a.year, a.month, a.day, a.hour, a.minute, java).value == (if java then ta * 1000 else ta);
    assert MakeTimestamp(b.year, b.month, b.day, b.hour, b.minute, java).value == (if java then tb * 1000 else tb);
    assert ta == tb;
    CivilRoundTrip(a);
    CivilRoundTrip(b);
  }

  /** `ts_to_utc(timestamp)`: `None` stays `None`; a value whose decimal text has 13
      characters is taken as milliseconds and floor-divided by 1000 (Python 2 `/=` on an
      int); the result is rendered `%m/%d/%Y %H:%M:%S`. `utcfromtimestamp` refuses years
      outside 1..9999 and Python 2's `strftime` years before 1900. */
  function TsToUtc(timestamp: Option<int>): (r: Option<Result<string>>)
    ensures r.None? <==> timestamp.None?
  {
    match timestamp
    case None => None
    case Some(ts) =>
      var t := if |IntToString(ts)| == 13 then ts / 1000 else ts;
      var dt := CivilFromSeconds(t);
      if !(1 <= dt.year <= 9999) then Some(Err(ValueError))
      else Some(FormatUtc(dt))
  }

  /** For a non-negative value, "13 characters" means 10^12 <= ts < 10^13. */
  lemma {:induction false} ThirteenDigits(ts: int)
    requires ts >= 0
    ensures |IntToString(ts)| == 13 <==> Pow10(12) <= ts < Pow10(13)
  {
    DigitCount(ts, 12);
  }

  /** The days from the epoch to a date of the years 1900 to 9999. */
  lemma {:induction false} DaysOfModernYears(dt: DateTime)
    requires Valid(dt) && dt.year >= 1900
    ensures -25567 <= DaysFromCivil(dt.year, dt.month, dt.day) < 2932897
  {
    var y := dt.year;
    MonthStep(y, dt.month);
    if dt.month < 12 {
      MonthsOrdered(y, dt.month, 12);
      MonthStep(y, 12);
    }
    YearStep(y);
    DaysBeforeYearMonotone(1900, y);
    DaysBeforeYearMonotone(y + 1, 10000);
    assert DaysBeforeYear(1900) == 693595;
    assert DaysBeforeYear(10000) == 3652059;
  }

  /** The Unix times of years 1900 to 9999 span fewer than 13 characters. */
  lemma {:induction false} SecondsAreShort(dt: DateTime)
    requires Valid(dt) && dt.year >= 1900
    ensures -2208988800 <= EpochSeconds(dt) < 253402300800
    ensures |IntToString(EpochSeconds(dt))| < 13
  {
    DaysOfModernYears(dt);
    var days := DaysFromCivil(dt.year, dt.month, dt.day);
    var t := EpochSeconds(dt);
    assert t == days * 86400 + (dt.hour * 3600 + dt.minute * 60 + dt.second);
    assert Pow10(10) == 10000000000;
    assert Pow10(12) == 1000000000000;
    if t < 0 {
      NatToStringLength(-t, 10);
    } else {
      NatToStringLength(t, 12);
    }
  }

  /** Rendering `make_timestamp(yr, mo, dy, hr, mi, java=False)` shows those same fields
      with seconds `00`. */
  lemma {:induction false} TsToUtcOfUnixTime(yr: int, mo: int, dy: int, hr: int, mi: int)
    requires MakeTimestamp(yr, mo, dy, hr, mi, false).Ok? && yr >= 1900
    ensures TsToUtc(Some(MakeTimestamp(yr, mo, dy, hr, mi, false).value)) ==
            Some(Ok(Pad2(mo) + "/" + Pad2(dy) + "/" + Pad4(yr) + " " + Pad2(hr) + ":" + Pad2(mi) + ":00"))
  {
    var dt := DateTime(yr, mo, dy, hr, mi, 0);
    assert Valid(dt);
    var t := EpochSeconds(dt);
    assert MakeTimestamp(yr, mo, dy, hr, mi, false).value == t;
    SecondsAreShort(dt);
    CivilRoundTrip(dt);
    assert CivilFromSeconds(t) == dt;
    assert TsToUtc(Some(t)) == Some(FormatUtc(dt));
    var pre := Pad2(mo) + "/" + Pad2(dy) + "/" + Pad4(yr) + " " + Pad2(hr) + ":" + Pad2(mi);
    assert FormatUtc(dt) == Ok(pre + ":" + Pad2(0));
    ZeroSeconds(pre);
  }

  /** Seconds `00` close the rendered text. */
  lemma {:induction false} ZeroSeconds(pre: string)
    ensures pre + ":" + Pad2(0) == pre + ":00"
  {
    assert Pad2(0) == "00";
    var s := pre + ":" + Pad2(0);
    assert |s| == |pre| + 3;
    assert forall i :: 0 <= i < |s| ==> s[i] == (pre + ":00")[i];
  }

  /** A Java time of 13 digits renders as the Unix time it was made from. */
  lemma {:induction false} TsToUtcOfJavaTime(yr: int, mo: int, dy: int, hr: int, mi: int)
    requires MakeTimestamp(yr, mo, dy, hr, mi, true).Ok? && yr >= 1900
    requires Pow10(12) <= MakeTimestamp(yr, mo, dy, hr, mi, true).value < Pow10(13)
    ensures TsToUtc(Some(MakeTimestamp(yr, mo, dy, hr, mi, true).value)) ==
            TsToUtc(Some(MakeTimestamp(yr, mo, dy, hr, mi, false).value))
  {
    var ms := MakeTimestamp(yr, mo, dy, hr, mi, true).value;
    var s := MakeTimestamp(yr, mo, dy, hr, mi, false).value;
    MakeTimestampJava(yr, mo, dy, hr, mi);
    ThirteenDigits(ms);
    SecondsAreShort(DateTime(yr, mo, dy, hr, mi, 0));
    assert ms == 1000 * s;
    assert ms / 1000 == s;
    MillisecondsDivided(ms);
  }

  /** A 13-character value renders as its thousandth when that has fewer characters. */
  lemma {:induction false} MillisecondsDivided(ts: int)
    requires |IntToString(ts)| == 13 && |IntToString(ts / 1000)| != 13
    ensures TsToUtc(Some(ts)) == TsToUtc(Some(ts / 1000))
  {
  }
}

/**
 * The two derived columns of a song row, computed from raw captured text:
 * the "duration-float" column from the duration and the
 * "released-timestamp" column from the release date.
 */
module Derive {
  import opened Wrappers
  import opened Numeric
  import opened Calendar

  /** Why the release date could not be turned into a timestamp; both abort the run. */
  datatype DateError =
    | InvalidYear(text: string)     // the year text is not an `i32`
    | YearOutOfRange(year: int)     // the `time` crate refuses the year

  /** `s.split_once(c)`: the text before and after the first `c`. */
  function SplitOnce(s: string, c: char): (r: Option<(string, string)>)
    ensures r.None? <==> c !in s
    ensures r.Some? ==> s == r.value.0 + [c] + r.value.1 && c !in r.value.0
  {
    if s == [] then None
    else if s[0] == c then Some(([], s[1..]))
    else match SplitOnce(s[1..], c)
      case None => None
      case Some(parts) => Some(([s[0]] + parts.0, parts.1))
  }

  /** Splitting at the first `c` recovers the parts it was joined from. */
  lemma {:induction false} SplitOnceJoin(a: string, b: string, c: char)
    requires c !in a
    ensures SplitOnce(a + [c] + b, c) == Some((a, b))
  {
    if a != [] {
      assert (a + [c] + b)[1..] == a[1..] + [c] + b;
      assert (a + [c] + b)[0] == a[0] != c;
      SplitOnceJoin(a[1..], b, c);
      assert [a[0]] + a[1..] == a;
    }
  }

  /**
   * The "duration-float" column: "m:s" becomes "m.s" by replacing the first
   * colon with a period; no duration, or one without a colon, gives nothing.
   */
  function DurationFloat(duration: Option<string>): (r: Option<string>)
    ensures r.Some? <==> duration.Some? && ':' in duration.value
    ensures r.Some? ==> |r.value| == |duration.value|
    ensures r.Some? ==> exists k :: 0 <= k < |r.value| && r.value[k] == '.' && duration.value[k] == ':'
                                   && ':' !in duration.value[..k] && r.value[..k] == duration.value[..k]
                                   && r.value[k + 1..] == duration.value[k + 1..]
  {
    match duration
    case None => None
    case Some(d) =>
      match SplitOnce(d, ':')
      case None => None
      case Some(parts) =>
        var r := parts.0 + "." + parts.1;
        assert d[..|parts.0|] == parts.0 && r[..|parts.0|] == parts.0;
        assert d[|parts.0| + 1..] == parts.1 && r[|parts.0| + 1..] == parts.1;
        Some(r)
  }

  /** The month field: `parse::<u8>()` with 0 on failure, then January unless it names a month. */
  function MonthOrJanuary(text: string): (m: int)
    ensures 1 <= m <= 12
    ensures ParseUnsigned(text, U8Max).Some? && 1 <= ParseUnsigned(text, U8Max).value <= 12
            ==> m == ParseUnsigned(text, U8Max).value
    ensures !(ParseUnsigned(text, U8Max).Some? && 1 <= ParseUnsigned(text, U8Max).value <= 12) ==> m == 1
  {
    var month := ParseUnsigned(text, U8Max).GetOr(0);
    if 1 <= month <= 12 then month else 1
  }

  /** The day field: `parse::<u8>()` with 0 on failure, then clamped to 1..27. */
  function DayClamped(text: string): (d: int)
    ensures 1 <= d <= 27
    ensures ParseUnsigned(text, U8Max).Some? && 1 <= ParseUnsigned(text, U8Max).value <= 27
            ==> d == ParseUnsigned(text, U8Max).value
    ensures ParseUnsigned(text, U8Max).Some? && ParseUnsigned(text, U8Max).value > 27 ==> d == 27
    ensures ParseUnsigned(text, U8Max).GetOr(0) == 0 ==> d == 1
  {
    var day := ParseUnsigned(text, U8Max).GetOr(0);
    if day < 1 then 1 else if day > 27 then 27 else day
  }

  /**
   * The date a "released" text denotes: split once on `-` into year and tail;
   * no `-` means no date. The year must parse as an `i32` and lie within the
   * `time` crate's range. A tail without `-` gives 1 January of that year; a
   * tail "M-D" gives month M (January unless 1..12) and day D clamped to 1..27.
   */
  function ReleasedDate(released: string): (r: Result<Option<Date>, DateError>)
    ensures r == Ok(None) <==> '-' !in released
    ensures r.Ok? && r.value.Some? ==> ValidDate(r.value.value) && r.value.value.day <= 27
                                       && MinYear <= r.value.value.year <= MaxYear
  {
    match SplitOnce(released, '-')
    case None => Ok(None)
    case Some(parts) =>
      match ParseSigned(parts.0, I32Min, I32Max)
      case None => Err(InvalidYear(parts.0))
      case Some(year) =>
        var date := match SplitOnce(parts.1, '-')
          case Some(monthDay) => Date(year, MonthOrJanuary(monthDay.0), DayClamped(monthDay.1))
          case None => Date(year, 1, 1);
        if MinYear <= year <= MaxYear then Ok(Some(date)) else Err(YearOutOfRange(year))
  }

  /**
   * The "released-timestamp" value: Unix seconds at midnight UTC of the release
   * date, that is the date's day count from 1970-01-01 times the seconds of a
   * day; no date gives no timestamp, and a date error is passed on.
   */
  function ReleasedTimestamp(released: Option<string>): (r: Result<Option<int>, DateError>)
    ensures released.None? ==> r == Ok(None)
    ensures r.Ok? && r.value.Some? ==> r.value.value % SecondsPerDay == 0
    ensures r.Ok? <==> released.None? || ReleasedDate(released.value).Ok?
    ensures released.Some? && ReleasedDate(released.value) == Ok(None) ==> r == Ok(None)
    ensures released.Some? && ReleasedDate(released.value).Ok? && ReleasedDate(released.value).value.Some?
            ==> r == Ok(Some(UnixDays(ReleasedDate(released.value).value.value) * SecondsPerDay))
    ensures released.Some? && ReleasedDate(released.value).Err? ==> r == Err(ReleasedDate(released.value).error)
  {
    match released
    case None => Ok(None)
    case Some(text) =>
      match ReleasedDate(text)
      case Err(e) => Err(e)
      case Ok(None) => Ok(None)
      case Ok(Some(date)) =>
        WholeDays(UnixDays(date));
        Ok(Some(UnixDays(date) * SecondsPerDay))
  }

  lemma WholeDays(days: int)
    ensures (days * SecondsPerDay) % SecondsPerDay == 0
  {
  }

  /** "Y-M" (a tail without a second `-`): the month is ignored and the date is 1 January of Y. */
  lemma YearMonthIsJanuaryFirst(yearText: string, tail: string, year: int)
    requires '-' !in yearText && '-' !in tail
    requires ParseSigned(yearText, I32Min, I32Max) == Some(year) && MinYear <= year <= MaxYear
    ensures ReleasedDate(yearText + "-" + tail) == Ok(Some(Date(year, 1, 1)))
  {
    SplitOnceJoin(yearText, tail, '-');
    assert SplitOnce(tail, '-').None?;
  }

  /** "Y-M-D": month M unless it is not 1..12, day D clamped; D may itself hold further `-`. */
  lemma YearMonthDay(yearText: string, monthText: string, dayText: string, year: int)
    requires '-' !in yearText && '-' !in monthText
    requires ParseSigned(yearText, I32Min, I32Max) == Some(year) && MinYear <= year <= MaxYear
    ensures ReleasedDate(yearText + "-" + monthText + "-" + dayText)
            == Ok(Some(Date(year, MonthOrJanuary(monthText), DayClamped(dayText))))
  {
    assert yearText + "-" + monthText + "-" + dayText == yearText + ['-'] + (monthText + "-" + dayText);
    SplitOnceJoin(yearText, monthText + "-" + dayText, '-');
    SplitOnceJoin(monthText, dayText, '-');
  }

  /** A year that is not an `i32` aborts, whatever follows it. */
  lemma InvalidYearAborts(yearText: string, tail: string)
    requires '-' !in yearText && ParseSigned(yearText, I32Min, I32Max).None?
    ensures ReleasedDate(yearText + "-" + tail) == Err(InvalidYear(yearText))
  {
    SplitOnceJoin(yearText, tail, '-');
  }

  /** A year that parses as an `i32` but lies outside -9999..9999 aborts, whatever follows it. */
  lemma YearOutOfRangeAborts(yearText: string, tail: string, year: int)
    requires '-' !in yearText && ParseSigned(yearText, I32Min, I32Max) == Some(year)
    requires !(MinYear <= year <= MaxYear)
    ensures ReleasedDate(yearText + "-" + tail) == Err(YearOutOfRange(year))
  {
    SplitOnceJoin(yearText, tail, '-');
  }

  /** "3:45" gives "3.45". */
  lemma DurationFloatMinutesSeconds()
    ensures DurationFloat(Some("3:45")) == Some("3.45")
  {
    SplitOnceJoin("3", "45", ':');
    assert "3:45" == "3" + [':'] + "45";
    assert "3" + "." + "45" == "3.45";
  }

  /** Only the first colon is replaced. */
  lemma DurationFloatFirstColonOnly()
    ensures DurationFloat(Some("1:2:3")) == Some("1.2:3")
  {
    SplitOnceJoin("1", "2:3", ':');
    assert "1:2:3" == "1" + [':'] + "2:3";
    assert "1" + "." + "2:3" == "1.2:3";
  }

  /** No colon, or no duration at all, gives no derived duration. */
  lemma DurationFloatNoColon()
    ensures DurationFloat(Some("bad")) == None
    ensures DurationFloat(None) == None
  {
  }

  lemma ParseYear2001()
    ensures ParseSigned("2001", I32Min, I32Max) == Some(2001)
  {
    ParseIntToString(2001, I32Min, I32Max);
    assert IntToString(2001) == "2001";
  }

  lemma ParseTwoDigits(text: string, value: nat)
    requires |text| == 2 && IsDigit(text[0]) && IsDigit(text[1])
    requires value == DigitValue(text[0]) * 10 + DigitValue(text[1])
    ensures ParseUnsigned(text, U8Max) == Some(value)
  {
    assert text[..1][..0] == [];
    assert DigitsValue(text[..1]) == DigitValue(text[0]);
  }

  lemma DaysIn2001(month: int, day: int)
    requires 1 <= month <= 12
    ensures UnixDays(Date(2001, month, day)) == 11323 + DaysBeforeMonth(2001, month) + day - 1
  {
    assert LeapYearsBefore(2001) == 485;
    assert LeapYearsBefore(1970) == 477;
  }

  lemma FebruaryIn2001()
    ensures DaysBeforeMonth(2001, 2) == 31
  {
  }

  /** 2001-02-15 is 982195200 seconds after the epoch. */
  lemma ReleasedTimestampFullDate()
    ensures ReleasedTimestamp(Some("2001-02-15")) == Ok(Some(982195200))
  {
    assert ReleasedDate("2001-02-15") == Ok(Some(Date(2001, 2, 15))) by {
      ParseYear2001();
      ParseTwoDigits("02", 2);
      ParseTwoDigits("15", 15);
      assert MonthOrJanuary("02") == 2;
      assert DayClamped("15") == 15;
      YearMonthDay("2001", "02", "15", 2001);
      assert "2001-02-15" == "2001" + "-" + "02" + "-" + "15" by {
        assert "2001" + "-" == "2001-";
        assert "2001-" + "02" == "2001-02";
        assert "2001-02" + "-" == "2001-02-";
        assert "2001-02-" + "15" == "2001-02-15";
      }
    }
    assert UnixDays(Date(2001, 2, 15)) * SecondsPerDay == 982195200 by {
      DaysIn2001(2, 15);
      FebruaryIn2001();
    }
  }

  /** "2001-02-99": the day is clamped to 27. */
  lemma ReleasedTimestampClampedDay()
    ensures ReleasedTimestamp(Some("2001-02-99")) == Ok(Some(983232000))
  {
    assert ReleasedDate("2001-02-99") == Ok(Some(Date(2001, 2, 27))) by {
      ParseYear2001();
      ParseTwoDigits("02", 2);
      ParseTwoDigits("99", 99);
      assert MonthOrJanuary("02") == 2;
      assert DayClamped("99") == 27;
      YearMonthDay("2001", "02", "99", 2001);
      assert "2001-02-99" == "2001" + "-" + "02" + "-" + "99" by {
        assert "2001" + "-" == "2001-";
        assert "2001-" + "02" == "2001-02";
        assert "2001-02" + "-" == "2001-02-";
        assert "2001-02-" + "99" == "2001-02-99";
      }
    }
    assert UnixDays(Date(2001, 2, 27)) * SecondsPerDay == 983232000 by {
      DaysIn2001(2, 27);
      FebruaryIn2001();
    }
  }

  /** "2001-13-05": a month outside 1..12 becomes January. */
  lemma ReleasedTimestampBadMonth()
    ensures ReleasedTimestamp(Some("2001-13-05")) == Ok(Some(978652800))
  {
    assert ReleasedDate("2001-13-05") == Ok(Some(Date(2001, 1, 5))) by {
      ParseYear2001();
      ParseTwoDigits("13", 13);
      ParseTwoDigits("05", 5);
      assert MonthOrJanuary("13") == 1;
      assert DayClamped("05") == 5;
      YearMonthDay("2001", "13", "05", 2001);
      assert "2001-13-05" == "2001" + "-" + "13" + "-" + "05" by {
        assert "2001" + "-" == "2001-";
        assert "2001-" + "13" == "2001-13";
        assert "2001-13" + "-" == "2001-13-";
        assert "2001-13-" + "05" == "2001-13-05";
      }
    }
    assert UnixDays(Date(2001, 1, 5)) * SecondsPerDay == 978652800 by {
      DaysIn2001(1, 5);
    }
  }

  /** "2001-07" is 1 January 2001: the month alone is ignored. */
  lemma ReleasedTimestampYearMonth()
    ensures ReleasedTimestamp(Some("2001-07")) == Ok(Some(978307200))
  {
    assert ReleasedDate("2001-07") == Ok(Some(Date(2001, 1, 1))) by {
      ParseYear2001();
      YearMonthIsJanuaryFirst("2001", "07", 2001);
      assert "2001-07" == "2001" + "-" + "07" by {
        assert "2001" + "-" == "2001-";
        assert "2001-" + "07" == "2001-07";
      }
    }
    assert UnixDays(Date(2001, 1, 1)) * SecondsPerDay == 978307200 by {
      DaysIn2001(1, 1);
    }
  }

  /** A bare "2001" has no `-`, so there is no timestamp at all. */
  lemma ReleasedTimestampYearOnly()
    ensures ReleasedTimestamp(Some("2001")) == Ok(None)
  {
    assert '-' !in "2001";
  }
}

/** What the record sanity checker promises, stated over all records, and
    worked examples: whole-day wrap-around, the delay rules, cancelled
    flights and the boolean columns. */
module UtilsProperties {
  import opened Wrappers
  import opened JavaInt
  import opened JavaText
  import opened Utils

  // ---------------------------------------------------------------------
  // Clock readings
  // ---------------------------------------------------------------------

  /** A proper clock reading names a minute of the day, and ToClock gives
      the reading back. */
  lemma ClockRoundTrip(hhmm: int)
    requires 0 <= hhmm <= 2359 && hhmm % 100 < 60
    ensures 0 <= ToMinutes(hhmm) < 1440
    ensures ToClock(ToMinutes(hhmm)) == hhmm
  {
  }

  /** Every minute of the day has a clock reading that ToMinutes maps back
      to it. */
  lemma MinutesRoundTrip(minutes: int)
    requires 0 <= minutes < 1440
    ensures ToMinutes(ToClock(minutes)) == minutes
  {
  }

  // ---------------------------------------------------------------------
  // Boolean columns
  // ---------------------------------------------------------------------

  /** The literals `true` and `false` are not numerals. */
  lemma BooleanLiteralsAreNotNumbers()
    ensures ParseDouble("true").None? && ParseDouble("false").None?
  {
    ParseDoubleRejectsNonNumeral("true");
    ParseDoubleRejectsNonNumeral("false");
  }

  /** A column reads as true exactly when it is a number in [1, 2) or the
      literal `true`. */
  lemma StringToBooleanMeaning(s: string)
    ensures StringToBoolean(s) <==> (ParseDouble(s).Some? && 1.0 <= ParseDouble(s).value < 2.0) || s == "true"
  {
    if s == "true" {
      BooleanLiteralsAreNotNumbers();
    }
  }

  /** A column is a valid boolean string exactly when it is a number in
      [1, 2) or one of the literals `true` and `false`: no number other than
      those truncating to 1 is valid, so `"0"` is not. */
  lemma ValidBooleanStringMeaning(s: string)
    ensures IsValidBooleanString(s) <==>
      (ParseDouble(s).Some? && 1.0 <= ParseDouble(s).value < 2.0) || s == "true" || s == "false"
  {
    if s == "true" || s == "false" {
      BooleanLiteralsAreNotNumbers();
    }
  }

  /** Whatever reads as true is a valid boolean string. */
  lemma TrueIsValid(s: string)
    ensures StringToBoolean(s) ==> IsValidBooleanString(s)
  {
    StringToBooleanMeaning(s);
    ValidBooleanStringMeaning(s);
  }

  // ---------------------------------------------------------------------
  // The three stages
  // ---------------------------------------------------------------------

  /** An empty or all-whitespace place-name column makes the record insane. */
  lemma BlankFieldRejected(record: Record, column: nat)
    requires HasCheckedColumns(record)
    requires column in PresenceColumns && IsBlank(record[column])
    ensures !IsRecordSane(record)
  {
    assert !HasVisibleChar(record[column]);
  }

  /** A missing, non-numeric, out-of-range, zero or negative identifier makes
      the record insane. */
  lemma BadIdRejected(record: Record, column: nat)
    requires HasCheckedColumns(record)
    requires column in IdColumns
    requires ParseInt(record[column]).None? || ParseInt(record[column]).value <= 0
    ensures !IsRecordSane(record)
  {
    assert !IsPositiveInt(record[column]);
  }

  /** Parsed values no larger than this in magnitude never make the int
      subtractions of the time-zone check overflow. */
  const Bound: int := 0x1000_0000

  predicate Bounded(x: int) {
    -Bound <= x <= Bound
  }

  /** The offset check: when the scheduled columns parse and the implied
      offset is not whole hours, the record is rejected unless the cancelled
      column is a valid boolean string. */
  lemma OffsetNotWholeHoursRejected(record: Record)
    requires HasCheckedColumns(record)
    requires ParseInt(record[CrsArrTime]).Some?
    requires ParseInt(record[CrsDepTime]).Some?
    requires ParseInt(record[CrsElapsedTime]).Some?
    requires ScheduledOffset(ParseInt(record[CrsArrTime]).value,
                             ParseInt(record[CrsDepTime]).value,
                             ParseInt(record[CrsElapsedTime]).value) % 60 != 0
    requires !IsValidBooleanString(record[Cancelled])
    ensures !IsTimeZoneValid(record)
  {
    RemZeroIffDivides(ScheduledOffset(ParseInt(record[CrsArrTime]).value,
                                      ParseInt(record[CrsDepTime]).value,
                                      ParseInt(record[CrsElapsedTime]).value));
  }

  /** A cancelled flight passes the time-zone check exactly when its three
      scheduled columns parse; its actual times, elapsed time and delay
      columns are never looked at. */
  lemma CancelledFlight(record: Record)
    requires HasCheckedColumns(record)
    requires StringToBoolean(record[Cancelled])
    ensures IsTimeZoneValid(record) <==>
      && ParseInt(record[CrsArrTime]).Some?
      && ParseInt(record[CrsDepTime]).Some?
      && ParseInt(record[CrsElapsedTime]).Some?
  {
    TrueIsValid(record[Cancelled]);
  }

  /** With bounded parsed values nothing overflows: the Java offset and
      time difference are the mathematical ones, and their truncating
      remainders test divisibility. */
  lemma ExactTimeArithmetic(crsArr: int, crsDep: int, crsElapsed: int, arr: int, dep: int, actElapsed: int)
    requires Bounded(crsArr) && Bounded(crsDep) && Bounded(crsElapsed)
    requires Bounded(arr) && Bounded(dep) && Bounded(actElapsed)
    ensures
      var offset := ToMinutes(crsArr) - ToMinutes(crsDep) - crsElapsed;
      var drift := ToMinutes(arr) - ToMinutes(dep) - actElapsed - offset;
      && ScheduledOffset(crsArr, crsDep, crsElapsed) == offset
      && (Rem(ScheduledOffset(crsArr, crsDep, crsElapsed), 60) == 0 <==> offset % 60 == 0)
      && (TimeDiff(arr, dep, actElapsed, ScheduledOffset(crsArr, crsDep, crsElapsed)) == 0 <==> drift % 1440 == 0)
  {
    var offset := ToMinutes(crsArr) - ToMinutes(crsDep) - crsElapsed;
    assert IsInt32(offset);
    RemZeroIffDivides(offset);
    assert IsInt32(ToMinutes(arr) - ToMinutes(dep) - actElapsed - offset);
  }

  /** A stepping stone to NotCancelledFlight: a flight that was not
      cancelled and whose scheduled columns parse passes the time-zone check
      when the offset is whole hours (or the
      cancelled column is a valid boolean string) and its actual times pass. */
  lemma NotCancelledBranch(record: Record)
    requires HasCheckedColumns(record)
    requires !StringToBoolean(record[Cancelled])
    requires ParseInt(record[CrsArrTime]).Some?
    requires ParseInt(record[CrsDepTime]).Some?
    requires ParseInt(record[CrsElapsedTime]).Some?
    ensures
      var timeZone := ScheduledOffset(ParseInt(record[CrsArrTime]).value,
                                      ParseInt(record[CrsDepTime]).value,
                                      ParseInt(record[CrsElapsedTime]).value);
      IsTimeZoneValid(record) <==>
        && (Rem(timeZone, 60) == 0 || IsValidBooleanString(record[Cancelled]))
        && ActualTimesValid(record, timeZone)
  {
  }

  /** A stepping stone to NotCancelledFlight: once the actual columns
      parse, the actual times pass exactly when the
      time difference is zero and the delay columns agree. */
  lemma ActualTimesMeaning(record: Record, timeZone: int)
    requires HasCheckedColumns(record) && IsInt32(timeZone)
    requires ParseInt(record[ArrTime]).Some?
    requires ParseInt(record[DepTime]).Some?
    requires ParseInt(record[ActElapsedTime]).Some?
    requires ParseDouble(record[ArrDelay]).Some? && ParseDouble(record[ArrDelMinutes]).Some?
    ensures ActualTimesValid(record, timeZone) <==>
      && TimeDiff(ParseInt(record[ArrTime]).value, ParseInt(record[DepTime]).value,
                  ParseInt(record[ActElapsedTime]).value, timeZone) == 0
      && DelaysConsistent(ParseDouble(record[ArrDelay]).value,
                          ParseDouble(record[ArrDelMinutes]).value,
                          StringToBoolean(record[ArrDel15]))
  {
  }

  /** The time-zone check of a flight that was not cancelled, over
      mathematical integers: the offset is whole hours (or the cancelled
      column is a valid boolean string), the actual times differ from the
      schedule by whole days only, and the delay columns agree. */
  lemma NotCancelledFlight(
    record: Record,
    crsArr: int, crsDep: int, crsElapsed: int,
    arr: int, dep: int, actElapsed: int,
    arrDelay: real, arrDelMinutes: real)
    requires HasCheckedColumns(record)
    requires !StringToBoolean(record[Cancelled])
    requires ParseInt(record[CrsArrTime]) == Some(crsArr) && Bounded(crsArr)
    requires ParseInt(record[CrsDepTime]) == Some(crsDep) && Bounded(crsDep)
    requires ParseInt(record[CrsElapsedTime]) == Some(crsElapsed) && Bounded(crsElapsed)
    requires ParseInt(record[ArrTime]) == Some(arr) && Bounded(arr)
    requires ParseInt(record[DepTime]) == Some(dep) && Bounded(dep)
    requires ParseInt(record[ActElapsedTime]) == Some(actElapsed) && Bounded(actElapsed)
    requires ParseDouble(record[ArrDelay]) == Some(arrDelay)
    requires ParseDouble(record[ArrDelMinutes]) == Some(arrDelMinutes)
    ensures
      var offset := ToMinutes(crsArr) - ToMinutes(crsDep) - crsElapsed;
      var drift := ToMinutes(arr) - ToMinutes(dep) - actElapsed - offset;
      IsTimeZoneValid(record) <==>
        && (offset % 60 == 0 || IsValidBooleanString(record[Cancelled]))
        && drift % 1440 == 0
        && DelaysConsistent(arrDelay, arrDelMinutes, StringToBoolean(record[ArrDel15]))
  {
    ExactTimeArithmetic(crsArr, crsDep, crsElapsed, arr, dep, actElapsed);
    NotCancelledBranch(record);
    ActualTimesMeaning(record, ScheduledOffset(crsArr, crsDep, crsElapsed));
  }

  /** The three delay rules of a flight that was not cancelled: a delay of
      15 minutes or more must be flagged, a positive delay must equal the
      delay in minutes, and otherwise the delay in minutes must be zero. */
  lemma DelayRules(record: Record)
    requires HasCheckedColumns(record)
    requires !StringToBoolean(record[Cancelled])
    requires ParseDouble(record[ArrDelay]).Some? && ParseDouble(record[ArrDelMinutes]).Some?
    ensures (ParseDouble(record[ArrDelMinutes]).value >= 15.0 && !StringToBoolean(record[ArrDel15]))
              ==> !IsTimeZoneValid(record)
    ensures (ParseDouble(record[ArrDelay]).value > 0.0 &&
             ParseDouble(record[ArrDelay]).value != ParseDouble(record[ArrDelMinutes]).value)
              ==> !IsTimeZoneValid(record)
    ensures (ParseDouble(record[ArrDelay]).value <= 0.0 && ParseDouble(record[ArrDelMinutes]).value != 0.0)
              ==> !IsTimeZoneValid(record)
  {
  }

  // ---------------------------------------------------------------------
  // Worked examples
  // ---------------------------------------------------------------------

  /** Scheduled 0700 to 0900 with 120 minutes elapsed implies no offset. */
  lemma SameZoneSchedule()
    ensures ScheduledOffset(900, 700, 120) == 0
  {
    assert ToMinutes(900) == 540;
    assert ToMinutes(700) == 420;
  }

  /** Flown 2300 to 0100 in 120 minutes, a flight is off by exactly one day
      and passes. */
  lemma OvernightWrap()
    ensures TimeDiff(100, 2300, 120, 0) == 0
  {
    assert ToMinutes(2300) == 1380;
    assert ToMinutes(100) == 60;
    assert Sub(Sub(Sub(60, 1380), 120), 0) == -1440;
  }

  /** The flight of the comment in the time-zone check, scheduled 0700 to
      0900 and flown 2300 to 0100, 120 minutes each way, passes. */
  lemma CommentedFlightPasses()
    ensures TimeDiff(100, 2300, 120, ScheduledOffset(900, 700, 120)) == 0
  {
    SameZoneSchedule();
    OvernightWrap();
  }

  /** Flown 0700 to 0100 in 120 minutes, a flight is off by 480 minutes and
      fails: only whole days are forgiven. */
  lemma PartialDayRejected()
    ensures TimeDiff(100, 700, 120, 0) == -480
  {
    assert ToMinutes(700) == 420;
    assert ToMinutes(100) == 60;
    assert Sub(Sub(Sub(60, 420), 120), 0) == -480;
  }

  /** The subtractions wrap around like Java ints: a schedule from
      2147483647 to -2147483648 with 19 minutes elapsed implies an offset
      that is whole hours in int arithmetic but not over the integers. */
  lemma OffsetWrapsAround()
    ensures (ToMinutes(MaxInt) - ToMinutes(MinInt) - 19) % 60 == 16
    ensures Rem(ScheduledOffset(MaxInt, MinInt, 19), 60) == 0
  {
  }

  /** `"1"` reads as one. */
  lemma OneReadsAsOne()
    ensures ParseDouble("1") == Some(1.0)
  {
    ParseDoubleUnsigned("1");
    UnsignedWholeNumber("1");
    assert DigitsValue("1") == 1;
  }

  /** `"0"` reads as zero. */
  lemma ZeroReadsAsZero()
    ensures ParseDouble("0") == Some(0.0)
  {
    ParseDoubleUnsigned("0");
    UnsignedWholeNumber("0");
    assert DigitsValue("0") == 0;
  }

  /** `"2"` reads as two. */
  lemma TwoReadsAsTwo()
    ensures ParseDouble("2") == Some(2.0)
  {
    ParseDoubleUnsigned("2");
    UnsignedWholeNumber("2");
    assert DigitsValue("2") == 2;
  }

  /** An empty column is not a number. */
  lemma EmptyIsNotNumber()
    ensures ParseDouble("") == None
  {
    assert Trim("") == "";
  }

  /** A column of digits worth one, a point at position `n` and any digits
    (`1.0`, `1.999`, `01.5`) reads as one plus the fraction. */
  lemma OnePointAnything(s: string, n: nat)
    requires 0 < n < |s| && AllDigits(s[..n]) && DigitsValue(s[..n]) == 1
    requires s[n] == '.' && AllDigits(s[n + 1..])
    ensures ParseDouble(s) == Some(1.0 + FractionValue(s[n + 1..]))
  {
    ParseDoubleDecimalAt(s, n);
  }

  /** Such a column reads as true and is a valid boolean string. */
  lemma OnePointAnythingIsTrue(s: string, n: nat)
    requires 0 < n < |s| && AllDigits(s[..n]) && DigitsValue(s[..n]) == 1
    requires s[n] == '.' && AllDigits(s[n + 1..])
    ensures StringToBoolean(s) && IsValidBooleanString(s)
  {
    OnePointAnything(s, n);
  }

  /** `"1.0"` reads as one. */
  lemma OnePointZero()
    ensures ParseDouble("1.0") == Some(1.0)
  {
    assert ParseUnsignedDecimal("1.0") == Some(1.0) by {
      assert "1.0"[..1] == "1" && "1.0"[2..] == "0";
      UnsignedDecimalAt("1.0", 1);
      assert DigitsValue("1") == 1;
      assert FractionValue("0") == 0.0;
    }
    ParseDoubleUnsigned("1.0");
  }

  /** `"1.9"` reads as 1.9. */
  lemma OnePointNine()
    ensures ParseDouble("1.9") == Some(1.9)
  {
    assert ParseUnsignedDecimal("1.9") == Some(1.9) by {
      assert "1.9"[..1] == "1" && "1.9"[2..] == "9";
      UnsignedDecimalAt("1.9", 1);
      assert DigitsValue("1") == 1;
      assert FractionValue("9") == 0.9;
    }
    ParseDoubleUnsigned("1.9");
  }

  /** An early arrival: `"-5.5"` parses as -5.5, and such a delay agrees
      with zero delay minutes and no flag. */
  lemma EarlyArrival()
    ensures ParseDouble("-5.5") == Some(-5.5)
    ensures DelaysConsistent(-5.5, 0.0, false)
  {
    assert ParseDouble("5.5") == Some(5.5) by {
      assert "5.5"[..1] == "5" && "5.5"[2..] == "5";
      ParseDoubleDecimalAt("5.5", 1);
      assert DigitsValue("5") == 5;
      assert FractionValue("5") == 0.5;
    }
    assert "-5.5"[1..] == "5.5";
    ParseDoubleSigned("-5.5");
  }

  /** Padding around a column is ignored: `" 1 "` parses as 1. */
  lemma PaddedOne()
    ensures ParseDouble(" 1 ") == Some(1.0)
  {
    ParseDoubleTrims(" 1 ");
    PaddingTrimmed();
    OneReadsAsOne();
  }

  /** A stepping stone to PaddedOne: trimming `" 1 "` leaves `"1"`. */
  lemma PaddingTrimmed()
    ensures Trim(" 1 ") == "1"
  {
    assert " 1 "[1..] == "1 " && "1 "[..1] == "1";
    assert TrimStart("1 ") == "1 ";
    assert TrimStart(" 1 ") == "1 ";
    assert TrimEnd("1") == "1";
  }

  /** Columns that stringToBoolean reads as true. */
  lemma TrueColumns()
    ensures StringToBoolean("1") && StringToBoolean("1.0") && StringToBoolean("1.9") && StringToBoolean("true")
  {
    assert StringToBoolean("1") by { OneReadsAsOne(); }
    assert StringToBoolean("1.0") by { OnePointZero(); }
    assert StringToBoolean("1.9") by { OnePointNine(); }
    assert StringToBoolean("true") by { BooleanLiteralsAreNotNumbers(); }
  }

  /** Columns that stringToBoolean reads as false. */
  lemma FalseColumns()
    ensures !StringToBoolean("0") && !StringToBoolean("false") && !StringToBoolean("")
  {
    assert !StringToBoolean("0") by { ZeroReadsAsZero(); }
    assert !StringToBoolean("") by { EmptyIsNotNumber(); }
    assert !StringToBoolean("false") by { BooleanLiteralsAreNotNumbers(); }
  }

  /** Columns that isValidBooleanString accepts. */
  lemma ValidColumns()
    ensures IsValidBooleanString("1") && IsValidBooleanString("true") && IsValidBooleanString("false")
  {
    assert IsValidBooleanString("1") by { OneReadsAsOne(); }
    assert IsValidBooleanString("true") && IsValidBooleanString("false") by {
      BooleanLiteralsAreNotNumbers();
    }
  }

  /** Columns that isValidBooleanString rejects: `"0"` among them. */
  lemma InvalidColumns()
    ensures !IsValidBooleanString("0") && !IsValidBooleanString("2") && !IsValidBooleanString("")
  {
    assert !IsValidBooleanString("0") by {
      ZeroReadsAsZero();
      ValidBooleanStringMeaning("0");
    }
    assert !IsValidBooleanString("2") by {
      TwoReadsAsTwo();
      ValidBooleanStringMeaning("2");
    }
    assert !IsValidBooleanString("") by {
      EmptyIsNotNumber();
      ValidBooleanStringMeaning("");
    }
  }
}

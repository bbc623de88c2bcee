/** The flight-record sanity checker: a record (one flight leg, one row of
    the on-time dataset, its columns as text) is sane when its place-name
    columns are filled in, its identifier columns are positive integers, and
    its scheduled and actual times agree with each other and with the
    arrival-delay columns. */
module Utils {
  import opened Wrappers
  import opened JavaInt
  import opened JavaText

  /** One row of the dataset, addressed by column position. */
  type Record = seq<string>

  // ---------------------------------------------------------------------
  // RecordIndex: the column positions the checks read
  // ---------------------------------------------------------------------

  const OriginAirportId: nat := 11
  const OriginSeqAirportId: nat := 12
  const OriginCityMarketId: nat := 13
  const Origin: nat := 14
  const OriginCity: nat := 15
  const OriginState: nat := 16
  const OriginStateFips: nat := 17
  const OriginStateName: nat := 18
  const OriginWac: nat := 19
  const DestAirportId: nat := 20
  const DestSeqAirportId: nat := 21
  const DestCityMarketId: nat := 22
  const Dest: nat := 23
  const DestCity: nat := 24
  const DestState: nat := 25
  const DestStateFips: nat := 26
  const DestStateName: nat := 27
  const DestWac: nat := 28
  const CrsDepTime: nat := 29
  const DepTime: nat := 30
  const CrsArrTime: nat := 40
  const ArrTime: nat := 41
  const ArrDelay: nat := 42
  const ArrDelMinutes: nat := 43
  const ArrDel15: nat := 44
  const Cancelled: nat := 47
  const CrsElapsedTime: nat := 50
  const ActElapsedTime: nat := 51

  /** The eight text columns the presence check reads, in its order. */
  const PresenceColumns: seq<nat> :=
    [Origin, Dest, OriginCity, DestCity, OriginState, DestState, OriginStateName, DestStateName]

  /** The ten identifier columns the identifier check reads, in its order. */
  const IdColumns: seq<nat> :=
    [ OriginAirportId, DestAirportId, OriginSeqAirportId, DestSeqAirportId,
      OriginCityMarketId, DestCityMarketId, OriginStateFips, DestStateFips,
      OriginWac, DestWac ]

  /** Rows that reach every column the checks read. A shorter row can make
      the Java code throw, uncaught, once a check reads a missing column;
      the model asks this of every row, even of rows the checks reject
      before reading that far. */
  predicate HasCheckedColumns(record: Record) {
    |record| > ActElapsedTime
  }

  /** A column that holds a strictly positive 32-bit integer. */
  predicate IsPositiveInt(s: string) {
    ParseInt(s).Some? && ParseInt(s).value > 0
  }

  // ---------------------------------------------------------------------
  // The sanity check and its three stages
  // ---------------------------------------------------------------------

  /** `isRecordSane`: the three stages in order, each one reached only when
      the one before it passed. */
  function IsRecordSane(record: Record): (sane: bool)
    requires HasCheckedColumns(record)
    ensures sane <==>
      && (forall c :: c in PresenceColumns ==> HasVisibleChar(record[c]))
      && (forall c :: c in IdColumns ==> IsPositiveInt(record[c]))
      && IsTimeZoneValid(record)
  {
    && AreStringFieldsOfRecordValid(record)
    && AreRequiredIdsGreaterThanZero(record)
    && IsTimeZoneValid(record)
  }

  /** `areStringFieldsOfRecordValid`: the airport codes, cities, state codes
      and state names of both ends are not blank. */
  function AreStringFieldsOfRecordValid(record: Record): (valid: bool)
    requires HasCheckedColumns(record)
    ensures valid <==> forall c :: c in PresenceColumns ==> HasVisibleChar(record[c])
  {
    && IsNotBlank(record[Origin])
    && IsNotBlank(record[Dest])
    && IsNotBlank(record[OriginCity])
    && IsNotBlank(record[DestCity])
    && IsNotBlank(record[OriginState])
    && IsNotBlank(record[DestState])
    && IsNotBlank(record[OriginStateName])
    && IsNotBlank(record[DestStateName])
  }

  /** `areRequiredIdsGreaterThanZero`: all ten identifier columns parse as
      ints (a NumberFormatException means false) and are above zero. */
  function AreRequiredIdsGreaterThanZero(record: Record): (valid: bool)
    requires HasCheckedColumns(record)
    ensures valid <==> forall c :: c in IdColumns ==> IsPositiveInt(record[c])
  {
    var originAirportId := ParseInt(record[OriginAirportId]);
    var destAirportId := ParseInt(record[DestAirportId]);
    var originSeqAirportId := ParseInt(record[OriginSeqAirportId]);
    var destSeqAirportId := ParseInt(record[DestSeqAirportId]);
    var originCityMarketId := ParseInt(record[OriginCityMarketId]);
    var destCityMarketId := ParseInt(record[DestCityMarketId]);
    var originStateFips := ParseInt(record[OriginStateFips]);
    var destStateFips := ParseInt(record[DestStateFips]);
    var originWac := ParseInt(record[OriginWac]);
    var destWac := ParseInt(record[DestWac]);
    IdColumnsSpelledOut(record);
    if || originAirportId.None? || destAirportId.None?
       || originSeqAirportId.None? || destSeqAirportId.None?
       || originCityMarketId.None? || destCityMarketId.None?
       || originStateFips.None? || destStateFips.None?
       || originWac.None? || destWac.None?
    then false
    else
      && originAirportId.value > 0
      && destAirportId.value > 0
      && originSeqAirportId.value > 0
      && destSeqAirportId.value > 0
      && originCityMarketId.value > 0
      && destCityMarketId.value > 0
      && originStateFips.value > 0
      && destStateFips.value > 0
      && originWac.value > 0
      && destWac.value > 0
  }

  lemma IdColumnsSpelledOut(record: Record)
    requires HasCheckedColumns(record)
    ensures (forall c :: c in IdColumns ==> IsPositiveInt(record[c])) <==>
      IsPositiveInt(record[OriginAirportId]) && IsPositiveInt(record[DestAirportId]) &&
      IsPositiveInt(record[OriginSeqAirportId]) && IsPositiveInt(record[DestSeqAirportId]) &&
      IsPositiveInt(record[OriginCityMarketId]) && IsPositiveInt(record[DestCityMarketId]) &&
      IsPositiveInt(record[OriginStateFips]) && IsPositiveInt(record[DestStateFips]) &&
      IsPositiveInt(record[OriginWac]) && IsPositiveInt(record[DestWac])
  {
  }

  // ---------------------------------------------------------------------
  // Time arithmetic, in Java int arithmetic
  // ---------------------------------------------------------------------

  /** An HHMM clock reading (`2330`) as minutes (`1410`):
      `((t / 100) * 60) + t % 100` with truncating `/` and `%`. */
  function ToMinutes(hhmm: int): (minutes: int)
    requires IsInt32(hhmm)
    ensures IsInt32(minutes)
    ensures minutes == 60 * Div(hhmm, 100) + Rem(hhmm, 100)
    ensures 0 <= hhmm ==> 0 <= minutes <= hhmm
    ensures hhmm <= 0 ==> hhmm <= minutes <= 0
  {
    Add(Mul(Div(hhmm, 100), 60), Rem(hhmm, 100))
  }

  /** The clock reading of a minute of the day, the inverse of ToMinutes. */
  function ToClock(minutes: int): (hhmm: int)
    requires 0 <= minutes < 1440
    ensures 0 <= hhmm <= 2359 && hhmm % 100 < 60
  {
    (minutes / 60) * 100 + minutes % 60
  }

  /** The time-zone offset implied by the schedule:
      `crsArr - crsDep - crsElapsed`, all in minutes, in int arithmetic. */
  function ScheduledOffset(crsArr: int, crsDep: int, crsElapsed: int): (offset: int)
    requires IsInt32(crsArr) && IsInt32(crsDep) && IsInt32(crsElapsed)
    ensures IsInt32(offset)
    ensures IsInt32(ToMinutes(crsArr) - ToMinutes(crsDep) - crsElapsed) ==>
              offset == ToMinutes(crsArr) - ToMinutes(crsDep) - crsElapsed
    ensures (ToMinutes(crsArr) - ToMinutes(crsDep) - crsElapsed - offset) % Modulus == 0
  {
    var difference := Sub(ToMinutes(crsArr), ToMinutes(crsDep));
    var offset := Sub(difference, crsElapsed);
    CongruentSum(ToMinutes(crsArr) - ToMinutes(crsDep) - difference, difference - crsElapsed - offset);
    WrapUnique(offset, ToMinutes(crsArr) - ToMinutes(crsDep) - crsElapsed);
    offset
  }

  /** What is left of the actual block time once the actual elapsed time and
      the scheduled offset are taken away, as a truncating remainder of a
      day: zero exactly when only whole days are left over, provided the
      subtractions do not overflow. */
  function TimeDiff(arr: int, dep: int, actElapsed: int, offset: int): (diff: int)
    requires IsInt32(arr) && IsInt32(dep) && IsInt32(actElapsed) && IsInt32(offset)
    ensures -1440 < diff < 1440
    ensures IsInt32(ToMinutes(arr) - ToMinutes(dep) - actElapsed - offset) ==>
              (diff == 0 <==> (ToMinutes(arr) - ToMinutes(dep) - actElapsed - offset) % 1440 == 0)
  {
    var exact := ToMinutes(arr) - ToMinutes(dep) - actElapsed - offset;
    var wrapped := Sub(Sub(Sub(ToMinutes(arr), ToMinutes(dep)), actElapsed), offset);
    WrapUnique(wrapped, exact);
    RemZeroIffDivides(wrapped);
    Rem(wrapped, 1440)
  }

  /** The arrival-delay columns agree: a delay of 15 minutes or more is
      flagged, and the delay in minutes is the positive delay or else zero. */
  predicate DelaysConsistent(arrDelay: real, arrDelMinutes: real, arrDel15: bool)
    ensures DelaysConsistent(arrDelay, arrDelMinutes, arrDel15) <==>
      && arrDelMinutes == (if arrDelay > 0.0 then arrDelay else 0.0)
      && (arrDelMinutes >= 15.0 ==> arrDel15)
  {
    var arrDel15Correct := if arrDelMinutes >= 15.0 then arrDel15 else true;
    && arrDel15Correct
    && ((arrDelay > 0.0 && arrDelay == arrDelMinutes) || (arrDelay <= 0.0 && arrDelMinutes == 0.0))
  }

  /** `isTimeZoneValid`. The scheduled times give a time-zone offset, which
      must be whole hours unless the cancelled column is a valid boolean
      string. A cancelled flight passes at that point; any other flight must
      also pass ActualTimesValid. Every parse failure means false. */
  function IsTimeZoneValid(record: Record): (valid: bool)
    requires HasCheckedColumns(record)
    ensures valid ==>
      && ParseInt(record[CrsArrTime]).Some?
      && ParseInt(record[CrsDepTime]).Some?
      && ParseInt(record[CrsElapsedTime]).Some?
  {
    var crsArr := ParseInt(record[CrsArrTime]);
    var crsDep := ParseInt(record[CrsDepTime]);
    var crsElapsed := ParseInt(record[CrsElapsedTime]);
    if crsArr.None? || crsDep.None? || crsElapsed.None? then false
    else
      var timeZone := ScheduledOffset(crsArr.value, crsDep.value, crsElapsed.value);
      if Rem(timeZone, 60) != 0 && !IsValidBooleanString(record[Cancelled]) then false
      else if !StringToBoolean(record[Cancelled]) then ActualTimesValid(record, timeZone)
      else true
  }

  /** The branch of `isTimeZoneValid` for a flight that was not cancelled:
      the actual times must differ from the schedule by whole days only, and
      the arrival-delay columns must agree. Every parse failure means false. */
  function ActualTimesValid(record: Record, timeZone: int): (valid: bool)
    requires HasCheckedColumns(record) && IsInt32(timeZone)
    ensures valid ==>
      && ParseInt(record[ArrTime]).Some?
      && ParseInt(record[DepTime]).Some?
      && ParseInt(record[ActElapsedTime]).Some?
      && ParseDouble(record[ArrDelay]).Some?
      && ParseDouble(record[ArrDelMinutes]).Some?
  {
    var arr := ParseInt(record[ArrTime]);
    var dep := ParseInt(record[DepTime]);
    var actElapsed := ParseInt(record[ActElapsedTime]);
    var arrDelay := ParseDouble(record[ArrDelay]);
    var arrDelMinutes := ParseDouble(record[ArrDelMinutes]);
    var arrDel15 := StringToBoolean(record[ArrDel15]);
    if arr.None? || dep.None? || actElapsed.None? || arrDelay.None? || arrDelMinutes.None? then false
    else
      && TimeDiff(arr.value, dep.value, actElapsed.value, timeZone) == 0
      && DelaysConsistent(arrDelay.value, arrDelMinutes.value, arrDel15)
  }

  // ---------------------------------------------------------------------
  // Boolean columns
  // ---------------------------------------------------------------------

  /** `stringToBoolean`: a number whose int cast is 1, or else the literal
      `true`. */
  function StringToBoolean(s: string): (b: bool)
    ensures ParseDouble(s).Some? ==> (b <==> 1.0 <= ParseDouble(s).value < 2.0)
    ensures ParseDouble(s).None? ==> (b <==> s == "true")
  {
    match ParseDouble(s)
    case Some(d) => 1 == DoubleToInt(d)
    case None => "true" == s
  }

  /** `isValidBooleanString`. Both operands of the Java `||` on the numeric
      path test the same thing, so a number is valid only when its int cast
      is 1: `"0"` is not valid, while the literal `false` is. */
  function IsValidBooleanString(s: string): (valid: bool)
    ensures ParseDouble(s).Some? ==> (valid <==> 1.0 <= ParseDouble(s).value < 2.0)
    ensures ParseDouble(s).None? ==> (valid <==> s == "true" || s == "false")
  {
    match ParseDouble(s)
    case Some(d) => 1 == DoubleToInt(d) || 1 == DoubleToInt(d)
    case None => "true" == s || "false" == s
  }
}

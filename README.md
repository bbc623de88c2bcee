# Flight record sanity checks

A model of `Utils`, the helper class of the Spark airline job. The job reads
the on-time performance dataset, where each row describes one flight leg and
every column is text. Before a row is used, `Utils.isRecordSane` decides
whether the row is sane. The row passes in three stages:

1. **Place names.** The airport codes, cities, state codes and state names of
   both ends are not blank (`StringUtils.isNotBlank`).
2. **Identifiers.** The airport, sequence, city-market, state FIPS and world
   area code columns of both ends parse as Java ints that are above zero.
3. **Times.** The scheduled arrival, departure and elapsed time imply a
   time-zone offset. That offset must be whole hours, unless the cancelled
   column is a valid boolean string. A cancelled flight passes here. For any
   other flight, the actual times must differ from the schedule by whole days
   only. The arrival-delay columns must also agree with each other.

The model has five modules:

- `Wrappers` holds `Option`. `None` stands for a `NumberFormatException`.
- `JavaInt` models 32-bit int arithmetic. `+`, `-` and `*` wrap around, and
  `/` and `%` truncate toward zero.
- `JavaText` holds the library routines the checks call:
  - `Character.isWhitespace`;
  - `StringUtils.isBlank` and `StringUtils.isNotBlank`;
  - `Integer.parseInt`;
  - `String.trim`;
  - `Double.parseDouble`, over exact decimals;
  - the `(int)` cast of a double.
- `Utils` holds the checks, the `RecordIndex` column positions they read and
  the two boolean helpers.

`UtilsProperties` states what the checks mean over all records, and proves
worked examples: whole-day wrap-around, the delay rules, cancelled flights
and the boolean columns.

Two points about what the code does:

- **Valid boolean strings.** The Javadoc of `isValidBooleanString`
  (`Utils.java` lines 140-142) says it tells whether a string could be
  converted to a boolean, and `stringToBoolean("0")` does convert, to
  false. The method tests the same condition on both sides of its `||`,
  though. So among numbers, only those whose int cast is 1 are valid:
  `"0"` is not valid, while the literal `false` is. The model follows the
  code, and `ValidBooleanStringMeaning` states this.
- **The overnight example.** The comment at `Utils.java` lines 108-109
  describes a flight scheduled 0700 to 0900 that left at 2300 and arrived at
  0100. With 120 minutes elapsed both times, the schedule implies no offset
  and the actual times are off by exactly one day, so the flight passes
  (`SameZoneSchedule`, `OvernightWrap`, `CommentedFlightPasses`). A flight
  flown 0700 to 0100 in 120 minutes is off by 480 minutes and is rejected
  (`PartialDayRejected`): only whole days are forgiven.

## Model

| member | source | states |
|---|---|---|
| `Utils.IsRecordSane` | A8Spark/src/main/java/com/spark/airline/Utils.java:18-24 | A record is sane exactly when all eight place-name columns have a visible character, all ten identifier columns are positive ints, and the time-zone check passes |
| `Utils.AreStringFieldsOfRecordValid` | A8Spark/src/main/java/com/spark/airline/Utils.java:30-48 | True exactly when every one of the eight place-name columns has a character that is not whitespace |
| `Utils.AreRequiredIdsGreaterThanZero` | A8Spark/src/main/java/com/spark/airline/Utils.java:54-80 | True exactly when every one of the ten identifier columns parses as an int and is above zero; any parse failure gives false |
| `Utils.IdColumnsSpelledOut` | A8Spark/src/main/java/com/spark/airline/Utils.java:58-77 | The identifier condition over the column list is the conjunction over the ten named columns |
| `Utils.IsTimeZoneValid` | A8Spark/src/main/java/com/spark/airline/Utils.java:87-122 | Passing requires the three scheduled columns to parse as ints |
| `Utils.ActualTimesValid` | A8Spark/src/main/java/com/spark/airline/Utils.java:99-118 | Passing requires the actual times and elapsed time to parse as ints and both delay columns to parse as numbers |
| `Utils.ToMinutes` | A8Spark/src/main/java/com/spark/airline/Utils.java:94-95 | The minutes are 60 times the truncated hundreds plus the truncated remainder; the result is an int and keeps the sign of the reading, never exceeding it in magnitude |
| `Utils.ToClock` | A8Spark/src/main/java/com/spark/airline/Utils.java:94-95 | A minute of the day maps to a reading from 0000 to 2359 whose last two digits are below 60 |
| `Utils.ScheduledOffset` | A8Spark/src/main/java/com/spark/airline/Utils.java:96 | The offset is an int that is always congruent to the mathematical difference modulo 2^32, and equals it whenever that difference fits in an int |
| `Utils.TimeDiff` | A8Spark/src/main/java/com/spark/airline/Utils.java:110 | The result lies strictly between -1440 and 1440, and when nothing overflows it is zero exactly when the drift is a whole number of days |
| `Utils.DelaysConsistent` | A8Spark/src/main/java/com/spark/airline/Utils.java:111-117 | The delay columns agree exactly when the delay in minutes is the delay clamped at zero and a delay of 15 minutes or more is flagged |
| `Utils.StringToBoolean` | A8Spark/src/main/java/com/spark/airline/Utils.java:128-138 | A numeric column reads as true exactly when its value lies in [1, 2); any other column reads as true exactly when it is the literal `true` |
| `Utils.IsValidBooleanString` | A8Spark/src/main/java/com/spark/airline/Utils.java:144-154 | A numeric column is valid exactly when its value lies in [1, 2); any other column is valid exactly when it is `true` or `false` |
| `UtilsProperties.ClockRoundTrip` | A8Spark/src/main/java/com/spark/airline/Utils.java:94-95 | A proper HHMM reading becomes a minute of the day, and ToClock gives the reading back |
| `UtilsProperties.MinutesRoundTrip` | A8Spark/src/main/java/com/spark/airline/Utils.java:94-95 | ToMinutes inverts ToClock on every minute of the day |
| `UtilsProperties.BooleanLiteralsAreNotNumbers` | A8Spark/src/main/java/com/spark/airline/Utils.java:132-136 | `true` and `false` fail `Double.parseDouble`, so they reach the literal comparison |
| `UtilsProperties.StringToBooleanMeaning` | A8Spark/src/main/java/com/spark/airline/Utils.java:128-138 | A column reads as true exactly when it parses as a number in [1, 2) or is the literal `true` |
| `UtilsProperties.ValidBooleanStringMeaning` | A8Spark/src/main/java/com/spark/airline/Utils.java:144-154 | A column is a valid boolean string exactly when it parses as a number in [1, 2) or is `true` or `false` |
| `UtilsProperties.TrueIsValid` | A8Spark/src/main/java/com/spark/airline/Utils.java:128-154 | Whatever stringToBoolean reads as true, isValidBooleanString accepts |
| `UtilsProperties.BlankFieldRejected` | A8Spark/src/main/java/com/spark/airline/Utils.java:40-47 | An empty or all-whitespace place-name column makes the record insane |
| `UtilsProperties.BadIdRejected` | A8Spark/src/main/java/com/spark/airline/Utils.java:58-79 | An identifier column that does not parse, or parses to zero or less, makes the record insane |
| `UtilsProperties.OffsetNotWholeHoursRejected` | A8Spark/src/main/java/com/spark/airline/Utils.java:91-97 | An offset that is not whole hours rejects the record unless the cancelled column is a valid boolean string |
| `UtilsProperties.CancelledFlight` | A8Spark/src/main/java/com/spark/airline/Utils.java:97-119 | A cancelled flight passes the time check exactly when its three scheduled columns parse; no actual or delay column is read |
| `UtilsProperties.ExactTimeArithmetic` | A8Spark/src/main/java/com/spark/airline/Utils.java:94-110 | With bounded inputs, nothing overflows: the offset is the mathematical one, and both truncating remainders are zero exactly when the divisor divides |
| `UtilsProperties.NotCancelledBranch` | A8Spark/src/main/java/com/spark/airline/Utils.java:97-118 | A flight that was not cancelled and whose schedule parses passes exactly when the offset test and the actual-times test pass |
| `UtilsProperties.ActualTimesMeaning` | A8Spark/src/main/java/com/spark/airline/Utils.java:100-117 | Once the actual columns parse, they pass exactly when the time difference is zero and the delay columns agree |
| `UtilsProperties.NotCancelledFlight` | A8Spark/src/main/java/com/spark/airline/Utils.java:91-117 | A flight that was not cancelled, with bounded columns, passes exactly when: the offset is whole hours (or the cancelled column is a valid boolean string), the drift is a whole number of days, and the delay columns agree |
| `UtilsProperties.DelayRules` | A8Spark/src/main/java/com/spark/airline/Utils.java:111-117 | Each of the following rejects a flight that was not cancelled: an unflagged delay of 15 minutes or more, a positive delay unequal to the delay in minutes, or a non-positive delay with nonzero delay minutes |
| `UtilsProperties.SameZoneSchedule` | A8Spark/src/main/java/com/spark/airline/Utils.java:108-109 | A flight scheduled 0700 to 0900 with 120 minutes elapsed implies no offset |
| `UtilsProperties.OvernightWrap` | A8Spark/src/main/java/com/spark/airline/Utils.java:108-110 | Flown 2300 to 0100 in 120 minutes, with no offset, the time difference is zero |
| `UtilsProperties.PartialDayRejected` | A8Spark/src/main/java/com/spark/airline/Utils.java:108-110 | Flown 0700 to 0100 in 120 minutes, with no offset, the time difference is -480, so the record fails |
| `UtilsProperties.CommentedFlightPasses` | A8Spark/src/main/java/com/spark/airline/Utils.java:108-110 | The flight of the comment, scheduled 0700 to 0900 and flown 2300 to 0100 in 120 minutes, has a zero time difference and passes |
| `UtilsProperties.OffsetWrapsAround` | A8Spark/src/main/java/com/spark/airline/Utils.java:96-97 | With extreme int inputs, the wrapped offset is whole hours while the mathematical one is not |
| `UtilsProperties.OneReadsAsOne` | A8Spark/src/main/java/com/spark/airline/Utils.java:132 | `"1"` parses as 1 |
| `UtilsProperties.ZeroReadsAsZero` | A8Spark/src/main/java/com/spark/airline/Utils.java:132 | `"0"` parses as 0 |
| `UtilsProperties.TwoReadsAsTwo` | A8Spark/src/main/java/com/spark/airline/Utils.java:132 | `"2"` parses as 2 |
| `UtilsProperties.EmptyIsNotNumber` | A8Spark/src/main/java/com/spark/airline/Utils.java:132-136 | The empty column does not parse as a double |
| `UtilsProperties.OnePointAnything` | A8Spark/src/main/java/com/spark/airline/Utils.java:132 | Digits worth one, a point and any digits (`1.0`, `1.999`, `01.5`) parse as one plus the fraction |
| `UtilsProperties.OnePointAnythingIsTrue` | A8Spark/src/main/java/com/spark/airline/Utils.java:128-154 | Any such column reads as true and is a valid boolean string |
| `UtilsProperties.OnePointZero` | A8Spark/src/main/java/com/spark/airline/Utils.java:132 | `"1.0"` parses as 1 |
| `UtilsProperties.OnePointNine` | A8Spark/src/main/java/com/spark/airline/Utils.java:132 | `"1.9"` parses as 1.9 |
| `UtilsProperties.EarlyArrival` | A8Spark/src/main/java/com/spark/airline/Utils.java:103-117 | An arrival delay column of `"-5.5"` parses as -5.5, and agrees with zero delay minutes and no 15-minute flag |
| `UtilsProperties.PaddedOne` | A8Spark/src/main/java/com/spark/airline/Utils.java:103-104 | A column of `" 1 "` parses as 1: the padding is trimmed |
| `UtilsProperties.TrueColumns` | A8Spark/src/main/java/com/spark/airline/Utils.java:128-138 | `"1"`, `"1.0"`, `"1.9"` and `true` read as true |
| `UtilsProperties.FalseColumns` | A8Spark/src/main/java/com/spark/airline/Utils.java:128-138 | `"0"`, `false` and the empty column read as false |
| `UtilsProperties.ValidColumns` | A8Spark/src/main/java/com/spark/airline/Utils.java:144-154 | `"1"`, `true` and `false` are valid boolean strings |
| `UtilsProperties.InvalidColumns` | A8Spark/src/main/java/com/spark/airline/Utils.java:144-154 | `"0"`, `"2"` and the empty column are not valid boolean strings |
| `JavaInt.Wrap32` | A8Spark/src/main/java/com/spark/airline/Utils.java:94-96 | The result is an int congruent to its input modulo 2^32, and ints are left alone |
| `JavaInt.WrapUnique` | A8Spark/src/main/java/com/spark/airline/Utils.java:96 | Two ints congruent modulo 2^32 are equal |
| `JavaInt.Add` | A8Spark/src/main/java/com/spark/airline/Utils.java:94-95 | Int addition is exact when the sum fits, and otherwise wraps by exactly 2^32 |
| `JavaInt.Sub` | A8Spark/src/main/java/com/spark/airline/Utils.java:96 | Int subtraction is exact when the difference fits, and otherwise wraps by exactly 2^32 |
| `JavaInt.Mul` | A8Spark/src/main/java/com/spark/airline/Utils.java:94-95 | Int multiplication gives an int congruent to the product modulo 2^32, and is exact when the product fits |
| `JavaInt.Div` | A8Spark/src/main/java/com/spark/airline/Utils.java:94-95 | For a positive divisor, the quotient rounds toward zero: the remainder it leaves is smaller than the divisor and keeps the dividend's sign |
| `JavaInt.Rem` | A8Spark/src/main/java/com/spark/airline/Utils.java:94-95 | The remainder is the dividend minus divisor times the truncated quotient; it lies strictly between minus and plus the divisor and carries the dividend's sign |
| `JavaInt.RemZeroIffDivides` | A8Spark/src/main/java/com/spark/airline/Utils.java:97-110 | A truncating `% 60` or `% 1440` is zero exactly when the divisor divides, whatever the sign |
| `JavaText.IsBlank` | A8Spark/src/main/java/com/spark/airline/Utils.java:40-47 | A text is blank exactly when every character in it is whitespace |
| `JavaText.IsNotBlank` | A8Spark/src/main/java/com/spark/airline/Utils.java:40-47 | A text is not blank exactly when some character in it is not whitespace; the empty text is blank |
| `JavaText.NoBreakSpacesAreVisible` | A8Spark/src/main/java/com/spark/airline/Utils.java:40-47 | The three no-break spaces are not whitespace, so a field holding one is not blank |
| `JavaText.DigitsValue` | A8Spark/src/main/java/com/spark/airline/Utils.java:58-67 | A run of k digits is worth less than 10^k |
| `JavaText.NatToDigits` | A8Spark/src/main/java/com/spark/airline/Utils.java:58-67 | Every number has a non-empty rendering made only of digits |
| `JavaText.DigitsRoundTrip` | A8Spark/src/main/java/com/spark/airline/Utils.java:58-67 | Reading back the rendering of a number gives that number |
| `JavaText.LeadingZeroIgnored` | A8Spark/src/main/java/com/spark/airline/Utils.java:91-93 | A leading zero does not change a run's value |
| `JavaText.ParseInt` | A8Spark/src/main/java/com/spark/airline/Utils.java:58-67 | Parsing fails on the empty text. A success is an int, written with an optional sign and at least one digit, and is negative only when the text starts with a minus sign |
| `JavaText.ParseIntUnsigned` | A8Spark/src/main/java/com/spark/airline/Utils.java:58-67 | An unsigned run of digits parses as its value when that is at most 2^31-1, and fails otherwise |
| `JavaText.ParseIntPlus` | A8Spark/src/main/java/com/spark/airline/Utils.java:58-67 | A leading plus sign before digits changes nothing |
| `JavaText.ParseIntMinus` | A8Spark/src/main/java/com/spark/airline/Utils.java:58-67 | A minus sign before digits gives the negated value when that is at least -2^31, and fails otherwise |
| `JavaText.IntRoundTrip` | A8Spark/src/main/java/com/spark/airline/Utils.java:58-67 | Every int parses back from its decimal rendering |
| `JavaText.ParseIntLeadingZero` | A8Spark/src/main/java/com/spark/airline/Utils.java:91-93 | A zero-padded clock reading such as `0700` parses as `700` |
| `JavaText.TrimStart` | A8Spark/src/main/java/com/spark/airline/Utils.java:103-104 | The result is a suffix of the input, and everything removed is at most U+0020 |
| `JavaText.TrimEnd` | A8Spark/src/main/java/com/spark/airline/Utils.java:103-104 | The result is a prefix of the input, and everything removed is at most U+0020 |
| `JavaText.TrimEndsVisible` | A8Spark/src/main/java/com/spark/airline/Utils.java:103-104 | What `String.trim` keeps starts and ends with a character above U+0020 |
| `JavaText.TrimUntouched` | A8Spark/src/main/java/com/spark/airline/Utils.java:103-104 | A text with nothing to trim at either end is its own trim |
| `JavaText.ParseUnsignedDecimal` | A8Spark/src/main/java/com/spark/airline/Utils.java:103-104 | An unsigned decimal that parses is non-negative and starts with a digit or a point |
| `JavaText.LeadingDigits` | A8Spark/src/main/java/com/spark/airline/Utils.java:103-104 | The count covers only digits and stops at the first non-digit |
| `JavaText.FractionValue` | A8Spark/src/main/java/com/spark/airline/Utils.java:103-104 | The digits after a decimal point are worth at least 0 and less than 1 |
| `JavaText.ParseDouble` | A8Spark/src/main/java/com/spark/airline/Utils.java:103-104 | A text that is empty once trimmed does not parse, and a negative value needs a leading minus sign |
| `JavaText.ParseDoubleOfInt` | A8Spark/src/main/java/com/spark/airline/Utils.java:103-104 | Every text that parses as an int parses as a double with the same value |
| `JavaText.ParseDoubleRejectsNonNumeral` | A8Spark/src/main/java/com/spark/airline/Utils.java:132-136 | A text that starts with anything but a digit, a sign or a point, and has nothing to trim, does not parse as a double |
| `JavaText.LeadingDigitsOfRun` | A8Spark/src/main/java/com/spark/airline/Utils.java:103-104 | A run of digits followed by a non-digit is counted exactly |
| `JavaText.ParseDoubleUnsigned` | A8Spark/src/main/java/com/spark/airline/Utils.java:103-104 | A text that starts with a digit and has nothing to trim is read as an unsigned decimal |
| `JavaText.UnsignedWholeNumber` | A8Spark/src/main/java/com/spark/airline/Utils.java:103-104 | A run of digits alone reads as its value |
| `JavaText.UnsignedDecimalShape` | A8Spark/src/main/java/com/spark/airline/Utils.java:103-104 | Whatever parses as an unsigned decimal is a run of digits, or digits, a point and digits |
| `JavaText.UnsignedDecimalAt` | A8Spark/src/main/java/com/spark/airline/Utils.java:103-104 | Digits, a point and digits read as the digits before the point plus the fraction after it, and a lone point fails |
| `JavaText.ParseDoubleDecimalAt` | A8Spark/src/main/java/com/spark/airline/Utils.java:103-104 | Digits, a point and digits, with nothing to trim, parse as a double worth the digits before the point plus the fraction after it; the whole part may be empty (`".5"`), and a lone point fails |
| `JavaText.TrimTwice` | A8Spark/src/main/java/com/spark/airline/Utils.java:103-104 | Trimming a trimmed text changes nothing |
| `JavaText.ParseDoubleTrims` | A8Spark/src/main/java/com/spark/airline/Utils.java:103-104 | A text parses as a double exactly as its trim does: characters up to U+0020 around the numeral are ignored |
| `JavaText.ParseDoubleSigned` | A8Spark/src/main/java/com/spark/airline/Utils.java:103-104 | A minus sign before a numeral negates its value and a plus sign keeps it; the signed text fails exactly when the unsigned one does |
| `JavaText.Truncate` | A8Spark/src/main/java/com/spark/airline/Utils.java:132 | Truncation toward zero: the result is within one of the input, on the side of zero |
| `JavaText.DoubleToInt` | A8Spark/src/main/java/com/spark/airline/Utils.java:132 | The `(int)` cast gives an int: it truncates, then saturates at the int range |
| `JavaText.DoubleToIntIsOne` | A8Spark/src/main/java/com/spark/airline/Utils.java:132 | The cast gives 1 exactly for numbers in [1, 2) |

## Left out

- `Double.parseDouble` is modelled for decimal notation only: an optional sign, digits, and an optional point with more digits. Exponents, the `d`/`f` suffixes, `NaN`, `Infinity` and hexadecimal floats are not modelled. Values are exact reals, so IEEE-754 rounding is not modelled either: `"1.99999999999999999"` rounds to 2.0 in Java but reads as below 2 here.
- `JavaText.ParseInt` accepts only ASCII digits. `Integer.parseInt` also accepts the other Unicode decimal digits.
- Null records and null fields are not modelled. In Java, a null record, or a null place-name, identifier or time column, makes the checks return false. A null delay, `ARR_DEL_15` or cancelled column instead throws an uncaught `NullPointerException` from `Double.parseDouble`.
- `Utils.IsRecordSane`, `Utils.AreStringFieldsOfRecordValid`, `Utils.AreRequiredIdsGreaterThanZero` and `Utils.IsTimeZoneValid` require a row with at least 52 columns (`HasCheckedColumns`). A row of fewer than 52 columns can make the Java code throw an uncaught `ArrayIndexOutOfBoundsException` once a check reads a missing column. The checks short-circuit, so some short rows are rejected before that happens. The model requires 52 columns of every row, including rows the Java code rejects before it reads a missing column.
- Utils.IsTimeZoneValid: its own contract states only what passing requires. Its complete meaning is proved separately, in `CancelledFlight`, `NotCancelledBranch`, `NotCancelledFlight` and `DelayRules`.
- Utils.ActualTimesValid: its own contract states only what passing requires. Its complete meaning is proved separately, in `ActualTimesMeaning`.
- `UtilsProperties.NotCancelledFlight` and `UtilsProperties.ExactTimeArithmetic` assume every parsed time is at most 2^28 in magnitude, so that nothing overflows. Beyond that bound, the wrapped arithmetic is modelled in `ScheduledOffset` and `TimeDiff`, and `OffsetWrapsAround` shows one case where it matters.
- `SEPARATOR`, `NUM_FEATURES` and the `Arguments` prefixes are left out: no check reads them.
- The `RecordIndex` positions that no check reads (year, month, day, flight date, carrier, flight number, distance, average ticket price) are left out.
- The Spark job that calls these checks, its file input and output, and the command line are not part of this model.
- `StringUtils` comes from commons-lang3, which is not part of this model. Its `isBlank` is restated here from its documented behaviour.

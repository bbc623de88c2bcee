/** The parts of the Java platform and of commons-lang3 that the record checks
    lean on: `Character.isWhitespace`, `StringUtils.isBlank`,
    `Integer.parseInt`, `String.trim`, `Double.parseDouble` (decimal notation
    only, with exact values) and the `(int)` cast of a double. */
module JavaText {
  import opened Wrappers
  import opened JavaInt

  // ---------------------------------------------------------------------
  // Whitespace and blankness
  // ---------------------------------------------------------------------

  /** `Character.isWhitespace`: the Unicode space, line and paragraph
      separators other than the three no-break spaces (U+00A0, U+2007,
      U+202F), plus the controls U+0009-U+000D and U+001C-U+001F. */
  predicate IsWhitespace(c: char) {
    || c == ' '
    || '\t' <= c <= '\r'
    || '\U{1C}' <= c <= '\U{1F}'
    || c == '\U{1680}'
    || '\U{2000}' <= c <= '\U{2006}'
    || '\U{2008}' <= c <= '\U{200A}'
    || c == '\U{2028}' || c == '\U{2029}'
    || c == '\U{205F}' || c == '\U{3000}'
  }

  /** The three no-break spaces are not whitespace, so a field holding only
      them is not blank. */
  lemma NoBreakSpacesAreVisible()
    ensures !IsWhitespace('\U{A0}') && !IsWhitespace('\U{2007}') && !IsWhitespace('\U{202F}')
    ensures HasVisibleChar(['\U{A0}'])
  {
    assert !IsWhitespace(['\U{A0}'][0]);
  }

  /** `StringUtils.isBlank`: scans the text and gives up at the first
      character that is not whitespace. */
  function IsBlank(s: string): (blank: bool)
    ensures blank <==> forall i :: 0 <= i < |s| ==> IsWhitespace(s[i])
  {
    if |s| == 0 then true else IsWhitespace(s[0]) && IsBlank(s[1..])
  }

  /** What a non-blank field has: some character that is not whitespace. */
  predicate HasVisibleChar(s: string) {
    exists i :: 0 <= i < |s| && !IsWhitespace(s[i])
  }

  /** `StringUtils.isNotBlank`. */
  function IsNotBlank(s: string): (present: bool)
    ensures present <==> HasVisibleChar(s)
    ensures |s| == 0 ==> !present
  {
    !IsBlank(s)
  }

  // ---------------------------------------------------------------------
  // Decimal digits
  // ---------------------------------------------------------------------

  predicate IsDigit(c: char) {
    '0' <= c <= '9'
  }

  predicate AllDigits(s: string) {
    forall i :: 0 <= i < |s| ==> IsDigit(s[i])
  }

  function DigitValue(c: char): (d: nat)
    requires IsDigit(c)
    ensures d < 10
  {
    (c as int) - ('0' as int)
  }

  function DigitChar(d: nat): (c: char)
    requires d < 10
    ensures IsDigit(c) && DigitValue(c) == d
  {
    ('0' as int + d) as char
  }

  function Pow10(k: nat): (p: nat)
    ensures p >= 1
  {
    if k == 0 then 1 else 10 * Pow10(k - 1)
  }

  /** The number a run of decimal digits denotes, most significant first. */
  function DigitsValue(s: string): (n: nat)
    requires AllDigits(s)
    ensures n < Pow10(|s|)
  {
    if |s| == 0 then 0 else 10 * DigitsValue(s[..|s| - 1]) + DigitValue(s[|s| - 1])
  }

  /** The shortest decimal rendering of `n`, the inverse of DigitsValue. */
  function NatToDigits(n: nat): (s: string)
    ensures |s| > 0 && AllDigits(s)
  {
    if n < 10 then [DigitChar(n)] else NatToDigits(n / 10) + [DigitChar(n % 10)]
  }

  lemma {:induction false} DigitsRoundTrip(n: nat)
    ensures DigitsValue(NatToDigits(n)) == n
  {
    if n >= 10 {
      DigitsRoundTrip(n / 10);
      var s := NatToDigits(n);
      assert s[..|s| - 1] == NatToDigits(n / 10);
    }
  }

  /** Leading zeros do not change the value of a run of digits. */
  lemma {:induction false} LeadingZeroIgnored(s: string)
    requires AllDigits(s)
    ensures AllDigits("0" + s) && DigitsValue("0" + s) == DigitsValue(s)
  {
    var z := "0" + s;
    if |s| > 0 {
      assert z[..|z| - 1] == "0" + s[..|s| - 1];
      LeadingZeroIgnored(s[..|s| - 1]);
    }
  }

  // ---------------------------------------------------------------------
  // Integer.parseInt
  // ---------------------------------------------------------------------

  /** `Integer.parseInt(s)` in radix 10: an optional `-` or `+`, then one or
      more digits, with a value that fits in 32 bits. No whitespace is
      allowed. None stands for the NumberFormatException. */
  function ParseInt(s: string): (r: Option<int>)
    ensures |s| == 0 ==> r.None?
    ensures r.Some? ==> IsInt32(r.value)
    ensures r.Some? ==> forall i :: 0 < i < |s| ==> IsDigit(s[i])
    ensures r.Some? ==> IsDigit(s[0]) || (|s| > 1 && (s[0] == '-' || s[0] == '+'))
    ensures r.Some? && r.value < 0 ==> s[0] == '-'
  {
    if |s| == 0 then None
    else
      var negative := s[0] == '-';
      var digits := if s[0] == '-' || s[0] == '+' then s[1..] else s;
      if |digits| == 0 || !AllDigits(digits) then None
      else
        var v: int := if negative then -(DigitsValue(digits) as int) else DigitsValue(digits);
        if IsInt32(v) then Some(v) else None
  }

  /** An unsigned run of digits parses as its value when that fits in an
      int, and fails when it is out of range (`"2147483648"`). */
  lemma ParseIntUnsigned(digits: string)
    requires |digits| > 0 && AllDigits(digits)
    ensures ParseInt(digits) ==
      (if DigitsValue(digits) <= MaxInt then Some(DigitsValue(digits) as int) else None)
  {
  }

  /** A plus sign changes nothing: `"+5"` parses as `"5"` does. */
  lemma ParseIntPlus(s: string)
    requires |s| > 0 && s[0] == '+' && AllDigits(s[1..])
    ensures ParseInt(s) == ParseInt(s[1..])
  {
  }

  /** A minus sign negates the run, which may reach down to -2^31:
      `"-2147483648"` parses, `"-2147483649"` fails and `"-0"` is zero. */
  lemma ParseIntMinus(s: string)
    requires |s| > 1 && s[0] == '-' && AllDigits(s[1..])
    ensures ParseInt(s) ==
      (if DigitsValue(s[1..]) <= -MinInt then Some(-(DigitsValue(s[1..]) as int)) else None)
  {
  }

  /** `Integer.toString(n)`: a minus sign for negatives, then the digits. */
  function IntToString(n: int): (s: string)
    ensures |s| > 0
  {
    if n < 0 then "-" + NatToDigits(-n) else NatToDigits(n)
  }

  /** Parsing gives back every 32-bit value that Java prints. */
  lemma IntRoundTrip(n: int)
    requires IsInt32(n)
    ensures ParseInt(IntToString(n)) == Some(n)
  {
    var s := IntToString(n);
    if n < 0 {
      DigitsRoundTrip(-n);
      assert s[1..] == NatToDigits(-n);
    } else {
      DigitsRoundTrip(n);
    }
  }

  /** A leading zero on an unsigned numeral changes nothing: `"0700"` reads
      as `700`. */
  lemma ParseIntLeadingZero(s: string)
    requires |s| > 0 && AllDigits(s)
    ensures ParseInt("0" + s) == ParseInt(s)
  {
    LeadingZeroIgnored(s);
  }

  // ---------------------------------------------------------------------
  // String.trim and Double.parseDouble
  // ---------------------------------------------------------------------

  /** `String.trim`, front half: drops leading characters up to U+0020. */
  function TrimStart(s: string): (t: string)
    ensures |t| <= |s| && t == s[|s| - |t|..]
    ensures forall i :: 0 <= i < |s| - |t| ==> s[i] <= ' '
    ensures |t| > 0 ==> t[0] > ' '
  {
    if |s| > 0 && s[0] <= ' ' then TrimStart(s[1..]) else s
  }

  /** `String.trim`, back half: drops trailing characters up to U+0020. */
  function TrimEnd(s: string): (t: string)
    ensures |t| <= |s| && t == s[..|t|]
    ensures forall i :: |t| <= i < |s| ==> s[i] <= ' '
    ensures |t| > 0 ==> t[|t| - 1] > ' '
  {
    if |s| > 0 && s[|s| - 1] <= ' ' then TrimEnd(s[..|s| - 1]) else s
  }

  function Trim(s: string): string {
    TrimEnd(TrimStart(s))
  }

  /** What `String.trim` keeps starts and ends with a character above
      U+0020. */
  lemma TrimEndsVisible(s: string)
    ensures |Trim(s)| > 0 ==> Trim(s)[0] > ' ' && Trim(s)[|Trim(s)| - 1] > ' '
  {
    var u := TrimStart(s);
    var t := TrimEnd(u);
    if |t| > 0 {
      assert t[0] == u[0];
    }
  }

  /** Text with nothing to trim at either end is its own trim. */
  lemma TrimUntouched(s: string)
    requires |s| > 0 && s[0] > ' ' && s[|s| - 1] > ' '
    ensures Trim(s) == s
  {
  }

  /** How many decimal digits `s` starts with. */
  function LeadingDigits(s: string): (n: nat)
    ensures n <= |s| && AllDigits(s[..n])
    ensures n < |s| ==> !IsDigit(s[n])
  {
    if |s| > 0 && IsDigit(s[0]) then
      var n := 1 + LeadingDigits(s[1..]);
      assert s[..n] == [s[0]] + s[1..][..n - 1];
      n
    else 0
  }

  /** An unsigned decimal numeral: digits, optionally a point and more
      digits, with at least one digit in all (`"1"`, `"1."`, `".5"`). */
  function ParseUnsignedDecimal(s: string): (r: Option<real>)
    ensures r.Some? ==> 0.0 <= r.value && |s| > 0 && (IsDigit(s[0]) || s[0] == '.')
  {
    var n := LeadingDigits(s);
    var whole := DigitsValue(s[..n]) as real;
    var rest := s[n..];
    if |rest| == 0 then
      if n == 0 then None else Some(whole)
    else if rest[0] != '.' || !AllDigits(rest[1..]) || (n == 0 && |rest| == 1) then None
    else Some(whole + FractionValue(rest[1..]))
  }

  /** The value of the digits after a decimal point: `"25"` is 0.25. */
  function FractionValue(digits: string): (f: real)
    requires AllDigits(digits)
    ensures 0.0 <= f < 1.0
  {
    if |digits| == 0 then 0.0
    else (DigitValue(digits[0]) as real + FractionValue(digits[1..])) / 10.0
  }

  /** `Double.parseDouble(s)` for decimal notation: the text is trimmed,
      may carry one sign, and its value is kept exactly. None stands for
      the NumberFormatException. */
  function ParseDouble(s: string): (r: Option<real>)
    ensures |Trim(s)| == 0 ==> r.None?
    ensures r.Some? && r.value < 0.0 ==> Trim(s)[0] == '-'
  {
    var t := Trim(s);
    if |t| > 0 && (t[0] == '-' || t[0] == '+') then
      match ParseUnsignedDecimal(t[1..])
      case None => None
      case Some(v) => Some(if t[0] == '-' then -v else v)
    else ParseUnsignedDecimal(t)
  }

  /** A stepping stone to ParseDoubleSigned: a text whose trim starts with
      a sign is read as the unsigned rest, negated for a minus. */
  lemma ParseDoubleOfSign(s: string)
    requires |Trim(s)| > 0 && (Trim(s)[0] == '-' || Trim(s)[0] == '+')
    ensures ParseDouble(s)
         == (match ParseUnsignedDecimal(Trim(s)[1..])
             case None => None
             case Some(v) => Some(if Trim(s)[0] == '-' then -v else v))
  {
  }

  /** A stepping stone to ParseDoubleSigned: a text whose trim starts with
      a digit or a point is read as unsigned. */
  lemma ParseDoubleOfUnsigned(s: string)
    requires |Trim(s)| > 0 && (IsDigit(Trim(s)[0]) || Trim(s)[0] == '.')
    ensures ParseDouble(s) == ParseUnsignedDecimal(Trim(s))
  {
  }

  /** Every text `Integer.parseInt` accepts, `Double.parseDouble` accepts
      too, with the same value. */
  lemma ParseDoubleOfInt(s: string)
    requires ParseInt(s).Some?
    ensures ParseDouble(s) == Some(ParseInt(s).value as real)
  {
    TrimUntouched(s);
    var digits := if s[0] == '-' || s[0] == '+' then s[1..] else s;
    assert LeadingDigits(digits) == |digits|;
    assert digits[..|digits|] == digits;
  }

  /** Text that starts with anything but a digit, a sign or a point, and has
      nothing to trim, is not a number (`"true"`, `"false"`, `"N/A"`). */
  lemma ParseDoubleRejectsNonNumeral(s: string)
    requires |s| > 0 && s[0] > ' ' && s[|s| - 1] > ' '
    requires !IsDigit(s[0]) && s[0] != '+' && s[0] != '-' && s[0] != '.'
    ensures ParseDouble(s).None?
  {
    TrimUntouched(s);
    assert LeadingDigits(s) == 0;
    assert ParseUnsignedDecimal(s).None?;
  }

  /** A run of digits stops where the first non-digit stands. */
  lemma {:induction false} LeadingDigitsOfRun(digits: string, rest: string)
    requires AllDigits(digits)
    requires |rest| > 0 ==> !IsDigit(rest[0])
    ensures LeadingDigits(digits + rest) == |digits|
  {
    if |digits| > 0 {
      assert (digits + rest)[1..] == digits[1..] + rest;
      LeadingDigitsOfRun(digits[1..], rest);
    }
  }

  /** Text that starts with a digit and has nothing to trim at its end is
      read without sign and without trimming. */
  lemma ParseDoubleUnsigned(s: string)
    requires |s| > 0 && IsDigit(s[0]) && s[|s| - 1] > ' '
    ensures ParseDouble(s) == ParseUnsignedDecimal(s)
  {
    TrimUntouched(s);
  }

  /** A run of digits alone is read as a whole number. */
  lemma UnsignedWholeNumber(digits: string)
    requires |digits| > 0 && AllDigits(digits)
    ensures ParseUnsignedDecimal(digits) == Some(DigitsValue(digits) as real)
  {
    LeadingDigitsOfRun(digits, "");
    assert digits + "" == digits;
    assert digits[..|digits|] == digits;
  }

  /** Whatever parses as an unsigned decimal is a run of digits, or a run of
      digits, a point and a run of digits; UnsignedWholeNumber and
      UnsignedDecimalAt give the value of each. */
  lemma UnsignedDecimalShape(s: string)
    requires ParseUnsignedDecimal(s).Some?
    ensures AllDigits(s)
         || (LeadingDigits(s) < |s| && s[LeadingDigits(s)] == '.'
             && AllDigits(s[LeadingDigits(s) + 1..]))
  {
    if LeadingDigits(s) == |s| {
      assert s[..|s|] == s;
    }
  }

  /** A text of digits, a point and digits reads as the digits before the
      point plus the fraction after it; a lone point fails. */
  lemma UnsignedDecimalAt(s: string, n: nat)
    requires n < |s| && AllDigits(s[..n]) && s[n] == '.' && AllDigits(s[n + 1..])
    ensures ParseUnsignedDecimal(s)
         == (if n == 0 && |s| == 1 then None
             else Some(DigitsValue(s[..n]) as real + FractionValue(s[n + 1..])))
  {
    assert LeadingDigits(s) == n by {
      LeadingDigitsOfRun(s[..n], s[n..]);
      assert s[..n] + s[n..] == s;
    }
    assert s[n..][1..] == s[n + 1..];
  }

  /** Untrimmed text of digits, a point and digits parses as a double worth
      the digits before the point plus the fraction after it (`".5"` is 0.5);
      a lone point fails. */
  lemma ParseDoubleDecimalAt(s: string, n: nat)
    requires n < |s| && AllDigits(s[..n]) && s[n] == '.' && AllDigits(s[n + 1..])
    ensures ParseDouble(s)
         == (if n == 0 && |s| == 1 then None
             else Some(DigitsValue(s[..n]) as real + FractionValue(s[n + 1..])))
  {
    assert IsDigit(s[0]) || s[0] == '.' by {
      if n > 0 {
        assert s[0] == s[..n][0];
      }
    }
    assert s[|s| - 1] > ' ' by {
      if n + 1 < |s| {
        assert s[|s| - 1] == s[n + 1..][|s| - n - 2];
      }
    }
    TrimUntouched(s);
    assert ParseDouble(s) == ParseUnsignedDecimal(s);
    UnsignedDecimalAt(s, n);
  }

  /** Trimming twice is trimming once. */
  lemma TrimTwice(s: string)
    ensures Trim(Trim(s)) == Trim(s)
  {
    TrimEndsVisible(s);
    if |Trim(s)| > 0 {
      TrimUntouched(Trim(s));
    }
  }

  /** `Double.parseDouble` ignores the characters up to U+0020 around the
      numeral: `" 1 "` parses as `"1"` does. */
  lemma ParseDoubleTrims(s: string)
    ensures ParseDouble(s) == ParseDouble(Trim(s))
  {
    TrimTwice(s);
  }

  /** Dropping the first character of visible text commutes with cutting
      the trailing characters up to U+0020. */
  lemma {:induction false} TrimEndTail(s: string)
    requires |s| > 1 && s[1] > ' '
    ensures |TrimEnd(s)| > 1 && TrimEnd(s)[1..] == TrimEnd(s[1..])
  {
    if s[|s| - 1] <= ' ' {
      var u := s[..|s| - 1];
      assert u[1] == s[1];
      assert s[1..][..|s| - 2] == u[1..];
      TrimEndTail(u);
    }
  }

  /** Text that starts with two visible characters keeps them both when
      trimmed, and trimming its tail is the tail of its trim. */
  lemma TrimTail(s: string)
    requires |s| > 1 && s[0] > ' ' && s[1] > ' '
    ensures |Trim(s)| > 1 && Trim(s)[0] == s[0] && Trim(s)[1] == s[1]
    ensures Trim(s[1..]) == Trim(s)[1..]
  {
    assert TrimStart(s) == s;
    assert TrimStart(s[1..]) == s[1..];
    TrimEndTail(s);
    assert TrimEnd(s)[1] == TrimEnd(s)[1..][0];
  }

  /** A sign in front of a numeral: `"-5.50"` parses as the negation of
      `"5.50"`, and `"+1.5"` as `"1.5"`. */
  lemma ParseDoubleSigned(s: string)
    requires |s| > 1 && (s[0] == '-' || s[0] == '+') && (IsDigit(s[1]) || s[1] == '.')
    ensures ParseDouble(s)
         == (match ParseDouble(s[1..])
             case None => None
             case Some(v) => Some(if s[0] == '-' then -v else v))
  {
    TrimTail(s);
    ParseDoubleOfSign(s);
    ParseDoubleOfUnsigned(s[1..]);
  }

  // ---------------------------------------------------------------------
  // The (int) cast of a double
  // ---------------------------------------------------------------------

  /** Rounding toward zero. */
  function Truncate(x: real): (n: int)
    ensures 0.0 <= x ==> 0 <= n && n as real <= x < n as real + 1.0
    ensures x <= 0.0 ==> n <= 0 && n as real - 1.0 < x <= n as real
  {
    if x >= 0.0 then x.Floor else -((-x).Floor)
  }

  /** Java's `(int) d` for a finite double: round toward zero, then
      saturate at the ends of the int range. */
  function DoubleToInt(x: real): (n: int)
    ensures IsInt32(n)
    ensures IsInt32(Truncate(x)) ==> n == Truncate(x)
    ensures Truncate(x) > MaxInt ==> n == MaxInt
    ensures Truncate(x) < MinInt ==> n == MinInt
  {
    var t := Truncate(x);
    if t < MinInt then MinInt else if t > MaxInt then MaxInt else t
  }

  /** The cast yields 1 exactly for the doubles in [1, 2). */
  lemma DoubleToIntIsOne(x: real)
    ensures DoubleToInt(x) == 1 <==> 1.0 <= x < 2.0
  {
  }
}

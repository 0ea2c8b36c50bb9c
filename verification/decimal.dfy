/**
  Decimal text for 32-bit integers: the `{p}` interpolation that writes a
  port into a target URL, and the `int.Parse` that reads it back.
 */
module Decimal {
  import opened Common

  const Int32Min: int := -0x8000_0000
  const Int32Max: int := 0x7FFF_FFFF

  /** The C# `int`. */
  type Int32 = x: int | Int32Min <= x <= Int32Max

  /** Why `int.Parse` throws: `FormatException` or `OverflowException`. */
  datatype ParseError = FormatError | OverflowError

  predicate IsDigit(c: char)
  {
    '0' <= c <= '9'
  }

  predicate AllDigits(s: string)
  {
    forall i :: 0 <= i < |s| ==> IsDigit(s[i])
  }

  function DigitChar(d: nat): (c: char)
    requires d < 10
    ensures IsDigit(c) && (c as int) - ('0' as int) == d
  {
    ('0' as int + d) as char
  }

  /** The decimal digits of `n`, most significant first, without leading zeros. */
  function NaturalToDigits(n: nat): (s: string)
    ensures |s| > 0 && AllDigits(s)
    ensures |s| > 1 ==> s[0] != '0'
  {
    if n < 10 then [DigitChar(n)]
    else NaturalToDigits(n / 10) + [DigitChar(n % 10)]
  }

  /** The number a non-empty run of decimal digits denotes. */
  function DigitsValue(s: string): (v: nat)
    requires AllDigits(s)
  {
    if |s| == 0 then 0
    else DigitsValue(s[..|s| - 1]) * 10 + ((s[|s| - 1] as int) - ('0' as int))
  }

  /** Reading back the digits of `n` gives `n`. */
  lemma {:induction false} DigitsRoundTrip(n: nat)
    ensures DigitsValue(NaturalToDigits(n)) == n
  {
    if n >= 10 {
      var s := NaturalToDigits(n);
      assert s[..|s| - 1] == NaturalToDigits(n / 10);
      DigitsRoundTrip(n / 10);
    }
  }

  /**
    The invariant-culture text of an integer: an optional `-` followed by
    at least one digit, and nothing else (`FormatIntCanonical`: no leading
    zeros).
   */
  function FormatInt(n: int): (s: string)
    ensures |s| > 0
    ensures forall i :: 0 <= i < |s| ==> IsDigit(s[i]) || (i == 0 && s[i] == '-')
    ensures s[0] == '-' <==> n < 0
  {
    if n < 0 then "-" + NaturalToDigits(-n) else NaturalToDigits(n)
  }

  /**
    The digits `FormatInt` writes carry no leading zero, so together with
    `FormatInt`'s own contract the text of a value is the one `{p}` writes.
   */
  lemma FormatIntCanonical(n: int)
    ensures var s := FormatInt(n); var digits := if n < 0 then s[1..] else s;
      0 < |digits| && AllDigits(digits) && (|digits| > 1 ==> digits[0] != '0')
  {
  }

  /**
    `int.Parse(s)` under `NumberStyles.Integer`, restricted to text without
    surrounding white space: an optional sign, then one or more digits; a
    value outside the 32-bit range overflows.
   */
  function ParseInt32(s: string): (r: Result<Int32, ParseError>)
    ensures r.Ok? ==> 0 < |s| && (AllDigits(s) || ((s[0] == '-' || s[0] == '+') && 1 < |s| && AllDigits(s[1..])))
    ensures |s| == 0 || s == "-" || s == "+" ==> r == Err(FormatError)
    ensures r == Err(FormatError) ==> !AllDigits(s) || |s| == 0 || (|s| == 1 && (s[0] == '-' || s[0] == '+'))
    ensures 0 < |s| && AllDigits(s) && DigitsValue(s) <= Int32Max ==> r == Ok(DigitsValue(s))
    ensures 0 < |s| && AllDigits(s) && DigitsValue(s) > Int32Max ==> r == Err(OverflowError)
  {
    var negative := |s| > 0 && s[0] == '-';
    var digits := if |s| > 0 && (s[0] == '-' || s[0] == '+') then s[1..] else s;
    if |digits| == 0 || !AllDigits(digits) then Err(FormatError)
    else
      var magnitude: int := DigitsValue(digits);
      var v := if negative then -magnitude else magnitude;
      if Int32Min <= v <= Int32Max then Ok(v) else Err(OverflowError)
  }

  /** Parsing the text of any 32-bit integer gives that integer back. */
  lemma ParseFormatRoundTrip(n: Int32)
    ensures ParseInt32(FormatInt(n)) == Ok(n)
  {
    if n < 0 {
      var m: nat := -(n as int);
      DigitsRoundTrip(m);
      assert ("-" + NaturalToDigits(m))[1..] == NaturalToDigits(m);
    } else {
      DigitsRoundTrip(n);
    }
  }
}

/** Parsing a signed 64-bit integer from text, as long.TryParse does with its
    default number style, and the decimal text of such an integer. */
module NumberParsing {
  import opened FormText

  const MinInt64: int := -0x8000_0000_0000_0000
  const MaxInt64: int := 0x7FFF_FFFF_FFFF_FFFF

  /** The values of the C# type long. */
  type Int64 = x: int | MinInt64 <= x <= MaxInt64

  /** The white space that may surround a number: U+0009..U+000D and the space. */
  predicate IsNumberWhite(c: char) {
    c == ' ' || ('\t' <= c <= '\r')
  }

  predicate IsDigit(c: char) {
    '0' <= c <= '9'
  }

  lemma DigitNotWhite(c: char)
    requires IsDigit(c)
    ensures !IsNumberWhite(c)
  {
  }

  predicate AllDigits(d: string) {
    forall i :: 0 <= i < |d| ==> IsDigit(d[i])
  }

  /** The value of a string of decimal digits, most significant digit first. */
  function DigitsValue(d: string): nat
    requires AllDigits(d)
  {
    if d == [] then 0 else DigitsValue(d[..|d| - 1]) * 10 + (d[|d| - 1] as int - '0' as int)
  }

  /** long.TryParse(s, out v): optional surrounding white space, an optional
      '+' or '-', then one or more decimal digits whose signed value fits in
      64 bits. None stands for a false return. */
  function TryParseInt64(s: string): Option<Int64> {
    ParseSigned(TrimBy(s, IsNumberWhite))
  }

  /** An optional sign followed by one or more digits, within the range of long. */
  function ParseSigned(t: string): Option<Int64> {
    var negative := |t| > 0 && t[0] == '-';
    var digits := if |t| > 0 && (t[0] == '-' || t[0] == '+') then t[1..] else t;
    if digits == [] || !AllDigits(digits) then None
    else
      var v: int := if negative then -(DigitsValue(digits) as int) else DigitsValue(digits);
      if MinInt64 <= v <= MaxInt64 then Some(v) else None
  }

  /** Digits without a sign parse to their value when it fits in a long. */
  lemma ParseUnsigned(d: string)
    requires d != [] && AllDigits(d)
    ensures ParseSigned(d) == if DigitsValue(d) <= MaxInt64 then Some(DigitsValue(d)) else None
  {
    assert IsDigit(d[0]);
  }

  function DigitChar(k: nat): (c: char)
    requires k < 10
    ensures IsDigit(c) && c as int - '0' as int == k
  {
    ('0' as int + k) as char
  }

  /** The decimal digits of n, without leading zeros. */
  function Decimal(n: nat): (d: string)
    ensures d != [] && AllDigits(d)
    ensures |d| > 1 ==> d[0] != '0'
  {
    if n < 10 then [DigitChar(n)] else Decimal(n / 10) + [DigitChar(n % 10)]
  }

  /** long.ToString(): the decimal text of n, with a '-' in front when negative. */
  function FormatInt64(n: Int64): string {
    var m: int := n;
    if m < 0 then "-" + Decimal(-m) else Decimal(m)
  }

  lemma {:induction false} DigitsValueDecimal(n: nat)
    ensures DigitsValue(Decimal(n)) == n
  {
    if n >= 10 {
      var d := Decimal(n);
      DigitsValueDecimal(n / 10);
      assert d[..|d| - 1] == Decimal(n / 10);
    }
  }

  /** Every long survives the trip through its decimal text. */
  lemma ParseFormatRoundTrip(n: Int64)
    ensures TryParseInt64(FormatInt64(n)) == Some(n)
  {
    var m: int := n;
    var a: nat := if m < 0 then -m else m;
    var f, d := FormatInt64(n), Decimal(a);
    DigitsValueDecimal(a);
    if m < 0 {
      assert f == "-" + d;
      assert f[1..] == d;
      assert ParseSigned(f) == Some(n);
    } else {
      assert f == d;
      assert ParseSigned(f) == Some(n);
    }
    assert f[|f| - 1] == d[|d| - 1];
    TrimByUnchanged(f, IsNumberWhite);
  }

  /** A leading zero does not change the digits' value. */
  lemma {:induction false} DigitsValueLeadingZero(d: string)
    requires AllDigits(d)
    ensures AllDigits("0" + d) && DigitsValue("0" + d) == DigitsValue(d)
  {
    if d != [] {
      var z := "0" + d;
      assert z[..|z| - 1] == "0" + d[..|d| - 1];
      DigitsValueLeadingZero(d[..|d| - 1]);
    }
  }

  /** Parsing drops a leading zero: "0" followed by digits parses to the same
      value as the digits alone, so the zero cannot be recovered. */
  lemma LeadingZeroLost(d: string)
    requires d != [] && AllDigits(d)
    ensures TryParseInt64("0" + d) == TryParseInt64(d)
  {
    var z := "0" + d;
    DigitNotWhite(d[0]);
    DigitNotWhite(d[|d| - 1]);
    assert z[|z| - 1] == d[|d| - 1];
    TrimByUnchanged(z, IsNumberWhite);
    TrimByUnchanged(d, IsNumberWhite);
    DigitsValueLeadingZero(d);
    ParseUnsigned(z);
    ParseUnsigned(d);
  }

  /** A Vietnamese mobile number loses its leading zero, and two different
      texts store the same number. */
  lemma PhoneNumberExample()
    ensures TryParseInt64("0912345678") == Some(912345678)
    ensures TryParseInt64("912345678") == Some(912345678)
  {
    assert Decimal(9) == "9";
    assert Decimal(91) == "91";
    assert Decimal(912) == "912";
    assert Decimal(9123) == "9123";
    assert Decimal(91234) == "91234";
    assert Decimal(912345) == "912345";
    assert Decimal(9123456) == "9123456";
    assert Decimal(91234567) == "91234567";
    assert Decimal(912345678) == "912345678";
    assert "0" + "912345678" == "0912345678";
    ParseFormatRoundTrip(912345678);
    LeadingZeroLost(Decimal(912345678));
  }

  /** Empty text does not parse. */
  lemma EmptyTextRejected()
    ensures TryParseInt64("") == None
  {
  }

  /** Text that holds, once trimmed, any character other than a digit after
      the optional leading sign fails to parse. */
  lemma NonDigitRejected(s: string, i: nat)
    requires var t := TrimBy(s, IsNumberWhite);
      i < |t| && !IsDigit(t[i]) && (i == 0 ==> t[0] != '+' && t[0] != '-')
    ensures TryParseInt64(s) == None
  {
    var t := TrimBy(s, IsNumberWhite);
    if t[0] == '+' || t[0] == '-' {
      assert t[1..][i - 1] == t[i];
    }
  }

  /** A sign with no digit after it fails to parse. */
  lemma LoneSignRejected(s: string)
    requires TrimBy(s, IsNumberWhite) == "-" || TrimBy(s, IsNumberWhite) == "+"
    ensures TryParseInt64(s) == None
  {
    var t := TrimBy(s, IsNumberWhite);
    assert t[1..] == [];
  }

  /** Digits whose value does not fit in a long fail to parse. */
  lemma OutOfRangeRejected(d: string)
    requires d != [] && AllDigits(d) && DigitsValue(d) > MaxInt64
    ensures TryParseInt64(d) == None
  {
    DigitNotWhite(d[0]);
    DigitNotWhite(d[|d| - 1]);
    TrimByUnchanged(d, IsNumberWhite);
    ParseUnsigned(d);
  }

  /** The same holds below the range: a minus sign before digits whose value exceeds 2^63. */
  lemma NegativeOutOfRangeRejected(d: string)
    requires d != [] && AllDigits(d) && DigitsValue(d) > -MinInt64
    ensures TryParseInt64("-" + d) == None
  {
    var m := "-" + d;
    DigitNotWhite(d[|d| - 1]);
    assert m[|m| - 1] == d[|d| - 1];
    TrimByUnchanged(m, IsNumberWhite);
    assert m[1..] == d;
  }
}

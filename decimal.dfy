/** Python's `str()` of an integer, and a reader that inverts it. */
module Decimal {
  import opened Wrappers

  /** Every character of `s` is an ASCII decimal digit. */
  predicate IsDigits(s: string)
  {
    forall i :: 0 <= i < |s| ==> '0' <= s[i] <= '9'
  }

  function DigitChar(d: nat): (c: char)
    requires d < 10
    ensures '0' <= c <= '9' && c as int - '0' as int == d
  {
    ('0' as int + d) as char
  }

  /** Decimal digits of `n`, most significant first, with no leading zero. */
  function NatToDecimal(n: nat): (r: string)
    ensures |r| >= 1 && IsDigits(r)
    ensures |r| > 1 ==> r[0] != '0'
  {
    if n < 10 then [DigitChar(n)] else NatToDecimal(n / 10) + [DigitChar(n % 10)]
  }

  /** The number a string of decimal digits denotes. */
  function DecimalValue(s: string): nat
    requires IsDigits(s)
  {
    if s == [] then 0
    else DecimalValue(s[..|s| - 1]) * 10 + (s[|s| - 1] as int - '0' as int)
  }

  /** Reading the digits back gives the number. */
  lemma {:induction false} DecimalRoundTrip(n: nat)
    ensures DecimalValue(NatToDecimal(n)) == n
  {
    if n >= 10 {
      DecimalRoundTrip(n / 10);
      var s := NatToDecimal(n);
      assert s[..|s| - 1] == NatToDecimal(n / 10);
    }
  }

  /** Python's `str(n)` for an integer: an optional '-' and decimal digits. */
  function IntToString(n: int): string
  {
    if n < 0 then "-" + NatToDecimal(-n) else NatToDecimal(n)
  }

  /** Reads an integer written as an optional '-' and at least one digit. */
  function ParseInt(s: string): Option<int>
  {
    if |s| >= 2 && s[0] == '-' && IsDigits(s[1..]) then Some(0 - DecimalValue(s[1..]))
    else if |s| >= 1 && IsDigits(s) then Some(DecimalValue(s))
    else None
  }

  /** A '-' followed by digits reads as the negated value of the digits. */
  lemma ParseNegative(d: string)
    requires |d| >= 1 && IsDigits(d)
    ensures ParseInt("-" + d) == Some(0 - DecimalValue(d))
  {
    assert ("-" + d)[1..] == d;
  }

  /** Digits alone read as their value. */
  lemma ParseDigits(d: string)
    requires |d| >= 1 && IsDigits(d)
    ensures ParseInt(d) == Some(DecimalValue(d))
  {
    assert d[0] != '-';
  }

  /** `str(crf)` loses nothing: reading it back gives `crf`. */
  lemma IntRoundTrip(n: int)
    ensures ParseInt(IntToString(n)) == Some(n)
  {
    if n < 0 {
      var m: nat := -n;
      var d := NatToDecimal(m);
      DecimalRoundTrip(m);
      ParseNegative(d);
      assert IntToString(n) == "-" + d;
    } else {
      var d := NatToDecimal(n);
      DecimalRoundTrip(n);
      ParseDigits(d);
      assert IntToString(n) == d;
    }
  }
}

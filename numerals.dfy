/** Python's `int()` and `str()` for integers given as decimal text. */
module Numerals {
  import opened Wrappers
  import opened Strings

  /** Python's `str(n)` for an integer. */
  function DigitChar(d: nat): char
    requires d < 10
  {
    ('0' as int + d) as char
  }

  function NatDigits(n: nat): (s: string)
    ensures |s| >= 1
    ensures forall i :: 0 <= i < |s| ==> '0' <= s[i] <= '9'
  {
    if n < 10 then [DigitChar(n)] else NatDigits(n / 10) + [DigitChar(n % 10)]
  }

  function IntToString(n: int): string {
    if n < 0 then "-" + NatDigits(-n) else NatDigits(n)
  }

  predicate AllDigits(s: string) {
    forall i :: 0 <= i < |s| ==> '0' <= s[i] <= '9'
  }

  /** The value of a string of decimal digits. */
  function DigitsValue(s: string): nat
    requires AllDigits(s)
  {
    if |s| == 0 then 0
    else DigitsValue(s[..|s| - 1]) * 10 + (s[|s| - 1] as int - '0' as int)
  }

  /** Python's `int(s)` for a string: surrounding whitespace, an optional
      sign, then one or more decimal digits; anything else is a ValueError,
      here `None`. */
  function ParseInt(s: string): (r: Option<int>)
    ensures r.Some? ==> Strip(s) != ""
    ensures r.Some? <==> SignedNumeral(Strip(s))
  {
    ParseSigned(Strip(s))
  }

  /** Text that is an optional `+` or `-` followed by one or more decimal
      digits, and nothing else. */
  predicate SignedNumeral(t: string) {
    || (|t| >= 2 && (t[0] == '+' || t[0] == '-') && AllDigits(t[1..]))
    || (|t| >= 1 && AllDigits(t))
  }

  /** An optional sign followed by one or more decimal digits: the digits'
      value, negated after a `-`. */
  function ParseSigned(t: string): (r: Option<int>)
    ensures r.Some? ==> t != ""
    ensures r.Some? <==> SignedNumeral(t)
    ensures r.Some? && t[0] == '-' ==> r.value + DigitsValue(t[1..]) == 0
    ensures r.Some? && t[0] == '+' ==> r.value == DigitsValue(t[1..])
    ensures r.Some? && t[0] != '-' && t[0] != '+' ==> r.value == DigitsValue(t)
  {
    if |t| > 0 && (t[0] == '+' || t[0] == '-') then
      var digits := t[1..];
      if |digits| > 0 && AllDigits(digits) then
        var v: int := DigitsValue(digits);
        Some(if t[0] == '-' then -v else v)
      else None
    else if |t| > 0 && AllDigits(t) then Some(DigitsValue(t))
    else None
  }

  /** A date, a decimal fraction, digits split by a space and a doubled
      sign are not integers. */
  lemma NotNumerals()
    ensures ParseInt("2019-01") == None
    ensures ParseInt("12.5") == None
    ensures ParseInt("1 2") == None
    ensures ParseInt("--1") == None
  {
    NotNumeral("2019-01", 4);
    NotNumeral("12.5", 2);
    NotNumeral("1 2", 1);
    NotNumeral("--1", 1);
  }

  /** Trimmed text with a character other than a digit after its first is
      not an integer. */
  lemma NotNumeral(s: string, k: nat)
    requires Trimmed(s) && 1 <= k < |s| && !('0' <= s[k] <= '9')
    ensures ParseInt(s) == None
  {
    StripTrimmed(s);
    assert s[1..][k - 1] == s[k];
  }

  lemma {:induction false} DigitsRoundTrip(n: nat)
    ensures DigitsValue(NatDigits(n)) == n
  {
    if n >= 10 {
      DigitsRoundTrip(n / 10);
      var s := NatDigits(n);
      assert s[..|s| - 1] == NatDigits(n / 10);
    }
  }

  /** `int(str(n)) == n` for every integer. */
  lemma ParseIntRoundTrip(n: int)
    ensures ParseInt(IntToString(n)) == Some(n)
  {
    IntStringTrimmed(n);
    ParseTrimmed(IntToString(n));
    SignedRoundTrip(n);
  }

  /** On text without surrounding whitespace, `int()` reads the sign and
      digits directly. */
  lemma ParseTrimmed(s: string)
    requires Trimmed(s)
    ensures ParseInt(s) == ParseSigned(s)
  {
    StripTrimmed(s);
  }

  /** `str(n)` has no surrounding whitespace. */
  lemma IntStringTrimmed(n: int)
    ensures Trimmed(IntToString(n))
  {
    var s := IntToString(n);
    var d := NatDigits(if n < 0 then -n else n);
    assert s[|s| - 1] == d[|d| - 1];
  }

  /** The sign and digits of `str(n)` read back as `n`. */
  lemma SignedRoundTrip(n: int)
    ensures ParseSigned(IntToString(n)) == Some(n)
  {
    if n < 0 {
      DigitsRoundTrip(-n);
      SignedNegative(NatDigits(-n), n);
    } else {
      DigitsRoundTrip(n);
      SignedNonNegative(NatDigits(n), n);
    }
  }

  lemma SignedNonNegative(d: string, n: int)
    requires |d| >= 1 && AllDigits(d) && DigitsValue(d) == n
    ensures ParseSigned(d) == Some(n)
  {
  }

  lemma SignedNegative(d: string, n: int)
    requires |d| >= 1 && AllDigits(d) && DigitsValue(d) == -n
    ensures ParseSigned("-" + d) == Some(n)
  {
    assert ("-" + d)[1..] == d;
  }
}

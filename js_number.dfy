/** JavaScript's `parseInt` and `parseFloat`, restricted to decimal notation.
    Both skip leading white space, read an optional sign and then the longest
    numeral that starts the rest; whatever follows is ignored, and a string
    with no numeral there parses to NaN, written None here. Numbers are exact
    integers and reals: the rounding of IEEE doubles is not modelled. */
module JsNumber {
  import opened Wrappers
  import JsString

  predicate IsDigit(c: char) {
    '0' <= c <= '9'
  }

  predicate AllDigits(s: string) {
    forall i :: 0 <= i < |s| ==> IsDigit(s[i])
  }

  function DigitValue(c: char): (d: nat)
    requires IsDigit(c)
    ensures d < 10
  {
    c as int - '0' as int
  }

  /** The value of a decimal numeral, most significant digit first. */
  function DigitsValue(s: string): nat
    requires AllDigits(s)
  {
    if |s| == 0 then 0 else DigitsValue(s[..|s| - 1]) * 10 + DigitValue(s[|s| - 1])
  }

  /** The length of the run of digits that starts `s`. */
  function DigitRun(s: string): (n: nat)
    ensures n <= |s| && AllDigits(s[..n])
    ensures n < |s| ==> !IsDigit(s[n])
  {
    if |s| > 0 && IsDigit(s[0]) then
      var n := 1 + DigitRun(s[1..]);
      assert s[..n] == [s[0]] + s[1..][..n - 1];
      n
    else 0
  }

  /** A string past its leading white space and optional sign. */
  datatype Signed = Signed(rest: string, negative: bool)

  /** The text after leading white space and an optional sign, and whether
      that sign was a minus. */
  function Unsigned(s: string): Signed
  {
    var t := JsString.TrimStart(s);
    if |t| > 0 && (t[0] == '-' || t[0] == '+') then Signed(t[1..], t[0] == '-') else Signed(t, false)
  }

  /** `parseInt(s)` (radix 10). */
  function ParseInt(s: string): (r: Option<int>)
    ensures r.Some? <==> DigitRun(Unsigned(s).rest) > 0
  {
    var u := Unsigned(s);
    var n := DigitRun(u.rest);
    if n == 0 then None
    else
      var m: int := DigitsValue(u.rest[..n]);
      Some(if u.negative then -m else m)
  }

  /** The digits after a decimal point that starts `rest`, if it does. */
  function Fraction(rest: string): (f: string)
    ensures AllDigits(f)
  {
    if |rest| > 0 && rest[0] == '.' then rest[1..][..DigitRun(rest[1..])] else ""
  }

  /** The value of the digits after a decimal point, 0.d1d2... read from
      the last digit inwards. */
  function FractionValue(f: string): real
    requires AllDigits(f)
  {
    if |f| == 0 then 0.0 else (DigitValue(f[0]) as real + FractionValue(f[1..])) / 10.0
  }

  /** `parseFloat(s)`, for numerals with an optional fraction and no exponent. */
  function ParseFloat(s: string): (r: Option<real>)
    ensures r.Some? <==> (DigitRun(Unsigned(s).rest) > 0 || |Fraction(Unsigned(s).rest[DigitRun(Unsigned(s).rest)..])| > 0)
  {
    var u := Unsigned(s);
    var n := DigitRun(u.rest);
    var f := Fraction(u.rest[n..]);
    if n == 0 && |f| == 0 then None
    else
      var m := DigitsValue(u.rest[..n]) as real + FractionValue(f);
      Some(if u.negative then -m else m)
  }

  /** The decimal numeral of a natural number, as `n.toString()` writes it. */
  function NatToString(n: nat): (s: string)
    ensures |s| >= 1 && AllDigits(s)
    ensures n < 10 <==> |s| == 1
  {
    if n < 10 then ['0' + n as char]
    else
      var s := NatToString(n / 10);
      assert |s| >= 1;
      s + ['0' + (n % 10) as char]
  }

  lemma {:induction false} DigitsValueOfNatToString(n: nat)
    ensures DigitsValue(NatToString(n)) == n
  {
    if n >= 10 {
      DigitsValueOfNatToString(n / 10);
      var s := NatToString(n);
      assert s[..|s| - 1] == NatToString(n / 10);
    }
  }

  lemma {:induction false} DigitRunOfDigits(s: string)
    requires AllDigits(s)
    ensures DigitRun(s) == |s|
  {
    if |s| > 0 {
      DigitRunOfDigits(s[1..]);
    }
  }

  /** A numeral has no white space and no sign to skip. */
  lemma UnsignedNumeral(s: string)
    requires |s| > 0 && AllDigits(s)
    ensures Unsigned(s) == Signed(s, false)
  {
    assert IsDigit(s[0]);
    assert !JsString.IsSpace(s[0]);
    assert JsString.TrimStart(s) == s;
  }

  /** A numeral is read back in full: the value it denotes, from parseInt and
      from parseFloat alike. */
  lemma ParseNumeral(s: string)
    requires |s| > 0 && AllDigits(s)
    ensures ParseInt(s) == Some(DigitsValue(s) as int)
    ensures ParseFloat(s) == Some(DigitsValue(s) as real)
  {
    ParseIntNumeral(s);
    ParseFloatNumeral(s);
  }

  lemma ParseIntNumeral(s: string)
    requires |s| > 0 && AllDigits(s)
    ensures ParseInt(s) == Some(DigitsValue(s) as int)
  {
    UnsignedNumeral(s);
    DigitRunOfDigits(s);
    assert s[..|s|] == s;
  }

  lemma ParseFloatNumeral(s: string)
    requires |s| > 0 && AllDigits(s)
    ensures ParseFloat(s) == Some(DigitsValue(s) as real)
  {
    UnsignedNumeral(s);
    DigitRunOfDigits(s);
    NumeralHasNoFraction(s);
    assert s[..|s|] == s;
  }

  lemma NumeralHasNoFraction(s: string)
    requires |s| > 0 && AllDigits(s) && DigitRun(s) == |s|
    ensures Fraction(s[DigitRun(s)..]) == ""
  {
  }

  /** parseInt inverts toString on the natural numbers. */
  lemma ParseIntOfNatToString(n: nat)
    ensures ParseInt(NatToString(n)) == Some(n)
    ensures ParseFloat(NatToString(n)) == Some(n as real)
  {
    ParseNumeral(NatToString(n));
    DigitsValueOfNatToString(n);
  }

  /** A leading zero does not change a numeral's value. */
  lemma {:induction false} DigitsValueLeadingZero(s: string)
    requires AllDigits(s)
    ensures DigitsValue("0" + s) == DigitsValue(s)
  {
    if |s| > 0 {
      var t := "0" + s;
      assert t[..|t| - 1] == "0" + s[..|s| - 1];
      DigitsValueLeadingZero(s[..|s| - 1]);
    }
  }
}

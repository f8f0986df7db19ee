/**
 * Decimal numerals as Python's `int()` and `float()` read them, restricted
 * to plain ASCII forms: an optional sign, digits, an optional fraction and an
 * optional exponent. Values are unbounded integers and exact reals.
 */
module Numerals {
  import opened Wrappers
  import opened Text

  predicate IsDigit(c: char) {
    '0' <= c <= '9'
  }

  function DigitValue(c: char): nat
    requires IsDigit(c)
  {
    c as int - '0' as int
  }

  function DigitChar(d: nat): char
    requires d < 10
  {
    ('0' as int + d) as char
  }

  predicate AllDigits(s: string) {
    forall i :: 0 <= i < |s| ==> IsDigit(s[i])
  }

  function Pow10(n: nat): (p: nat)
    ensures p >= 1
  {
    if n == 0 then 1 else 10 * Pow10(n - 1)
  }

  /** The value of a run of decimal digits, most significant first. */
  function DigitsValue(s: string): (v: nat)
    requires AllDigits(s)
    ensures v < Pow10(|s|)
  {
    if |s| == 0 then 0 else DigitsValue(s[..|s| - 1]) * 10 + DigitValue(s[|s| - 1])
  }

  /** `int(s)` for a field that must be a non-empty run of digits. */
  function ParseNat(s: string): Option<nat> {
    if |s| > 0 && AllDigits(s) then Some(DigitsValue(s)) else None
  }

  /** `int(s)`: an optional sign followed by digits. */
  function ParseInt(s: string): Option<int> {
    if |s| > 0 && (s[0] == '+' || s[0] == '-') then
      var n :- ParseNat(s[1..]);
      var v: int := if s[0] == '-' then -(n as int) else n;
      Some(v)
    else
      var n :- ParseNat(s);
      Some(n)
  }

  /** `n` written with exactly `width` digits, zero-padded on the left. */
  function Padded(n: nat, width: nat): (s: string)
    ensures |s| == width && AllDigits(s)
  {
    if width == 0 then "" else Padded(n / 10, width - 1) + [DigitChar(n % 10)]
  }

  /** A number that fits in `width` digits reads back from its padded form. */
  lemma {:induction false} PaddedValue(n: nat, width: nat)
    requires n < Pow10(width)
    ensures DigitsValue(Padded(n, width)) == n
  {
    if width > 0 {
      var s := Padded(n, width);
      assert s[..|s| - 1] == Padded(n / 10, width - 1);
      assert n / 10 < Pow10(width - 1);
      PaddedValue(n / 10, width - 1);
    }
  }

  /** The position of the first exponent marker `e` or `E`, or `|s|` if none. */
  function ExponentIndex(s: string): (i: nat)
    ensures i <= |s|
    ensures forall k :: 0 <= k < i ==> s[k] != 'e' && s[k] != 'E'
    ensures i < |s| ==> s[i] == 'e' || s[i] == 'E'
  {
    if |s| == 0 then 0
    else if s[0] == 'e' || s[0] == 'E' then 0
    else 1 + ExponentIndex(s[1..])
  }

  /** Digits with at most one decimal point, and at least one digit. */
  function ParseMantissa(s: string): Option<real> {
    if '.' in s then
      var i := IndexOf(s, '.');
      var whole, fraction := s[..i], s[i + 1..];
      if (|whole| == 0 && |fraction| == 0) || !AllDigits(whole) || !AllDigits(fraction) then None
      else Some(DecimalValue(whole, fraction))
    else
      var n :- ParseNat(s);
      Some(n as real)
  }

  /** `m * 10^e` for any integer exponent. */
  function Scale(m: real, e: int): real {
    if e >= 0 then m * Pow10(e) as real else m / Pow10(-e) as real
  }

  function ParseUnsignedReal(s: string): Option<real> {
    var e := ExponentIndex(s);
    var m :- ParseMantissa(s[..e]);
    if e == |s| then Some(m)
    else
      var x :- ParseInt(s[e + 1..]);
      Some(Scale(m, x))
  }

  /** `float(s)` on an optional sign, a mantissa and an optional exponent. */
  function ParseReal(s: string): Option<real> {
    if |s| > 0 && (s[0] == '+' || s[0] == '-') then
      var v :- ParseUnsignedReal(s[1..]);
      Some(if s[0] == '-' then -v else v)
    else
      ParseUnsignedReal(s)
  }

  /** Whatever `int()` accepts, `float()` accepts with the same value. */
  lemma ParseRealOfInteger(s: string)
    requires ParseInt(s).Some?
    ensures ParseReal(s) == Some(ParseInt(s).value as real)
  {
    var t := if s[0] == '+' || s[0] == '-' then s[1..] else s;
    assert ParseNat(t).Some?;
    DigitsAreUnsignedReal(t);
  }

  lemma DigitsAreUnsignedReal(t: string)
    requires |t| > 0 && AllDigits(t)
    ensures ParseUnsignedReal(t) == Some(DigitsValue(t) as real)
  {
    assert forall k :: 0 <= k < |t| ==> t[k] != 'e' && t[k] != 'E' && t[k] != '.';
    assert ExponentIndex(t) == |t|;
    assert t[..|t|] == t;
    assert '.' !in t;
    assert ParseMantissa(t) == Some(DigitsValue(t) as real);
  }

  /** The exponent's sign followed by its magnitude in `width` digits. */
  function ExponentDigits(exponent: int, width: nat): string
    requires (if exponent < 0 then -exponent else exponent) < Pow10(width)
  {
    (if exponent < 0 then "-" else "+") + Padded(if exponent < 0 then -exponent else exponent, width)
  }

  /**
   * The numeral `whole.fraction` followed by `e`, the exponent's sign and its
   * magnitude in `width` digits, as the oscilloscope writes its scale factors
   * (`1.000000e-02`).
   */
  function Scientific(whole: string, fraction: string, exponent: int, width: nat): string
    requires (if exponent < 0 then -exponent else exponent) < Pow10(width)
  {
    whole + "." + fraction + "e" + ExponentDigits(exponent, width)
  }

  /** The value of the digits `whole.fraction`. */
  function DecimalValue(whole: string, fraction: string): real
    requires AllDigits(whole) && AllDigits(fraction)
  {
    DigitsValue(whole) as real + DigitsValue(fraction) as real / Pow10(|fraction|) as real
  }

  /** The exponent marker is the first `e` or `E`. */
  lemma ExponentAt(s: string, e: nat)
    requires e < |s| && s[e] == 'e'
    requires forall k :: 0 <= k < e ==> s[k] != 'e' && s[k] != 'E'
    ensures ExponentIndex(s) == e
  {
  }

  /** `whole.fraction` reads as the value of its digits. */
  lemma MantissaValue(whole: string, fraction: string)
    requires |whole| > 0 && AllDigits(whole) && AllDigits(fraction)
    ensures ParseMantissa(whole + "." + fraction) == Some(DecimalValue(whole, fraction))
  {
    var mantissa := whole + "." + fraction;
    assert mantissa[|whole|] == '.';
    assert mantissa[..|whole|] == whole;
    assert '.' !in whole by {
      assert forall k :: 0 <= k < |whole| ==> IsDigit(whole[k]);
    }
    IndexOfFirst(mantissa, '.', |whole|);
    assert mantissa[|whole| + 1..] == fraction;
  }

  /** A sign and a padded magnitude read back as the signed exponent. */
  lemma SignedExponentValue(exponent: int, width: nat)
    requires 0 < width && (if exponent < 0 then -exponent else exponent) < Pow10(width)
    ensures ParseInt(ExponentDigits(exponent, width)) == Some(exponent)
  {
    var magnitude: nat := if exponent < 0 then -exponent else exponent;
    PaddedValue(magnitude, width);
    SignedDigitsValue(exponent < 0, Padded(magnitude, width), magnitude);
  }

  /** A sign followed by a numeral reads as the signed value of the numeral. */
  lemma SignedDigitsValue(negative: bool, digits: string, magnitude: nat)
    requires ParseNat(digits) == Some(magnitude)
    ensures ParseInt((if negative then "-" else "+") + digits)
              == Some(if negative then -(magnitude as int) else magnitude as int)
  {
    var t := (if negative then "-" else "+") + digits;
    assert t[1..] == digits;
  }

  /** An unsigned numeral with an exponent denotes its mantissa scaled by it. */
  lemma ExponentForm(s: string, e: nat, m: real, x: int)
    requires ExponentIndex(s) == e && e < |s| && s[0] != '+' && s[0] != '-'
    requires ParseMantissa(s[..e]) == Some(m) && ParseInt(s[e + 1..]) == Some(x)
    ensures ParseReal(s) == Some(Scale(m, x))
  {
    assert ParseReal(s) == ParseUnsignedReal(s);
  }

  /** A mantissa free of markers, `e` and an exponent read as the scaled mantissa. */
  lemma MarkedForm(mantissa: string, tail: string, m: real, x: int)
    requires |mantissa| > 0 && mantissa[0] != '+' && mantissa[0] != '-'
    requires forall k :: 0 <= k < |mantissa| ==> mantissa[k] != 'e' && mantissa[k] != 'E'
    requires ParseMantissa(mantissa) == Some(m) && ParseInt(tail) == Some(x)
    ensures ParseReal(mantissa + "e" + tail) == Some(Scale(m, x))
  {
    var s := mantissa + "e" + tail;
    var e := |mantissa|;
    assert s[..e] == mantissa;
    assert s[e + 1..] == tail;
    assert forall k :: 0 <= k < e ==> s[k] == mantissa[k];
    ExponentAt(s, e);
    ExponentForm(s, e, m, x);
  }

  /** No exponent marker occurs among the digits and the point of `whole.fraction`. */
  lemma NoMarkerInMantissa(whole: string, fraction: string)
    requires AllDigits(whole) && AllDigits(fraction)
    ensures var mantissa := whole + "." + fraction;
      forall k :: 0 <= k < |mantissa| ==> mantissa[k] != 'e' && mantissa[k] != 'E'
  {
    var mantissa := whole + "." + fraction;
    forall k | 0 <= k < |mantissa|
      ensures mantissa[k] != 'e' && mantissa[k] != 'E'
    {
      if k < |whole| {
        assert IsDigit(whole[k]);
      } else if k > |whole| {
        assert mantissa[k] == fraction[k - |whole| - 1];
        assert IsDigit(fraction[k - |whole| - 1]);
      }
    }
  }

  /**
   * A numeral in scientific notation reads back as its digits' value times
   * ten to its exponent, for either sign of the exponent.
   */
  lemma ScientificValue(whole: string, fraction: string, exponent: int, width: nat)
    requires |whole| > 0 && AllDigits(whole) && AllDigits(fraction)
    requires 0 < width && (if exponent < 0 then -exponent else exponent) < Pow10(width)
    ensures ParseReal(Scientific(whole, fraction, exponent, width))
              == Some(Scale(DecimalValue(whole, fraction), exponent))
  {
    MantissaValue(whole, fraction);
    SignedExponentValue(exponent, width);
    NoMarkerInMantissa(whole, fraction);
    assert (whole + "." + fraction)[0] == whole[0] && IsDigit(whole[0]);
    MarkedForm(whole + "." + fraction, ExponentDigits(exponent, width), DecimalValue(whole, fraction), exponent);
  }
}

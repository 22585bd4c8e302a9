/**
 * The part of `new BigDecimal(String)` the amount parser needs: an
 * unsigned plain decimal literal, digits with an optional fraction.
 * Values are exact reals, so the BigDecimal scale is not kept.
 */
module Decimal {
  import opened Wrappers
  import opened JavaString

  predicate IsDigit(c: char) {
    '0' <= c <= '9'
  }

  predicate AllDigits(s: string) {
    forall i :: 0 <= i < |s| ==> IsDigit(s[i])
  }

  function Pow10(n: nat): (p: nat)
    ensures p >= 1
  {
    if n == 0 then 1 else 10 * Pow10(n - 1)
  }

  /** The value of a digit string read in base ten; it stays below 10^|s|. */
  function DigitsValue(s: string): (n: nat)
    requires AllDigits(s)
    ensures n < Pow10(|s|)
  {
    if s == [] then 0
    else 10 * DigitsValue(s[..|s| - 1]) + (s[|s| - 1] as int - '0' as int)
  }

  /** The value of the digits after the decimal point: a fraction in [0, 1). */
  function FractionValue(f: string): (x: real)
    requires AllDigits(f)
    ensures 0.0 <= x < 1.0
  {
    var n, p := DigitsValue(f) as real, Pow10(|f|) as real;
    QuotientBelowOne(n, p);
    n / p
  }

  lemma QuotientBelowOne(n: real, p: real)
    requires 0.0 <= n < p
    ensures 0.0 <= n / p < 1.0
  {
    var q := n / p;
    assert q * p == n;
  }

  /**
   * `new BigDecimal(s)` on an unsigned plain literal. It accepts digits,
   * optionally followed by '.' and more digits, with at least one digit in
   * all ("7", "7.", ".5", "7.25"); anything else is `None`. Java throws
   * `NumberFormatException` on most of these, but it also accepts a sign,
   * an exponent and non-ASCII digits, which this model rejects.
   */
  function ParseDecimal(s: string): (r: Option<real>)
    ensures r.Some? ==> r.value >= 0.0
    ensures r.Some? ==> exists i :: 0 <= i < |s| && IsDigit(s[i])
    ensures r.Some? ==> forall i :: 0 <= i < |s| ==> IsDigit(s[i]) || s[i] == '.'
    ensures r.Some? ==> forall i, j :: 0 <= i < j < |s| && s[i] == '.' ==> s[j] != '.'
  {
    match IndexOf(s, '.')
    case None =>
      if s != [] && AllDigits(s) then
        assert IsDigit(s[0]);
        Some(DigitsValue(s) as real)
      else None
    case Some(p) =>
      var whole, fraction := s[..p], s[p + 1..];
      if |s| >= 2 && AllDigits(whole) && AllDigits(fraction) then
        assert p > 0 ==> IsDigit(s[0]);
        assert p == 0 ==> IsDigit(s[1]);
        assert forall i :: 0 <= i < |s| && i != p ==> IsDigit(s[i]) by {
          forall i | 0 <= i < |s| && i != p ensures IsDigit(s[i]) {
            if i < p { assert s[i] == whole[i]; } else { assert s[i] == fraction[i - p - 1]; }
          }
        }
        Some(DigitsValue(whole) as real + FractionValue(fraction))
      else None
  }

  /** A plain digit string parses to its value. */
  lemma {:induction false} ParseWholeNumber(d: string)
    requires d != [] && AllDigits(d)
    ensures ParseDecimal(d) == Some(DigitsValue(d) as real)
  {
    assert '.' !in d by {
      forall i | 0 <= i < |d| ensures d[i] != '.' {
        assert IsDigit(d[i]);
      }
    }
  }

  /** Digits, a point and digits parse to the whole part plus the fraction. */
  lemma {:induction false} ParseWithFraction(d: string, f: string)
    requires AllDigits(d) && AllDigits(f) && |d| + |f| >= 1
    ensures ParseDecimal(d + "." + f) == Some(DigitsValue(d) as real + FractionValue(f))
  {
    var s := d + "." + f;
    assert '.' !in d by {
      forall i | 0 <= i < |d| ensures d[i] != '.' {
        assert IsDigit(d[i]);
      }
    }
    assert s[..|d|] == d && s[|d|] == '.';
    assert s[|d| + 1..] == f;
  }
}

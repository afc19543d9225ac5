/**
 * Decimal numerals over ASCII digits: the shape every component of a
 * normalised version has, its numeric value, and the rendering of a
 * natural number as the one numeral without superfluous leading zeros.
 */
module Numerals {

  predicate IsDigit(c: char)
  {
    '0' <= c <= '9'
  }

  predicate AllDigits(s: string)
  {
    forall i :: 0 <= i < |s| ==> IsDigit(s[i])
  }

  /** A non-empty digit string with no leading zero, "0" itself excepted. */
  predicate IsNumeral(s: string)
  {
    |s| > 0 && AllDigits(s) && (s[0] == '0' ==> |s| == 1)
  }

  function DigitValue(c: char): (d: nat)
    requires IsDigit(c)
    ensures d < 10
  {
    c as int - '0' as int
  }

  function DigitChar(d: nat): (c: char)
    requires d < 10
    ensures IsDigit(c) && DigitValue(c) == d
  {
    ('0' as int + d) as char
  }

  /** The number a digit string denotes; the empty string denotes 0. */
  function Value(s: string): nat
    requires AllDigits(s)
  {
    if |s| == 0 then 0 else Value(s[..|s| - 1]) * 10 + DigitValue(s[|s| - 1])
  }

  /** The decimal rendering of `n`. */
  function Decimal(n: nat): (s: string)
    ensures IsNumeral(s)
    ensures Value(s) == n
  {
    if n < 10 then [DigitChar(n)]
    else
      var s := Decimal(n / 10) + [DigitChar(n % 10)];
      assert s[..|s| - 1] == Decimal(n / 10);
      s
  }

  /** A numeral whose first digit is not 0 denotes at least 1. */
  lemma {:induction false} NonZeroLead(s: string)
    requires |s| > 0 && AllDigits(s) && s[0] != '0'
    ensures Value(s) >= 1
  {
    if |s| > 1 {
      NonZeroLead(s[..|s| - 1]);
    }
  }

  /** A leading zero does not change the value of a digit string. */
  lemma {:induction false} LeadingZero(s: string)
    requires AllDigits(s)
    ensures AllDigits(['0'] + s) && Value(['0'] + s) == Value(s)
    decreases |s|
  {
    var t := ['0'] + s;
    if |s| > 0 {
      var init := s[..|s| - 1];
      LeadingZero(init);
      assert t[..|t| - 1] == ['0'] + init;
    }
  }

  /** Dividing `q * 10 + d` by ten gives back `q` and the digit `d`. */
  lemma DivTen(q: nat, d: nat)
    requires d < 10
    ensures (q * 10 + d) / 10 == q && (q * 10 + d) % 10 == d
  {
  }

  /** Every numeral is the rendering of its own value. */
  lemma {:induction false} DecimalValue(s: string)
    requires IsNumeral(s)
    ensures Decimal(Value(s)) == s
    decreases |s|
  {
    if |s| > 1 {
      var init := s[..|s| - 1];
      var last := s[|s| - 1];
      var n := Value(s);
      assert AllDigits(init);
      NonZeroLead(init);
      DecimalValue(init);
      assert n == Value(init) * 10 + DigitValue(last);
      DivTen(Value(init), DigitValue(last));
      assert DigitChar(n % 10) == last;
      assert Decimal(n) == Decimal(n / 10) + [DigitChar(n % 10)];
      assert s == init + [last];
    }
  }

  /** Two numerals are equal exactly when their values are. */
  lemma NumeralsEqual(s: string, t: string)
    requires IsNumeral(s) && IsNumeral(t)
    ensures s == t <==> Value(s) == Value(t)
  {
    DecimalValue(s);
    DecimalValue(t);
  }
}

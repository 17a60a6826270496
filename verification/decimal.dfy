/** Decimal rendering of integers, as Swift string interpolation and
    `String(format: "%02d")` produce it, with a parser that reads it back. */
module Decimal {

  predicate IsDigit(c: char) {
    '0' <= c <= '9'
  }

  predicate AllDigits(s: string) {
    forall i :: 0 <= i < |s| ==> IsDigit(s[i])
  }

  function DigitChar(d: nat): (c: char)
    requires d < 10
    ensures IsDigit(c)
  {
    (48 + d) as char
  }

  function DigitValue(c: char): (d: nat)
    requires IsDigit(c)
    ensures d < 10
  {
    c as int - 48
  }

  /** Digits as Swift prints an integer: at least one, and no leading
      zero unless the number is zero itself. */
  predicate Canonical(s: string) {
    1 <= |s| && AllDigits(s) && (|s| > 1 ==> s[0] != '0')
  }

  /** Digits as `%02d` prints a non-negative integer: at least two, with a
      leading zero only in a two-digit field. */
  predicate Padded2(s: string) {
    2 <= |s| && AllDigits(s) && (|s| > 2 ==> s[0] != '0')
  }

  /** The decimal digits of `n`, most significant first, with no leading
      zero (zero itself is "0"). */
  function NatToString(n: nat): (s: string)
    ensures Canonical(s)
    decreases n
  {
    if n < 10 then [DigitChar(n)] else NatToString(n / 10) + [DigitChar(n % 10)]
  }

  /** The value of a string of decimal digits. */
  function ParseNat(s: string): nat
    requires AllDigits(s)
  {
    if |s| == 0 then 0 else 10 * ParseNat(s[..|s| - 1]) + DigitValue(s[|s| - 1])
  }

  /** Rendering a natural number and parsing it back gives the number. */
  lemma {:induction false} ParseNatToString(n: nat)
    ensures ParseNat(NatToString(n)) == n
    decreases n
  {
    var s := NatToString(n);
    if n >= 10 {
      ParseNatToString(n / 10);
      assert s[..|s| - 1] == NatToString(n / 10);
      assert DigitValue(s[|s| - 1]) == n % 10;
    } else {
      assert s[..|s| - 1] == [];
    }
  }

  /** Swift's `"\(n)"` for an `Int`: the canonical digits of the
      magnitude, with a minus sign before negative values. */
  function IntToString(n: int): (s: string)
    ensures 1 <= |s|
    ensures 0 <= n ==> Canonical(s) && ParseNat(s) == n
    ensures n < 0 ==> 2 <= |s| && s[0] == '-' && Canonical(s[1..]) && ParseNat(s[1..]) == -n
  {
    if n < 0 then
      ParseNatToString(-n);
      var s := "-" + NatToString(-n);
      assert s[1..] == NatToString(-n);
      s
    else
      ParseNatToString(n);
      NatToString(n)
  }

  /** `String(format: "%02d", n)` for a non-negative `n`: the canonical
      digits, left-padded with one zero when there is only one. */
  function Pad2(n: nat): (s: string)
    ensures Padded2(s)
    ensures ParseNat(s) == n
    ensures n < 100 ==> |s| == 2
    ensures n < 10 ==> s[0] == '0'
    ensures 10 <= n ==> Canonical(s)
  {
    if n < 10 then
      var s := ['0', DigitChar(n)];
      assert s[..1] == ['0'];
      assert ParseNat(s[..1]) == 10 * ParseNat([]) + 0;
      s
    else
      ParseNatToString(n);
      if n < 100 then TwoDigitsBelowHundred(n); NatToString(n) else NatToString(n)
  }

  lemma TwoDigitsBelowHundred(n: nat)
    requires 10 <= n < 100
    ensures |NatToString(n)| == 2
  {
  }

  /** A string of digits that starts with a non-zero digit has a positive
      value. */
  lemma {:induction false} LeadingDigitPositive(s: string)
    requires 1 <= |s| && AllDigits(s) && s[0] != '0'
    ensures 1 <= ParseNat(s)
    ensures 2 <= |s| ==> 10 <= ParseNat(s)
    decreases |s|
  {
    if 2 <= |s| {
      var prefix := s[..|s| - 1];
      assert prefix[0] == s[0];
      LeadingDigitPositive(prefix);
    }
  }

  /** Canonical digits are determined by their value: they are exactly
      what `NatToString` renders for it. So `IntToString` pins the text
      Swift prints, not just its value. */
  lemma {:induction false} CanonicalUnique(s: string)
    requires Canonical(s)
    ensures s == NatToString(ParseNat(s))
    decreases |s|
  {
    var n := ParseNat(s);
    var last := s[|s| - 1];
    if |s| == 1 {
      assert s[..0] == [] && ParseNat(s[..0]) == 0;
      assert n == DigitValue(last);
      assert DigitChar(DigitValue(last)) == last;
    } else {
      var prefix := s[..|s| - 1];
      assert prefix[0] == s[0];
      assert Canonical(prefix);
      LeadingDigitPositive(s);
      CanonicalUnique(prefix);
      assert n / 10 == ParseNat(prefix) && n % 10 == DigitValue(last);
      assert DigitChar(DigitValue(last)) == last;
      assert s == prefix + [last];
    }
  }

  /** A `%02d` field is determined by its value. */
  lemma Padded2Unique(s: string)
    requires Padded2(s)
    ensures s == Pad2(ParseNat(s))
  {
    var n := ParseNat(s);
    if s[0] == '0' {
      assert |s| == 2;
      assert s[..1] == ['0'] && ParseNat(s[..1]) == 10 * ParseNat([]) + 0;
      assert n == DigitValue(s[1]) && DigitChar(DigitValue(s[1])) == s[1];
    } else {
      LeadingDigitPositive(s);
      CanonicalUnique(s);
    }
  }
}

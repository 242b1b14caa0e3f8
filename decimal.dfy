/** Decimal rendering of integers as Python's `str(int)` (and therefore an
    f-string's `{n}`) produces it: an optional minus sign followed by the digits
    of the magnitude, without leading zeros. A parser for exactly that
    canonical form is the rendering's inverse. */
module Decimal {
  import opened Wrappers

  predicate IsDigit(c: char) {
    '0' <= c <= '9'
  }

  predicate AllDigits(s: string) {
    forall k :: 0 <= k < |s| ==> IsDigit(s[k])
  }

  /** A non-empty digit string with no superfluous leading zero. */
  predicate IsCanonicalNat(s: string) {
    |s| > 0 && AllDigits(s) && (|s| == 1 || s[0] != '0')
  }

  function DigitValue(c: char): (d: nat)
    requires IsDigit(c)
    ensures d < 10
  {
    c as int - '0' as int
  }

  function DigitChar(d: nat): (c: char)
    requires d < 10
    ensures IsDigit(c) && DigitValue(c) == d
  {
    (d + '0' as int) as char
  }

  /** The number a digit string denotes. */
  function Value(s: string): nat
    requires AllDigits(s)
  {
    if |s| == 0 then 0 else Value(s[..|s| - 1]) * 10 + DigitValue(s[|s| - 1])
  }

  function NatToString(n: nat): string
  {
    if n < 10 then [DigitChar(n)] else NatToString(n / 10) + [DigitChar(n % 10)]
  }

  /** `str(i)` in Python, for integers under its 4300-digit conversion limit
      (beyond it Python raises instead of rendering). */
  function IntToString(i: int): string
  {
    if i < 0 then "-" + NatToString(-i) else NatToString(i)
  }

  /** Reads back exactly the texts IntToString produces; "-0", "007" and ""
      are rejected. */
  function ParseInt(s: string): Option<int>
  {
    if |s| > 0 && s[0] == '-' then
      if IsCanonicalNat(s[1..]) && s[1..] != "0" then Some(-(Value(s[1..]) as int)) else None
    else if IsCanonicalNat(s) then Some(Value(s))
    else None
  }

  lemma {:induction false} NatToStringCanonical(n: nat)
    ensures IsCanonicalNat(NatToString(n)) && Value(NatToString(n)) == n
    decreases n
  {
    var s := NatToString(n);
    if n < 10 {
      assert s[..0] == [];
    } else {
      var p := NatToString(n / 10);
      NatToStringCanonical(n / 10);
      assert s == p + [DigitChar(n % 10)];
      assert s[..|s| - 1] == p;
      assert s[0] == p[0];
    }
  }

  lemma {:induction false} LeadingNonzeroPositive(s: string)
    requires |s| > 0 && AllDigits(s) && s[0] != '0'
    ensures Value(s) >= 1
    decreases |s|
  {
    if |s| > 1 {
      var p := s[..|s| - 1];
      assert p[0] == s[0];
      LeadingNonzeroPositive(p);
    }
  }

  /** A canonical digit string is the rendering of the number it denotes. */
  lemma {:induction false} CanonicalIsRendering(s: string)
    requires IsCanonicalNat(s)
    ensures NatToString(Value(s)) == s
    decreases |s|
  {
    var p := s[..|s| - 1];
    var d := DigitValue(s[|s| - 1]);
    assert DigitChar(d) == s[|s| - 1];
    if |s| == 1 {
      assert p == [];
      assert s == [s[0]];
    } else {
      assert p[0] == s[0];
      LeadingNonzeroPositive(p);
      CanonicalIsRendering(p);
      var v := Value(s);
      assert v == Value(p) * 10 + d;
      assert v / 10 == Value(p) && v % 10 == d;
      assert s == p + [s[|s| - 1]];
    }
  }

  /** Parsing a rendering gives back the integer. */
  lemma IntToStringRoundTrip(i: int)
    ensures ParseInt(IntToString(i)) == Some(i)
  {
    if i < 0 {
      var m := NatToString(-i);
      NatToStringCanonical(-i);
      assert IntToString(i)[1..] == m;
    } else {
      NatToStringCanonical(i);
      assert IsDigit(IntToString(i)[0]);
    }
  }

  /** ParseInt accepts nothing but renderings: the two directions together say
      that IntToString is a bijection onto the texts ParseInt accepts. */
  lemma ParseIntOnlyRenderings(s: string, i: int)
    requires ParseInt(s) == Some(i)
    ensures IntToString(i) == s
  {
    if |s| > 0 && s[0] == '-' {
      var m := s[1..];
      CanonicalIsRendering(m);
      assert Value(m) != 0 by {
        if |m| == 1 { assert m == [m[0]]; } else { LeadingNonzeroPositive(m); }
      }
      assert s == "-" + m;
    } else {
      CanonicalIsRendering(s);
    }
  }

  lemma IntToStringInjective(i: int, j: int)
    requires IntToString(i) == IntToString(j)
    ensures i == j
  {
    IntToStringRoundTrip(i);
    IntToStringRoundTrip(j);
  }

  /** Every character of a rendering is a digit or the minus sign, and at least
      one is a digit; so it is never empty and holds no space or quote. */
  lemma IntToStringCharacters(i: int)
    ensures |IntToString(i)| > 0
    ensures forall k :: 0 <= k < |IntToString(i)| ==> IsDigit(IntToString(i)[k]) || IntToString(i)[k] == '-'
    ensures IsDigit(IntToString(i)[|IntToString(i)| - 1])
  {
    var m := NatToString(if i < 0 then -i else i);
    NatToStringCanonical(if i < 0 then -i else i);
    assert IntToString(i) == if i < 0 then "-" + m else m;
  }
}

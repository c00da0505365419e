/**
 Decimal rendering of non-negative integers, as a JavaScript template literal
 renders an integral HTTP status code (`${response.status}`), together with the
 parser that inverts it.
 */
module Decimal {
  import opened Wrappers

  predicate IsDigit(c: char) {
    '0' <= c <= '9'
  }

  predicate AllDigits(s: string) {
    forall i :: 0 <= i < |s| ==> IsDigit(s[i])
  }

  function DigitChar(d: nat): (c: char)
    requires d < 10
    ensures IsDigit(c)
    ensures (c == '0') == (d == 0)
  {
    (('0' as int) + d) as char
  }

  function DigitValue(c: char): (d: nat)
    requires IsDigit(c)
    ensures d < 10
    ensures DigitChar(d) == c
  {
    c as int - '0' as int
  }

  /** Shortest decimal spelling of `n`: digits only, no leading zero except for 0 itself. */
  function NatToString(n: nat): (s: string)
    ensures |s| > 0
    ensures AllDigits(s)
    ensures (s[0] == '0') == (n == 0)
    ensures s[0] == '0' ==> |s| == 1
    decreases n
  {
    if n < 10 then [DigitChar(n)] else NatToString(n / 10) + [DigitChar(n % 10)]
  }

  /** A decimal numeral in canonical form: non-empty, digits only, no leading zero. */
  predicate Canonical(s: string) {
    |s| > 0 && AllDigits(s) && (s[0] == '0' ==> |s| == 1)
  }

  function DigitsValue(s: string): nat
    requires AllDigits(s)
  {
    if |s| == 0 then 0 else DigitsValue(s[..|s| - 1]) * 10 + DigitValue(s[|s| - 1])
  }

  /** Reads a non-empty run of decimal digits; anything else is rejected. */
  function ParseNat(s: string): (r: Option<nat>)
    ensures r.Some? <==> |s| > 0 && AllDigits(s)
  {
    if |s| > 0 && AllDigits(s) then Some(DigitsValue(s)) else None
  }

  /** Reading back a rendered number gives the number. */
  lemma {:induction false} ParseNatToString(n: nat)
    ensures ParseNat(NatToString(n)) == Some(n)
  {
    var s := NatToString(n);
    if n < 10 {
      assert s == [DigitChar(n)];
      assert s[..0] == [];
      assert DigitsValue(s) == DigitValue(DigitChar(n));
    } else {
      var p := NatToString(n / 10);
      ParseNatToString(n / 10);
      assert s == p + [DigitChar(n % 10)];
      assert s[..|s| - 1] == p;
      assert DigitsValue(s) == DigitsValue(p) * 10 + n % 10;
    }
  }

  lemma {:induction false} LeadingDigitBound(s: string)
    requires |s| > 0 && AllDigits(s)
    ensures DigitsValue(s) >= DigitValue(s[0])
    decreases |s|
  {
    if |s| > 1 {
      var p := s[..|s| - 1];
      assert p[0] == s[0];
      LeadingDigitBound(p);
    }
  }

  /** Rendering a parsed canonical numeral gives the numeral back. */
  lemma {:induction false} NatToStringParseNat(s: string)
    requires Canonical(s)
    ensures ParseNat(s).Some? && NatToString(ParseNat(s).value) == s
    decreases |s|
  {
    var n := DigitsValue(s);
    var c := s[|s| - 1];
    if |s| == 1 {
      assert s[..0] == [];
      assert DigitsValue(s[..0]) == 0;
      assert n == DigitValue(c);
      assert s == [c];
    } else {
      var p := s[..|s| - 1];
      assert p[0] == s[0];
      LeadingDigitBound(p);
      assert DigitsValue(p) >= 1;
      NatToStringParseNat(p);
      assert n / 10 == DigitsValue(p) && n % 10 == DigitValue(c);
      assert s == p + [c];
    }
  }

  /** Two numbers render alike only when they are equal. */
  lemma NatToStringInjective(m: nat, n: nat)
    requires NatToString(m) == NatToString(n)
    ensures m == n
  {
    ParseNatToString(m);
    ParseNatToString(n);
  }
}

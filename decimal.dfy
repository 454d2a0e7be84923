/**
 * Decimal rendering of fixed-point numbers, as done by Python's format
 * specifications `02d` (an hour, zero-padded to two digits) and `.2f`
 * (a price with exactly two fractional digits), together with parsers
 * that invert them.
 */
module Decimal {
  import opened Wrappers

  predicate IsDigit(c: char) {
    '0' <= c <= '9'
  }

  function DigitChar(d: int): (c: char)
    requires 0 <= d < 10
    ensures IsDigit(c)
  {
    (d + '0' as int) as char
  }

  function DigitValue(c: char): (d: int)
    requires IsDigit(c)
    ensures 0 <= d < 10
  {
    c as int - '0' as int
  }

  lemma DigitRoundTrip(d: int)
    requires 0 <= d < 10
    ensures DigitValue(DigitChar(d)) == d
  {
  }

  lemma CharRoundTrip(c: char)
    requires IsDigit(c)
    ensures DigitChar(DigitValue(c)) == c
  {
  }

  predicate AllDigits(s: string) {
    forall i :: 0 <= i < |s| ==> IsDigit(s[i])
  }

  /** A digit string as Python writes a natural number: no leading zero unless it is "0". */
  predicate Canonical(w: string) {
    |w| >= 1 && AllDigits(w) && (|w| == 1 || w[0] != '0')
  }

  /** Decimal digits of n, most significant first, without leading zeros. */
  function NatToString(n: nat): (s: string)
    ensures |s| >= 1 && AllDigits(s)
    ensures n > 0 ==> s[0] != '0'
    ensures |s| == 1 || s[0] != '0'
  {
    if n < 10 then [DigitChar(n)] else NatToString(n / 10) + [DigitChar(n % 10)]
  }

  /** Value of a non-empty string of decimal digits (leading zeros allowed). */
  function ParseNat(s: string): (r: Option<nat>)
    ensures r.Some? <==> |s| >= 1 && AllDigits(s)
  {
    if |s| == 0 || !IsDigit(s[|s| - 1]) then None
    else if |s| == 1 then Some(DigitValue(s[0]))
    else match ParseNat(s[..|s| - 1])
      case None => None
      case Some(m) => Some(m * 10 + DigitValue(s[|s| - 1]))
  }

  lemma {:induction false} ParseNatToString(n: nat)
    ensures ParseNat(NatToString(n)) == Some(n)
  {
    var s := NatToString(n);
    if n < 10 {
      DigitRoundTrip(n);
    } else {
      ParseNatToString(n / 10);
      assert s[..|s| - 1] == NatToString(n / 10);
      DigitRoundTrip(n % 10);
    }
  }

  /** A canonical digit string is the rendering of the number it denotes, and of no other. */
  lemma {:induction false} NatToStringUnique(w: string)
    requires Canonical(w)
    ensures ParseNat(w).Some? && NatToString(ParseNat(w).value) == w
  {
    if |w| == 1 {
      CharRoundTrip(w[0]);
    } else {
      var front := w[..|w| - 1];
      assert Canonical(front) by {
        assert front[0] == w[0];
      }
      NatToStringUnique(front);
      var m := ParseNat(front).value;
      var d := DigitValue(w[|w| - 1]);
      assert m > 0 by {
        assert NatToString(0) == "0";
      }
      var n := m * 10 + d;
      assert ParseNat(w) == Some(n);
      assert n / 10 == m && n % 10 == d;
      CharRoundTrip(w[|w| - 1]);
      assert w == front + [w[|w| - 1]];
    }
  }

  /** The hour as `02d` renders it: two digits, the first one possibly '0'. */
  function Pad2(h: int): (s: string)
    requires 0 <= h < 100
    ensures |s| == 2 && AllDigits(s)
    ensures DigitValue(s[0]) * 10 + DigitValue(s[1]) == h
  {
    DigitRoundTrip(h / 10);
    DigitRoundTrip(h % 10);
    [DigitChar(h / 10), DigitChar(h % 10)]
  }

  /** A non-negative count of hundredths as `.2f` renders it: `digits.dd`. */
  function FormatUnsigned(m: nat): (s: string)
    ensures |s| >= 4 && s[|s| - 3] == '.' && IsDigit(s[|s| - 2]) && IsDigit(s[|s| - 1])
    ensures forall i :: 0 <= i < |s| ==> s[i] == '.' || IsDigit(s[i])
    ensures s[0] != '0' || s[1] == '.'
  {
    NatToString(m / 100) + "." + [DigitChar(m % 100 / 10), DigitChar(m % 100 % 10)]
  }

  /** A count of hundredths as `.2f` renders the number it stands for. */
  function FormatHundredths(c: int): (s: string)
    ensures |s| >= 4 && s[|s| - 3] == '.' && IsDigit(s[|s| - 2]) && IsDigit(s[|s| - 1])
    ensures ',' !in s && ':' !in s
    ensures s[0] == '-' <==> c < 0
    ensures c < 0 ==> s[1] != '0' || s[2] == '.'
    ensures c >= 0 ==> s[0] != '0' || s[1] == '.'
  {
    if c < 0 then "-" + FormatUnsigned(-c) else FormatUnsigned(c)
  }

  function ParseUnsigned(s: string): (r: Option<nat>)
    ensures r.Some? ==> |s| >= 4 && s[|s| - 3] == '.'
  {
    if |s| < 4 || s[|s| - 3] != '.' || !IsDigit(s[|s| - 2]) || !IsDigit(s[|s| - 1]) then None
    else match ParseNat(s[..|s| - 3])
      case None => None
      case Some(whole) => Some(whole * 100 + DigitValue(s[|s| - 2]) * 10 + DigitValue(s[|s| - 1]))
  }

  /** Inverse of FormatHundredths on its image: `[-]digits.dd`. */
  function ParseHundredths(s: string): (r: Option<int>)
  {
    if |s| >= 1 && s[0] == '-' then
      match ParseUnsigned(s[1..])
      case None => None
      case Some(m) => var v: int := m; Some(-v)
    else
      match ParseUnsigned(s)
      case None => None
      case Some(m) => var v: int := m; Some(v)
  }

  /** ParseUnsigned on a string of the shape `digits.dd` whose whole part parses to v. */
  lemma ParseUnsignedShape(s: string, w: string, v: nat, a: char, b: char)
    requires ParseNat(w) == Some(v) && IsDigit(a) && IsDigit(b)
    requires s == w + "." + [a, b]
    ensures ParseUnsigned(s) == Some(v * 100 + DigitValue(a) * 10 + DigitValue(b))
  {
    assert s[..|s| - 3] == w;
  }

  lemma ParseFormatUnsigned(m: nat)
    ensures ParseUnsigned(FormatUnsigned(m)) == Some(m)
  {
    var t := m % 100;
    ParseNatToString(m / 100);
    DigitRoundTrip(t / 10);
    DigitRoundTrip(t % 10);
    ParseUnsignedShape(FormatUnsigned(m), NatToString(m / 100), m / 100, DigitChar(t / 10), DigitChar(t % 10));
    assert t / 10 * 10 + t % 10 == t;
    assert (m / 100) * 100 + t == m;
  }

  lemma ParseFormatNegative(c: int)
    requires c < 0
    ensures ParseHundredths(FormatHundredths(c)) == Some(c)
  {
    var u := FormatUnsigned(-c);
    FormatNegative(c, u);
    ParseNegatedFormat(c, u);
  }

  lemma ParseNegatedFormat(c: int, u: string)
    requires c < 0 && u == FormatUnsigned(-c)
    ensures ParseHundredths("-" + u) == Some(c)
  {
    ParseFormatUnsigned(-c);
    ParseNegated(u, c);
  }

  lemma FormatNegative(c: int, u: string)
    requires c < 0 && u == FormatUnsigned(-c)
    ensures FormatHundredths(c) == "-" + u
  {
  }

  lemma ParseNegated(u: string, c: int)
    requires c < 0 && ParseUnsigned(u) == Some(-c)
    ensures ParseHundredths("-" + u) == Some(c)
  {
    assert ("-" + u)[1..] == u;
  }

  lemma ParseFormatNonNegative(c: int)
    requires c >= 0
    ensures ParseHundredths(FormatHundredths(c)) == Some(c)
  {
    ParseFormatUnsigned(c);
    assert IsDigit(FormatUnsigned(c)[0]);
  }

  lemma ParseFormatHundredths(c: int)
    ensures ParseHundredths(FormatHundredths(c)) == Some(c)
  {
    if c < 0 { ParseFormatNegative(c); } else { ParseFormatNonNegative(c); }
  }

  /** A `digits.dd` string with a canonical whole part is the rendering of the value it reads as. */
  lemma FormatUnsignedUnique(u: string, m: nat)
    requires ParseUnsigned(u) == Some(m)
    requires Canonical(u[..|u| - 3])
    ensures u == FormatUnsigned(m)
  {
    var w := u[..|u| - 3];
    var a, b := u[|u| - 2], u[|u| - 1];
    NatToStringUnique(w);
    var v := ParseNat(w).value;
    assert m == v * 100 + DigitValue(a) * 10 + DigitValue(b);
    assert m / 100 == v && m % 100 / 10 == DigitValue(a) && m % 100 % 10 == DigitValue(b);
    CharRoundTrip(a);
    CharRoundTrip(b);
    assert u == w + "." + [a, b];
  }

  /**
   * `.2f` is the only rendering of c that reads back as c, carries a minus
   * sign exactly when c is negative, and has no padded whole part.
   */
  lemma FormatHundredthsUnique(s: string, c: int)
    requires ParseHundredths(s) == Some(c)
    requires (|s| >= 1 && s[0] == '-') <==> c < 0
    requires var u := if c < 0 then s[1..] else s; |u| >= 4 && Canonical(u[..|u| - 3])
    ensures s == FormatHundredths(c)
  {
    if c < 0 {
      FormatUnsignedUnique(s[1..], -c);
      assert s == "-" + s[1..];
    } else {
      FormatUnsignedUnique(s, c);
    }
  }
}

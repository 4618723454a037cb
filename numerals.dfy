/** Decimal text of integers, as `Number.prototype.toString` renders an
    integral number, and a reader for it, so that the date encodings built
    from these texts can be shown to lose nothing. */
module Numerals {
  import opened Outcomes

  predicate IsDigit(c: char) { '0' <= c <= '9' }

  predicate AllDigits(s: string) {
    forall i :: 0 <= i < |s| ==> IsDigit(s[i])
  }

  function DigitChar(d: nat): (c: char)
    requires d < 10
    ensures IsDigit(c)
  {
    ('0' as int + d) as char
  }

  function DigitValue(c: char): (d: nat)
    requires IsDigit(c)
    ensures d < 10 && DigitChar(d) == c
  {
    c as int - '0' as int
  }

  /** The decimal digits of `n`, most significant first, without leading zeros. */
  function NatText(n: nat): (s: string)
    ensures 1 <= |s| && AllDigits(s)
    ensures |s| > 1 ==> s[0] != '0'
    ensures n < 10 <==> |s| == 1
    decreases n
  {
    if n < 10 then [DigitChar(n)] else NatText(n / 10) + [DigitChar(n % 10)]
  }

  /** `String(i)` for an integral number `i`. JavaScript prints magnitudes
      of 10^21 and above in exponent notation; only smaller ones arise here. */
  function IntText(i: int): string {
    if i < 0 then "-" + NatText(-i) else NatText(i)
  }

  /** The number a string of decimal digits denotes. */
  function DigitsValue(s: string): nat
    requires AllDigits(s)
  {
    if s == [] then 0 else DigitsValue(s[..|s| - 1]) * 10 + DigitValue(s[|s| - 1])
  }

  /** Length of the longest prefix of `s` made of digits. */
  function DigitSpan(s: string): (k: nat)
    ensures k <= |s| && AllDigits(s[..k])
    ensures k < |s| ==> !IsDigit(s[k])
  {
    if s == [] || !IsDigit(s[0]) then 0 else 1 + DigitSpan(s[1..])
  }

  /** Reads a run of one or more digits at the head of `s`; gives its value and the rest.
      Only the canonical form is accepted: a run of two or more digits may not
      start with `0`. */
  function ReadNat(s: string): Option<(nat, string)> {
    var k := DigitSpan(s);
    if k == 0 || (k > 1 && s[0] == '0') then None else Some((DigitsValue(s[..k]), s[k..]))
  }

  /** Reads an optional minus sign followed by a run of digits; `-0`, which
      `String` never produces, is refused. */
  function ReadInt(s: string): Option<(int, string)> {
    if |s| > 0 && s[0] == '-' then
      var p :- ReadNat(s[1..]);
      var value: int := 0 - p.0 as int;
      if value == 0 then None else Some((value, p.1))
    else
      var p :- ReadNat(s);
      Some((p.0, p.1))
  }

  /** Reads exactly two digits at the head of `s`. */
  function ReadTwoDigits(s: string): Option<(nat, string)> {
    if |s| >= 2 && IsDigit(s[0]) && IsDigit(s[1]) then Some((DigitsValue(s[..2]), s[2..])) else None
  }

  /** Consumes the literal `lit` at the head of `s`. */
  function Expect(s: string, lit: string): Option<string> {
    if |lit| <= |s| && s[..|lit|] == lit then Some(s[|lit|..]) else None
  }

  /** A character that cannot continue a run of digits (or the end of the text). */
  predicate Delimits(rest: string) {
    rest == [] || !IsDigit(rest[0])
  }

  lemma {:induction false} DigitsValueAppend(s: string, c: char)
    requires AllDigits(s) && IsDigit(c)
    ensures AllDigits(s + [c]) && DigitsValue(s + [c]) == DigitsValue(s) * 10 + DigitValue(c)
  {
    assert (s + [c])[..|s + [c]| - 1] == s;
  }

  /** Reading the digits of `n` back gives `n`. */
  lemma {:induction false} NatTextValue(n: nat)
    ensures DigitsValue(NatText(n)) == n
    decreases n
  {
    if n >= 10 {
      NatTextValue(n / 10);
      DigitsValueAppend(NatText(n / 10), DigitChar(n % 10));
    }
  }

  lemma {:induction false} DigitSpanAppend(a: string, b: string)
    requires AllDigits(a) && Delimits(b)
    ensures DigitSpan(a + b) == |a|
    decreases |a|
  {
    if a != [] {
      assert (a + b)[1..] == a[1..] + b;
      DigitSpanAppend(a[1..], b);
    } else {
      assert a + b == b;
    }
  }

  /** The text of `n`, followed by anything that is not a digit, reads back as `n`. */
  lemma {:induction false} ReadNatText(n: nat, rest: string)
    requires Delimits(rest)
    ensures ReadNat(NatText(n) + rest) == Some((n, rest))
  {
    var t := NatText(n);
    DigitSpanAppend(t, rest);
    assert (t + rest)[0] == t[0];
    assert (t + rest)[..|t|] == t;
    assert (t + rest)[|t|..] == rest;
    NatTextValue(n);
  }

  /** A canonical run of digits is the text of its value, and a run that
      does not start with `0` denotes a positive number. */
  lemma {:induction false} CanonicalDigits(d: string)
    requires 1 <= |d| && AllDigits(d) && (|d| > 1 ==> d[0] != '0')
    ensures NatText(DigitsValue(d)) == d
    ensures d[0] != '0' ==> DigitsValue(d) >= 1
    decreases |d|
  {
    var v := DigitValue(d[|d| - 1]);
    if |d| == 1 {
      assert d == [d[0]];
      assert d[..0] == [];
    } else {
      var init := d[..|d| - 1];
      assert init[0] == d[0];
      CanonicalDigits(init);
      var n := DigitsValue(d);
      assert n == DigitsValue(init) * 10 + v;
      assert n / 10 == DigitsValue(init) && n % 10 == v;
      assert d == init + [d[|d| - 1]];
    }
  }

  /** The reader accepts nothing but the text `NatText` produces: whatever
      it reads is the canonical text of the value, followed by a non-digit. */
  lemma ReadNatCanonical(s: string)
    requires ReadNat(s).Some?
    ensures var p := ReadNat(s).value; s == NatText(p.0) + p.1 && Delimits(p.1)
  {
    var k := DigitSpan(s);
    assert s[..k][0] == s[0];
    CanonicalDigits(s[..k]);
    assert s == s[..k] + s[k..];
  }

  /** A leading minus sign negates the number read after it. */
  lemma ReadIntMinus(t: string, n: nat, rest: string)
    requires ReadNat(t) == Some((n, rest)) && n > 0
    ensures ReadInt("-" + t) == Some((-(n as int), rest))
  {
    assert ("-" + t)[1..] == t;
  }

  /** `String(-n)` for a positive `n` reads back as `-n`. */
  lemma ReadNegativeText(n: nat, rest: string)
    requires Delimits(rest) && n > 0
    ensures ReadInt("-" + NatText(n) + rest) == Some((-(n as int), rest))
  {
    ReadNatText(n, rest);
    ReadIntMinus(NatText(n) + rest, n, rest);
    assert "-" + NatText(n) + rest == "-" + (NatText(n) + rest);
  }

  /** `String(n)` for a natural `n` reads back as `n`. */
  lemma ReadUnsignedText(n: nat, rest: string)
    requires Delimits(rest)
    ensures ReadInt(NatText(n) + rest) == Some((n, rest))
  {
    ReadNatText(n, rest);
    assert (NatText(n) + rest)[0] == NatText(n)[0];
  }

  /** `String(i)` for any integer `i`, followed by a non-digit, reads back as `i`. */
  lemma ReadIntText(i: int, rest: string)
    requires Delimits(rest)
    ensures ReadInt(IntText(i) + rest) == Some((i, rest))
  {
    if i < 0 {
      ReadNegativeText(-i, rest);
    } else {
      ReadUnsignedText(i, rest);
    }
  }

  /** Whatever the integer reader accepts is the text `String` gives for
      the value it reads, followed by a non-digit. */
  lemma ReadIntCanonical(s: string)
    requires ReadInt(s).Some?
    ensures var p := ReadInt(s).value; s == IntText(p.0) + p.1 && Delimits(p.1)
  {
    if |s| > 0 && s[0] == '-' {
      var p := ReadNat(s[1..]).value;
      assert ReadInt(s).value == (-(p.0 as int), p.1);
      NegativeCanonical(s, p.0, p.1);
    } else {
      ReadNatCanonical(s);
    }
  }

  lemma NegativeCanonical(s: string, n: nat, rest: string)
    requires |s| > 0 && s[0] == '-' && ReadNat(s[1..]) == Some((n, rest)) && n > 0
    ensures s == IntText(-(n as int)) + rest && Delimits(rest)
  {
    ReadNatCanonical(s[1..]);
    assert s == "-" + s[1..];
  }

  /** A literal the reader consumed is the head of the text. */
  lemma ExpectCanonical(s: string, lit: string)
    requires Expect(s, lit).Some?
    ensures s == lit + Expect(s, lit).value
  {
    assert s == s[..|lit|] + s[|lit|..];
  }
}

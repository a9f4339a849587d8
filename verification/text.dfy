/**
 The parts of Go's `fmt` that the harness relies on: `%d` rendering of integers
 (decimal, no leading zeros, a leading `-` for negatives) and substring search
 as the tests use it (`ContainSubstring`).
 */
module Text {

  predicate IsDigit(c: char)
  {
    '0' <= c <= '9'
  }

  predicate AllDigits(s: string)
  {
    forall i | 0 <= i < |s| :: IsDigit(s[i])
  }

  function DigitValue(c: char): nat
    requires IsDigit(c)
  {
    (c as int) - ('0' as int)
  }

  function DigitChar(d: nat): (c: char)
    requires d < 10
    ensures IsDigit(c) && DigitValue(c) == d
  {
    (('0' as int) + d) as char
  }

  /** `fmt.Sprintf("%d", n)` for a non-negative `n`. */
  function NatToDecimal(n: nat): (s: string)
    ensures |s| > 0 && AllDigits(s)
    ensures |s| > 1 ==> s[0] != '0'
  {
    if n < 10 then [DigitChar(n)] else NatToDecimal(n / 10) + [DigitChar(n % 10)]
  }

  /** `fmt.Sprintf("%d", i)` for any integer `i`. */
  function IntToDecimal(i: int): (s: string)
    ensures |s| > 0
    ensures s[0] == '-' <==> i < 0
    ensures i >= 0 ==> AllDigits(s)
  {
    if i < 0 then "-" + NatToDecimal(-i) else NatToDecimal(i)
  }

  /** The value of a string of decimal digits (the inverse of `NatToDecimal`). */
  function DecimalValue(s: string): nat
    requires AllDigits(s)
  {
    if s == [] then 0 else DecimalValue(s[..|s| - 1]) * 10 + DigitValue(s[|s| - 1])
  }

  lemma {:induction false} DecimalRoundTrip(n: nat)
    ensures DecimalValue(NatToDecimal(n)) == n
  {
    if n >= 10 {
      var s := NatToDecimal(n);
      assert s[..|s| - 1] == NatToDecimal(n / 10);
      DecimalRoundTrip(n / 10);
    }
  }

  lemma NatToDecimalInjective(a: nat, b: nat)
    requires NatToDecimal(a) == NatToDecimal(b)
    ensures a == b
  {
    DecimalRoundTrip(a);
    DecimalRoundTrip(b);
  }

  lemma IntToDecimalInjective(a: int, b: int)
    requires IntToDecimal(a) == IntToDecimal(b)
    ensures a == b
  {
    if a < 0 {
      assert IntToDecimal(a)[1..] == NatToDecimal(-a);
      assert IntToDecimal(b)[1..] == NatToDecimal(-b);
      NatToDecimalInjective(-a, -b);
    } else {
      NatToDecimalInjective(a, b);
    }
  }

  /**
   A digit string followed by a non-digit separator can be split back apart:
   the separator marks where the digits end.
   */
  lemma SplitAfterDigits(a1: string, b1: string, a2: string, b2: string, sep: char)
    requires AllDigits(a1) && AllDigits(a2) && !IsDigit(sep)
    requires a1 + [sep] + b1 == a2 + [sep] + b2
    ensures a1 == a2 && b1 == b2
  {
    var s := a1 + [sep] + b1;
    assert s[|a1|] == sep && s[|a2|] == sep;
    assert forall i | 0 <= i < |a1| :: IsDigit(s[i]);
    assert forall i | 0 <= i < |a2| :: IsDigit(s[i]);
    assert a1 == s[..|a1|] == a2;
    assert b1 == s[|a1| + 1..] == b2;
  }

  lemma DropCommonHead(c: char, x: string, y: string)
    requires [c] + x == [c] + y
    ensures x == y
  {
    assert x == ([c] + x)[1..];
    assert y == ([c] + y)[1..];
  }

  lemma DropCommonPrefix(p: string, x: string, y: string)
    requires p + x == p + y
    ensures x == y
  {
    assert x == (p + x)[|p|..];
    assert y == (p + y)[|p|..];
  }

  /** Behind a common prefix, a digit run and two separators split `p + a + sep + c + sep + d` at the first separator. */
  lemma SplitPrefixedDigits(p: string, a1: string, c1: string, d1: string, a2: string, c2: string, d2: string, sep: char)
    requires AllDigits(a1) && AllDigits(a2) && !IsDigit(sep)
    requires p + a1 + [sep] + c1 + [sep] + d1 == p + a2 + [sep] + c2 + [sep] + d2
    ensures a1 == a2 && c1 + [sep] + d1 == c2 + [sep] + d2
  {
    assert p + a1 + [sep] + c1 + [sep] + d1 == p + a1 + [sep] + (c1 + [sep] + d1);
    assert p + a2 + [sep] + c2 + [sep] + d2 == p + a2 + [sep] + (c2 + [sep] + d2);
    SplitPrefixedDigit(p, a1, c1 + [sep] + d1, a2, c2 + [sep] + d2, sep);
  }

  /** Behind a common prefix, a digit run and a separator split `p + a + sep + b` at the separator. */
  lemma SplitPrefixedDigit(p: string, a1: string, b1: string, a2: string, b2: string, sep: char)
    requires AllDigits(a1) && AllDigits(a2) && !IsDigit(sep)
    requires p + a1 + [sep] + b1 == p + a2 + [sep] + b2
    ensures a1 == a2 && b1 == b2
  {
    assert p + a1 + [sep] + b1 == p + (a1 + [sep] + b1);
    assert p + a2 + [sep] + b2 == p + (a2 + [sep] + b2);
    DropCommonPrefix(p, a1 + [sep] + b1, a2 + [sep] + b2);
    SplitAfterDigits(a1, b1, a2, b2, sep);
  }

  /** The same split behind a leading minus sign. */
  lemma SplitAfterNegativeDigits(a1: string, b1: string, a2: string, b2: string)
    requires AllDigits(a1) && AllDigits(a2)
    requires ['-'] + a1 + ['-'] + b1 == ['-'] + a2 + ['-'] + b2
    ensures a1 == a2 && b1 == b2
  {
    assert ['-'] + a1 + ['-'] + b1 == ['-'] + (a1 + ['-'] + b1);
    assert ['-'] + a2 + ['-'] + b2 == ['-'] + (a2 + ['-'] + b2);
    DropCommonHead('-', a1 + ['-'] + b1, a2 + ['-'] + b2);
    SplitAfterDigits(a1, b1, a2, b2, '-');
  }

  /** `t` occurs in `s` as a contiguous substring. */
  predicate IsInfix(t: string, s: string)
  {
    exists k | 0 <= k <= |s| - |t| :: OccursAt(t, s, k)
  }

  predicate OccursAt(t: string, s: string, k: nat)
    requires k <= |s| - |t|
  {
    s[k..k + |t|] == t
  }

  lemma InfixOfConcat(a: string, t: string, b: string)
    ensures IsInfix(t, a + t + b)
  {
    var s := a + t + b;
    assert OccursAt(t, s, |a|);
  }
}

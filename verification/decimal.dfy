/**
 * Decimal rendering of natural numbers, as done by Swift's `String(format: "%02d")`
 * and by Python's f-string interpolation of an `int`, together with the
 * matching parser used to state read-back round trips.
 */
module Decimal {

  predicate IsDigit(c: char) {
    '0' <= c <= '9'
  }

  predicate AllDigits(s: string) {
    forall i :: 0 <= i < |s| ==> IsDigit(s[i])
  }

  function DigitChar(d: nat): (c: char)
    requires d < 10
    ensures IsDigit(c)
  {
    ('0' as int + d) as char
  }

  function DigitValue(c: char): (d: nat)
    requires IsDigit(c)
    ensures d < 10
  {
    c as int - '0' as int
  }

  /** Shortest decimal representation of `n` (no sign, no leading zeros). */
  function Show(n: nat): (r: string)
    ensures 1 <= |r|
    ensures AllDigits(r)
    ensures n < 10 <==> |r| == 1
    ensures r[0] == '0' <==> n == 0
    ensures |r| > 1 ==> r[0] != '0'
    decreases n
  {
    if n < 10 then [DigitChar(n)] else Show(n / 10) + [DigitChar(n % 10)]
  }

  /** Value of a string of decimal digits; leading zeros are allowed. */
  function Parse(s: string): nat
    requires AllDigits(s)
    decreases |s|
  {
    if |s| == 0 then 0 else Parse(s[..|s| - 1]) * 10 + DigitValue(s[|s| - 1])
  }

  /** Reading back the rendering of `n` yields `n`. */
  lemma {:induction false} ParseShow(n: nat)
    ensures Parse(Show(n)) == n
    decreases n
  {
    if n >= 10 {
      var s := Show(n);
      assert s[..|s| - 1] == Show(n / 10);
      ParseShow(n / 10);
    }
  }

  /**
   * A non-empty digit string without a leading zero is the rendering of its
   * own value: `Show` is the only such spelling of a number.
   */
  lemma {:induction false} ShowCanonical(s: string)
    requires |s| >= 1 && AllDigits(s)
    requires |s| > 1 ==> s[0] != '0'
    ensures Show(Parse(s)) == s
    decreases |s|
  {
    var d := DigitValue(s[|s| - 1]);
    assert DigitChar(d) == s[|s| - 1];
    if |s| > 1 {
      var p := s[..|s| - 1];
      assert p[0] == s[0];
      ShowCanonical(p);
      assert Parse(p) != 0;
      var n := Parse(s);
      assert n / 10 == Parse(p) && n % 10 == d;
      assert s == p + [s[|s| - 1]];
    }
  }

  /** Distinct numbers render differently. */
  lemma ShowInjective(a: nat, b: nat)
    requires Show(a) == Show(b)
    ensures a == b
  {
    ParseShow(a);
    ParseShow(b);
  }

  /** Numbers from 100 upwards need at least three digits. */
  lemma {:induction false} ShowLength(n: nat)
    ensures n >= 10 ==> |Show(n)| >= 2
    ensures n >= 100 ==> |Show(n)| >= 3
  {
    if n >= 100 {
      ShowLength(n / 10);
    }
  }

  /** A leading zero does not change the value read. */
  lemma {:induction false} ParseLeadingZero(s: string)
    requires AllDigits(s)
    ensures AllDigits("0" + s)
    ensures Parse("0" + s) == Parse(s)
    decreases |s|
  {
    if |s| > 0 {
      var t := "0" + s;
      assert t[..|t| - 1] == "0" + s[..|s| - 1];
      ParseLeadingZero(s[..|s| - 1]);
    }
  }

  /**
   * `%02d`: decimal, left-padded with '0' to at least two characters and
   * never truncated.
   */
  function Pad2(n: nat): (r: string)
    ensures AllDigits(r)
    ensures Parse(r) == n
    ensures n < 100 ==> |r| == 2
    ensures n >= 100 ==> |r| >= 3
    ensures 2 <= |r|
    ensures |r| > 2 ==> r[0] != '0'
  {
    ShowLength(n);
    ParseShow(n);
    if n < 10 then
      ParseLeadingZero(Show(n));
      "0" + Show(n)
    else
      Show(n)
  }
}

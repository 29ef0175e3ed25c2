/** Decimal text of unsigned counters, as `std::to_string` writes it, and the
    reading back of such text. */
module Decimal {

  predicate IsDigit(c: char) {
    '0' <= c <= '9'
  }

  predicate AllDigits(s: string) {
    forall i :: 0 <= i < |s| ==> IsDigit(s[i])
  }

  /** The form `std::to_string` produces: at least one digit, no leading zero. */
  predicate Canonical(s: string) {
    |s| > 0 && AllDigits(s) && (s[0] == '0' ==> |s| == 1)
  }

  function DigitChar(d: nat): (c: char)
    requires d < 10
    ensures IsDigit(c)
    ensures (c as int) - ('0' as int) == d
  {
    (('0' as int) + d) as char
  }

  function DigitValue(c: char): (d: nat)
    requires IsDigit(c)
    ensures d < 10 && DigitChar(d) == c
  {
    (c as int) - ('0' as int)
  }

  /** The number a run of decimal digits denotes. */
  function Value(s: string): nat
    requires AllDigits(s)
  {
    if s == [] then 0 else Value(s[..|s| - 1]) * 10 + DigitValue(s[|s| - 1])
  }

  /** `std::to_string` on an unsigned integer. */
  function ToString(n: nat): (r: string)
    ensures Canonical(r)
    ensures Value(r) == n
  {
    if n < 10 then
      [DigitChar(n)]
    else
      var high := ToString(n / 10);
      var r := high + [DigitChar(n % 10)];
      assert r[..|r| - 1] == high;
      r
  }

  lemma {:induction false} ValueAtLeastLeadingDigit(s: string)
    requires |s| > 0 && AllDigits(s)
    ensures Value(s) >= DigitValue(s[0])
  {
    if |s| > 1 {
      var p := s[..|s| - 1];
      assert p[0] == s[0];
      ValueAtLeastLeadingDigit(p);
    }
  }

  /** Canonical digit strings are exactly the images of ToString. */
  lemma {:induction false} ToStringOfValue(s: string)
    requires Canonical(s)
    ensures ToString(Value(s)) == s
  {
    if |s| == 1 {
      assert s == [s[0]];
    } else {
      var p := s[..|s| - 1];
      var d := DigitValue(s[|s| - 1]);
      assert p[0] == s[0] && s[0] != '0';
      assert Canonical(p);
      ValueAtLeastLeadingDigit(p);
      var n := Value(s);
      assert n == Value(p) * 10 + d;
      assert n >= 10;
      assert n / 10 == Value(p) && n % 10 == d;
      ToStringOfValue(p);
      assert p + [s[|s| - 1]] == s;
    }
  }
}

/** Decimal text of integers, as JavaScript's template literals write a number:
    digits most significant first, no leading zero, a '-' in front of a negative value. */
module Decimal {

  predicate IsDigit(c: char) {
    '0' <= c <= '9'
  }

  predicate AllDigits(s: string) {
    forall k :: 0 <= k < |s| ==> IsDigit(s[k])
  }

  function DigitChar(d: nat): (c: char)
    requires d < 10
    ensures IsDigit(c) && (c as int) - ('0' as int) == d
  {
    (('0' as int) + d) as char
  }

  /** The text `${n}` of a non-negative integer n. */
  function NatToString(n: nat): (r: string)
    ensures |r| > 0 && AllDigits(r)
    decreases n
  {
    if n < 10 then [DigitChar(n)] else NatToString(n / 10) + [DigitChar(n % 10)]
  }

  /** The text `${i}` of any integer i. */
  function IntToString(i: int): string {
    if i < 0 then "-" + NatToString(-i) else NatToString(i)
  }

  /** The value of a string of decimal digits (the empty string reads as 0). */
  function DigitsValue(s: string): nat
    requires AllDigits(s)
  {
    if s == [] then 0
    else 10 * DigitsValue(s[..|s| - 1]) + ((s[|s| - 1] as int) - ('0' as int))
  }

  /** Reading the digits of n back gives n, and there is no leading zero. */
  lemma {:induction false} NatToStringRoundTrip(n: nat)
    ensures DigitsValue(NatToString(n)) == n
    ensures n > 0 ==> NatToString(n)[0] != '0'
  {
    if n >= 10 {
      var s := NatToString(n);
      assert s[..|s| - 1] == NatToString(n / 10);
      NatToStringRoundTrip(n / 10);
    }
  }

  /** Different numbers are written differently. */
  lemma NatToStringInjective(m: nat, n: nat)
    ensures NatToString(m) == NatToString(n) ==> m == n
  {
    NatToStringRoundTrip(m);
    NatToStringRoundTrip(n);
  }

  /** One digit below ten, two digits from ten to ninety-nine. */
  lemma NatToStringLength(n: nat)
    ensures n < 10 ==> |NatToString(n)| == 1
    ensures 10 <= n < 100 ==> |NatToString(n)| == 2
  {
    if 10 <= n < 100 {
      assert NatToString(n / 10) == [DigitChar(n / 10)];
    }
  }

  /** A digit string made of a non-digit separator between two digit strings
      splits back into the same two parts: the separator cannot hide inside a number. */
  lemma {:induction false} SplitAtSeparator(a: string, b: string, c: string, d: string, sep: string)
    requires AllDigits(a) && AllDigits(c)
    requires |sep| > 0 && !IsDigit(sep[0])
    requires a + sep + b == c + sep + d
    ensures a == c && b == d
  {
    var lhs := a + sep + b;
    var rhs := c + sep + d;
    // the first non-digit of each side sits right after its number
    assert !IsDigit(lhs[|a|]) && !IsDigit(rhs[|c|]);
    assert forall k :: 0 <= k < |a| ==> lhs[k] == a[k];
    assert forall k :: 0 <= k < |c| ==> rhs[k] == c[k];
    assert |a| == |c|;
    assert a == lhs[..|a|];
    assert c == rhs[..|c|];
    assert b == lhs[|a| + |sep|..];
    assert d == rhs[|c| + |sep|..];
  }
}

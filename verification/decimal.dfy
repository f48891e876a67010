/** Go's `fmt.Sprintf("%d", n)` for non-negative integers, and the fact that
    makes every index-derived name in the model unique: the decimal rendering
    of a number can be read back. */
module Decimal {

  /** The ASCII character of a decimal digit. */
  function Digit(d: nat): (c: char)
    requires d < 10
    ensures '0' <= c <= '9'
  {
    (48 + d) as char
  }

  /** The value of an ASCII decimal digit. */
  function DigitValue(c: char): nat
  {
    if '0' <= c <= '9' then (c as int) - 48 else 0
  }

  /** `%d` of a non-negative integer: no sign, no leading zeros. */
  function Dec(n: nat): (s: string)
    ensures |s| >= 1
    ensures forall i :: 0 <= i < |s| ==> '0' <= s[i] <= '9'
    ensures |s| == 1 <==> n < 10
    decreases n
  {
    if n < 10 then [Digit(n)] else Dec(n / 10) + [Digit(n % 10)]
  }

  /** Reads a string of decimal digits back as a number (most significant first). */
  function Value(s: string): nat
    decreases |s|
  {
    if |s| == 0 then 0 else Value(s[..|s| - 1]) * 10 + DigitValue(s[|s| - 1])
  }

  /** Reading back what `Dec` wrote gives the original number. */
  lemma {:induction false} ValueOfDec(n: nat)
    ensures Value(Dec(n)) == n
    decreases n
  {
    var s := Dec(n);
    if n < 10 {
      assert s[..0] == [];
    } else {
      ValueOfDec(n / 10);
      assert s[..|s| - 1] == Dec(n / 10);
      assert s[|s| - 1] == Digit(n % 10);
    }
  }

  /** Distinct numbers have distinct decimal renderings. */
  lemma DecInjective(a: nat, b: nat)
    ensures Dec(a) == Dec(b) <==> a == b
  {
    if Dec(a) == Dec(b) {
      ValueOfDec(a);
      ValueOfDec(b);
    }
  }

  /** A fixed prefix and suffix around `%d` of a number: the shape of every
      `fmt.Sprintf("prefix%dsuffix", n)` in the model. */
  function Tagged(prefix: string, n: nat, suffix: string): (s: string)
  {
    prefix + Dec(n) + suffix
  }

  /** Removing a known prefix and suffix recovers the middle part. */
  lemma MiddleOf(prefix: string, x: string, y: string, suffix: string)
    requires prefix + x + suffix == prefix + y + suffix
    ensures x == y
  {
    var s := prefix + x + suffix;
    assert |x| == |y|;
    assert x == s[|prefix|..|prefix| + |x|];
    assert y == (prefix + y + suffix)[|prefix|..|prefix| + |y|];
  }

  /** Names built from the same template and different numbers are different. */
  lemma TaggedInjective(prefix: string, a: nat, b: nat, suffix: string)
    ensures Tagged(prefix, a, suffix) == Tagged(prefix, b, suffix) <==> a == b
  {
    if Tagged(prefix, a, suffix) == Tagged(prefix, b, suffix) {
      MiddleOf(prefix, Dec(a), Dec(b), suffix);
      DecInjective(a, b);
    }
  }
}

/** Decimal text of natural numbers: Python's str(n), int(s) on digit strings,
    and the f"{n:02}" format. */
module Numerals {

  predicate IsDigit(c: char) { '0' <= c <= '9' }

  predicate AllDigits(s: string) { forall i :: 0 <= i < |s| ==> IsDigit(s[i]) }

  function DigitChar(d: nat): (c: char)
    requires d < 10
    ensures IsDigit(c)
  {
    (48 + d) as char
  }

  function DigitValue(c: char): (d: nat)
    requires IsDigit(c)
    ensures d < 10
  {
    c as int - 48
  }

  /** str(n) for a non-negative int: its decimal digits, no leading zeros. */
  function Decimal(n: nat): (s: string)
    ensures 1 <= |s| && AllDigits(s)
    ensures n < 10 <==> |s| == 1
    decreases n
  {
    if n < 10 then [DigitChar(n)] else Decimal(n / 10) + [DigitChar(n % 10)]
  }

  /** int(s) for a string of decimal digits (leading zeros allowed). */
  function Value(s: string): nat
    requires AllDigits(s)
  {
    if s == [] then 0 else 10 * Value(s[..|s| - 1]) + DigitValue(s[|s| - 1])
  }

  /** s[i] and s[i + 1] are both digits. */
  predicate DigitPair(s: string, i: nat)
  {
    i + 1 < |s| && IsDigit(s[i]) && IsDigit(s[i + 1])
  }

  /** The number the two digits s[i] s[i + 1] write. */
  function TwoDigits(s: string, i: nat): (n: nat)
    requires DigitPair(s, i)
    ensures n < 100
  {
    10 * DigitValue(s[i]) + DigitValue(s[i + 1])
  }

  /** f"{n:02}": at least two digits, zero-padded on the left. */
  function Pad2(n: nat): (s: string)
    ensures 2 <= |s| && AllDigits(s)
  {
    if n < 10 then "0" + Decimal(n) else Decimal(n)
  }

  lemma {:induction false} ValueOfDecimal(n: nat)
    ensures Value(Decimal(n)) == n
    decreases n
  {
    if n >= 10 {
      var s := Decimal(n);
      assert s[..|s| - 1] == Decimal(n / 10);
      ValueOfDecimal(n / 10);
    }
  }

  lemma {:induction false} DecimalLength(n: nat)
    ensures 10 <= n < 100 ==> |Decimal(n)| == 2
    ensures 100 <= n ==> |Decimal(n)| > 2
  {
    if n >= 10 {
      assert |Decimal(n)| == |Decimal(n / 10)| + 1;
    }
  }

  /** Reading a padded number back gives the number; the field is exactly two
      characters wide below 100 and wider from 100 on. */
  lemma Pad2Value(n: nat)
    ensures Value(Pad2(n)) == n
    ensures n < 100 ==> |Pad2(n)| == 2
    ensures n >= 100 ==> |Pad2(n)| > 2
  {
    ValueOfDecimal(n);
    DecimalLength(n);
    if n < 10 {
      var s := Pad2(n);
      assert s[..|s| - 1] == "0";
      assert s[1] == DigitChar(n);
    }
  }

  /** Padding the number two digits write gives those digits back. */
  lemma Pad2OfTwoDigits(s: string, i: nat)
    requires DigitPair(s, i)
    ensures Pad2(TwoDigits(s, i)) == s[i..i + 2]
  {
    var hi, lo := DigitValue(s[i]), DigitValue(s[i + 1]);
    assert DigitChar(hi) == s[i] && DigitChar(lo) == s[i + 1];
    if hi == 0 {
      assert Pad2(TwoDigits(s, i)) == "0" + [DigitChar(lo)];
    } else {
      var n := 10 * hi + lo;
      assert n / 10 == hi && n % 10 == lo;
      assert Decimal(n) == [DigitChar(hi)] + [DigitChar(lo)];
    }
  }

  /** A number below 100, padded, is a digit pair that reads back as the
      number. */
  lemma TwoDigitsOfPad2(n: nat)
    requires n < 100
    ensures |Pad2(n)| == 2 && DigitPair(Pad2(n), 0) && TwoDigits(Pad2(n), 0) == n
  {
    if n >= 10 {
      assert Decimal(n) == Decimal(n / 10) + [DigitChar(n % 10)];
    }
  }
}

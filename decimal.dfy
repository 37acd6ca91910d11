/**
 * Decimal rendering of natural numbers and Python's `:03d` format
 * specification: the decimal digits of the number, left-padded with '0'
 * to a width of at least three characters.
 */
module Decimal {

  predicate IsDigit(c: char) {
    '0' <= c <= '9'
  }

  predicate AllDigits(s: string) {
    forall i :: 0 <= i < |s| ==> IsDigit(s[i])
  }

  function DigitChar(d: nat): (c: char)
    requires d < 10
    ensures IsDigit(c) && c as int - '0' as int == d
  {
    ('0' as int + d) as char
  }

  function DigitValue(c: char): (d: nat)
    requires IsDigit(c)
    ensures d < 10
  {
    c as int - '0' as int
  }

  /** The shortest decimal numeral of n (Python's str(n) for n >= 0). */
  function ToDecimal(n: nat): (r: string)
    ensures |r| >= 1 && AllDigits(r)
    ensures r[0] == '0' <==> n == 0
    decreases n
  {
    if n < 10 then [DigitChar(n)] else ToDecimal(n / 10) + [DigitChar(n % 10)]
  }

  /** The number a string of decimal digits denotes; leading zeros are allowed. */
  function Value(s: string): nat
    requires AllDigits(s)
  {
    if s == [] then 0 else 10 * Value(s[..|s| - 1]) + DigitValue(s[|s| - 1])
  }

  /** `s` preceded by as many copies of `fill` as it takes to reach `width`. */
  function LeftPad(s: string, fill: char, width: nat): (r: string)
    ensures |r| == if |s| < width then width else |s|
    ensures r[|r| - |s|..] == s
    ensures forall i :: 0 <= i < |r| - |s| ==> r[i] == fill
  {
    if |s| < width then seq(width - |s|, _ => fill) + s else s
  }

  /** Python's f"{n:03d}" for a non-negative n. */
  function Format03d(n: nat): string {
    LeftPad(ToDecimal(n), '0', 3)
  }

  lemma {:induction false} ValueOfToDecimal(n: nat)
    ensures Value(ToDecimal(n)) == n
    decreases n
  {
    if n >= 10 {
      var s := ToDecimal(n);
      assert s[..|s| - 1] == ToDecimal(n / 10);
      ValueOfToDecimal(n / 10);
    }
  }

  lemma {:induction false} ValueOfZeros(z: nat)
    ensures AllDigits(seq(z, _ => '0')) && Value(seq(z, _ => '0')) == 0
  {
    if z > 0 {
      assert seq(z, _ => '0')[..z - 1] == seq(z - 1, _ => '0');
      ValueOfZeros(z - 1);
    }
  }

  /** Leading zeros do not change the value of a numeral. */
  lemma {:induction false} ValueIgnoresLeadingZeros(z: nat, s: string)
    requires AllDigits(s)
    ensures AllDigits(seq(z, _ => '0') + s)
    ensures Value(seq(z, _ => '0') + s) == Value(s)
    decreases |s|
  {
    var zs := seq(z, _ => '0');
    ValueOfZeros(z);
    if s == [] {
      assert zs + s == zs;
    } else {
      var t := zs + s;
      assert t[..|t| - 1] == zs + s[..|s| - 1];
      ValueIgnoresLeadingZeros(z, s[..|s| - 1]);
    }
  }

  /** The numeral of n has at least three digits exactly when n >= 100. */
  lemma DecimalWidth(n: nat)
    ensures |ToDecimal(n)| >= 3 <==> n >= 100
  {
    if n >= 100 {
      assert |ToDecimal(n / 10)| >= 2 by {
        assert n / 10 >= 10;
      }
    } else if n >= 10 {
      assert n / 10 < 10;
    }
  }

  /**
   * What `:03d` produces: a string of digits of width max(3, natural width)
   * that denotes n; the natural numeral is used unchanged from 100 upwards and
   * is zero-padded to exactly three characters below that.
   */
  lemma Format03dSpec(n: nat)
    ensures AllDigits(Format03d(n)) && Value(Format03d(n)) == n
    ensures |Format03d(n)| >= 3
    ensures n >= 100 ==> Format03d(n) == ToDecimal(n)
    ensures n < 100 ==> |Format03d(n)| == 3 &&
                        Format03d(n) == seq(3 - |ToDecimal(n)|, _ => '0') + ToDecimal(n)
  {
    var d := ToDecimal(n);
    DecimalWidth(n);
    ValueOfToDecimal(n);
    if |d| < 3 {
      ValueIgnoresLeadingZeros(3 - |d|, d);
    }
  }

  lemma Format03dExamples()
    ensures Format03d(0) == "000"
    ensures Format03d(1) == "001"
    ensures Format03d(42) == "042"
    ensures Format03d(999) == "999"
    ensures Format03d(1000) == "1000"
  {
    assert ToDecimal(42) == "42";
    assert ToDecimal(999) == "999";
    assert ToDecimal(1000) == "1000";
  }
}

/**
 * Decimal rendering of numbers, as a JavaScript template literal `${n}`
 * prints an integer-valued number: no leading zeros, a minus sign for
 * negative values.  The messages of the game interpolate the neighbour
 * count and the dice value this way.
 */
module Decimal {

  predicate IsDigit(ch: char) {
    '0' <= ch <= '9'
  }

  predicate AllDigits(s: string) {
    forall i :: 0 <= i < |s| ==> IsDigit(s[i])
  }

  function DigitChar(d: nat): (ch: char)
    requires d < 10
    ensures IsDigit(ch)
    ensures ch as int - '0' as int == d
  {
    "0123456789"[d]
  }

  function DigitValue(ch: char): nat
    requires IsDigit(ch)
  {
    ch as int - '0' as int
  }

  /** The shortest decimal numeral of `n`. */
  function NatToDecimal(n: nat): (s: string)
    ensures AllDigits(s)
    ensures |s| >= 1
    ensures (|s| == 1) == (n < 10)
    ensures s[0] == '0' <==> n == 0
    decreases n
  {
    if n < 10 then [DigitChar(n)] else NatToDecimal(n / 10) + [DigitChar(n % 10)]
  }

  /** Reads a numeral back; the reference that `NatToDecimal` is checked against. */
  function ParseDecimal(s: string): nat
    requires AllDigits(s)
  {
    if s == [] then 0 else ParseDecimal(s[..|s| - 1]) * 10 + DigitValue(s[|s| - 1])
  }

  function IntToDecimal(n: int): string {
    if n < 0 then "-" + NatToDecimal(-n) else NatToDecimal(n)
  }

  /** Printing a count and reading it back gives the count: no two counts print alike. */
  lemma {:induction false} ParsePrinted(n: nat)
    ensures ParseDecimal(NatToDecimal(n)) == n
    decreases n
  {
    var s := NatToDecimal(n);
    if n >= 10 {
      var p := NatToDecimal(n / 10);
      assert s == p + [DigitChar(n % 10)];
      assert s[..|s| - 1] == p;
      ParsePrinted(n / 10);
    }
  }

  lemma PrintedInjective(m: nat, n: nat)
    requires NatToDecimal(m) == NatToDecimal(n)
    ensures m == n
  {
    ParsePrinted(m);
    ParsePrinted(n);
  }

  /** Negative numbers, and only they, print with a leading minus sign. */
  lemma IntToDecimalSign(n: int)
    ensures |IntToDecimal(n)| >= 1
    ensures IntToDecimal(n)[0] == '-' <==> n < 0
    ensures n >= 0 ==> AllDigits(IntToDecimal(n)) && ParseDecimal(IntToDecimal(n)) == n
  {
    if n >= 0 {
      ParsePrinted(n);
    }
  }
}

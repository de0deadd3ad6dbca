/** Decimal numerals as `{}` prints them and `str::parse::<usize>` reads them. */
module Decimal {

  function Digit(d: nat): (c: char)
    requires d < 10
  {
    '0' + d as char
  }

  predicate IsDigit(c: char) {
    '0' <= c <= '9'
  }

  function Value(c: char): (d: nat)
    requires IsDigit(c)
    ensures d < 10
  {
    (c as int) - ('0' as int)
  }

  predicate AllDigits(s: string) {
    forall i :: 0 <= i < |s| ==> IsDigit(s[i])
  }

  /** The number a digit string denotes. */
  function Number(s: string): nat
    requires AllDigits(s)
  {
    if s == "" then 0 else 10 * Number(s[..|s| - 1]) + Value(s[|s| - 1])
  }

  /** `format!("{n}")`. */
  function Print(n: nat): (s: string)
    ensures s != "" && AllDigits(s) && Number(s) == n
    ensures n > 0 ==> s[0] != '0'
    ensures n < 10 <==> |s| == 1
    decreases n
  {
    if n < 10 then
      [Digit(n)]
    else
      var s := Print(n / 10) + [Digit(n % 10)];
      assert s[..|s| - 1] == Print(n / 10);
      s
  }

  /** What the ten digits are worth. */
  lemma DigitValues()
    ensures Value('0') == 0 && Value('1') == 1 && Value('2') == 2 && Value('3') == 3 && Value('4') == 4
    ensures Value('5') == 5 && Value('6') == 6 && Value('7') == 7 && Value('8') == 8 && Value('9') == 9
  {
  }

  /** Positional notation. */
  lemma NumberPush(s: string, c: char)
    requires AllDigits(s) && IsDigit(c)
    ensures AllDigits(s + [c]) && Number(s + [c]) == 10 * Number(s) + Value(c)
  {
    assert (s + [c])[..|s|] == s;
  }

  /** Numerals are unique. */
  lemma PrintInjective(a: nat, b: nat)
    requires Print(a) == Print(b)
    ensures a == b
  {
    assert Number(Print(a)) == Number(Print(b));
  }

  /** Leading zeros do not change the value. */
  lemma {:induction false} ZerosInFront(s: string, k: nat)
    requires AllDigits(s)
    ensures AllDigits(seq(k, _ => '0') + s)
    ensures Number(seq(k, _ => '0') + s) == Number(s)
    decreases k + |s|
  {
    var z := seq(k, _ => '0');
    var t := z + s;
    if s != "" {
      ZerosInFront(s[..|s| - 1], k);
      assert t[..|t| - 1] == z + s[..|s| - 1];
    } else if k > 0 {
      ZerosInFront("", k - 1);
      assert t[..|t| - 1] == seq(k - 1, _ => '0') + "";
    }
  }
}

/**
 * Decimal digit strings. Every parser of the repository rebuilds numbers by
 * reading characters back to front, adding `(c - 48) * radix` and multiplying
 * the radix by ten. This module fixes what such a digit string denotes and how
 * a number is written, so that each parser can prove it reads back what was
 * written.
 */
module Decimal {

  predicate IsDigit(c: char) {
    '0' <= c <= '9'
  }

  predicate AllDigits(s: seq<char>) {
    forall i | 0 <= i < |s| :: IsDigit(s[i])
  }

  /** The source's `value - 48`, for any character. */
  function DigitValue(c: char): int {
    c as int - 48
  }

  function Pow10(n: nat): (r: nat)
    ensures r >= 1
  {
    if n == 0 then 1 else 10 * Pow10(n - 1)
  }

  /** The number a digit string denotes, most significant digit first. */
  function Value(s: seq<char>): int {
    if s == [] then 0 else Value(s[..|s| - 1]) * 10 + DigitValue(s[|s| - 1])
  }

  function DigitChar(d: nat): (c: char)
    requires d < 10
    ensures IsDigit(c) && DigitValue(c) == d
  {
    (48 + d) as char
  }

  /** The shortest decimal spelling of `n`. */
  function DecString(n: nat): (s: seq<char>)
    ensures s != [] && AllDigits(s)
  {
    if n < 10 then [DigitChar(n)] else DecString(n / 10) + [DigitChar(n % 10)]
  }

  lemma {:induction false} ValueOfDecString(n: nat)
    ensures Value(DecString(n)) == n
  {
    if n >= 10 {
      var s := DecString(n);
      assert s[..|s| - 1] == DecString(n / 10);
      ValueOfDecString(n / 10);
    }
  }

  /**
   * Reading back to front: the leading digit of `[d] + s` is worth
   * `d * 10^|s|`, which is what the growing radix of the parsers gives it.
   */
  lemma {:induction false} ValueCons(d: char, s: seq<char>)
    ensures Value([d] + s) == DigitValue(d) * Pow10(|s|) + Value(s)
  {
    if s != [] {
      var t := [d] + s;
      assert t[..|t| - 1] == [d] + s[..|s| - 1];
      ValueCons(d, s[..|s| - 1]);
      var p := Pow10(|s| - 1);
      calc {
        Value(t);
        Value([d] + s[..|s| - 1]) * 10 + DigitValue(s[|s| - 1]);
        (DigitValue(d) * p + Value(s[..|s| - 1])) * 10 + DigitValue(s[|s| - 1]);
        DigitValue(d) * (p * 10) + (Value(s[..|s| - 1]) * 10 + DigitValue(s[|s| - 1]));
        DigitValue(d) * Pow10(|s|) + Value(s);
      }
    }
  }
}

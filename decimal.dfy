/** Decimal text of small non-negative integers, as the widget uses it:
    JavaScript's `Number.prototype.toString()` for a safe integer (0..2^53),
    `String.prototype.padStart(width, fill)`, and `Number(text)` applied to
    a string of decimal digits. */
module Decimal {

  predicate IsDigit(c: char) {
    '0' <= c <= '9'
  }

  predicate AllDigits(s: string) {
    forall i :: 0 <= i < |s| ==> IsDigit(s[i])
  }

  /** The character of a decimal digit. */
  function DigitChar(d: nat): (c: char)
    requires d < 10
    ensures IsDigit(c)
  {
    (48 + d) as char
  }

  /** The value of a digit character. */
  function DigitValue(c: char): (d: nat)
    requires IsDigit(c)
    ensures d < 10 && DigitChar(d) == c
  {
    (c as int - 48) as nat
  }

  lemma DigitValueOfChar(d: nat)
    requires d < 10
    ensures DigitValue(DigitChar(d)) == d
  {
  }

  /** Ten to the power `k`. */
  function Pow10(k: nat): (p: nat)
    ensures p >= 1
  {
    if k == 0 then 1 else 10 * Pow10(k - 1)
  }

  /** `Number(s)` for a string of decimal digits: leading zeros are allowed
      and add nothing, and the empty string is 0. A numeral of `k` digits
      is below ten to the `k`. */
  function NumberValue(s: string): (n: nat)
    requires AllDigits(s)
    ensures n < Pow10(|s|)
    decreases |s|
  {
    if s == [] then 0
    else
      NumberValue(s[..|s| - 1]) * 10 + DigitValue(s[|s| - 1])
  }

  /** `n.toString()` for a non-negative safe integer (0..2^53): the
      shortest decimal numeral of `n`, which reads back as `n`. Above 2^53
      JavaScript prints the shortest digits of the nearest double, and from
      1e21 on it uses exponent notation; this numeral is exact for every `n`. */
  function ToDecimal(n: nat): (s: string)
    ensures |s| >= 1 && AllDigits(s)
    ensures NumberValue(s) == n
    ensures |s| == 1 <==> n < 10
    ensures n >= 10 ==> s[0] != '0'
    decreases n
  {
    if n < 10 then
      DigitValueOfChar(n);
      [DigitChar(n)]
    else
      var p := ToDecimal(n / 10);
      var s := p + [DigitChar(n % 10)];
      assert s[..|s| - 1] == p;
      DigitValueOfChar(n % 10);
      s
  }

  /** `s.padStart(width, fill)`: `s` itself when it already has `width`
      characters or more, otherwise `s` preceded by as many `fill`
      characters as make up the width. */
  function PadStart(s: string, width: nat, fill: char): (r: string)
    ensures |r| == if |s| >= width then |s| else width
    ensures r[|r| - |s|..] == s
    ensures forall i :: 0 <= i < |r| - |s| ==> r[i] == fill
  {
    if |s| >= width then s else seq(width - |s|, _ => fill) + s
  }

  /** `n.toString().padStart(2, "0")` for a safe integer `n` (0..2^53), the
      widget's two-digit field: at least two digits that read back as `n`,
      exactly two below 100. */
  function Pad2(n: nat): (r: string)
    ensures |r| >= 2 && AllDigits(r) && NumberValue(r) == n
    ensures |r| == 2 <==> n < 100
  {
    PaddedNumeral(n);
    PadStart(ToDecimal(n), 2, '0')
  }

  /** The facts behind `Pad2`'s contract: a one-digit numeral gains a
      leading "0", which adds nothing to its value, and from 100 on the
      numeral already has three digits or more. */
  lemma PaddedNumeral(n: nat)
    ensures var r := PadStart(ToDecimal(n), 2, '0');
      |r| >= 2 && AllDigits(r) && NumberValue(r) == n && (|r| == 2 <==> n < 100)
  {
    var s := ToDecimal(n);
    var r := PadStart(s, 2, '0');
    if n < 10 {
      assert r == ['0', s[0]];
      TwoDigitValue(r);
      assert s[..0] == [];
    } else if n >= 100 {
      assert |ToDecimal(n / 10)| >= 2;
    }
  }

  /** Below 100, the padded field is exactly the tens digit and the units digit. */
  lemma Pad2Digits(n: nat)
    requires n < 100
    ensures Pad2(n) == [DigitChar(n / 10), DigitChar(n % 10)]
  {
    var s, r := ToDecimal(n), Pad2(n);
    assert r == PadStart(s, 2, '0');
    if n < 10 {
      OneDigitNumeral(n);
      assert r[0] == '0' && r[1..] == s;
    } else {
      TwoDigitNumeral(n);
      assert r == s;
    }
    PairOfChars(r);
  }

  /** The numeral of a digit is that digit alone. */
  lemma OneDigitNumeral(n: nat)
    requires n < 10
    ensures ToDecimal(n) == [DigitChar(n)]
  {
  }

  /** The numeral of 10..99 is its tens digit then its units digit. */
  lemma TwoDigitNumeral(n: nat)
    requires 10 <= n < 100
    ensures ToDecimal(n) == [DigitChar(n / 10), DigitChar(n % 10)]
  {
    OneDigitNumeral(n / 10);
  }

  /** A two-character digit string reads as tens and units. */
  lemma TwoDigitValue(s: string)
    requires |s| == 2 && AllDigits(s)
    ensures NumberValue(s) == 10 * DigitValue(s[0]) + DigitValue(s[1])
  {
    assert s[..1][..0] == [];
    assert NumberValue(s[..1]) == DigitValue(s[0]);
  }

  lemma TensAndUnits(a: nat, b: nat)
    requires a < 10 && b < 10
    ensures (10 * a + b) / 10 == a && (10 * a + b) % 10 == b
  {
  }

  /** Padding the number that a two-digit string reads as gives back the
      string: leading zeros included, nothing is lost. */
  lemma Pad2OfValue(s: string)
    requires |s| == 2 && AllDigits(s)
    ensures NumberValue(s) < 100 && Pad2(NumberValue(s)) == s
  {
    var n := NumberValue(s);
    var a, b := DigitValue(s[0]), DigitValue(s[1]);
    TwoDigitValue(s);
    assert n == 10 * a + b;
    TensAndUnits(a, b);
    assert n / 10 == a && n % 10 == b;
    Pad2Digits(n);
    assert Pad2(n) == [s[0], s[1]];
    PairOfChars(s);
  }

  /** A two-character string is the pair of its characters. */
  lemma PairOfChars(s: string)
    requires |s| == 2
    ensures s == [s[0], s[1]]
  {
  }
}

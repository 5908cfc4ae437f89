/** The two Java library conversions the menu relies on: `Integer.toString`
    for the 1-based numbers beside each option, and `Integer.parseInt` for
    the line the user types. Only ASCII decimal digits are modelled. */
module Decimal {
  import opened Common

  /** The bounds of a Java `int`. */
  const IntMin: int := -0x8000_0000
  const IntMax: int := 0x7fff_ffff

  predicate IsDigit(c: char) {
    '0' <= c <= '9'
  }

  predicate AllDigits(s: string) {
    forall i :: 0 <= i < |s| ==> IsDigit(s[i])
  }

  function DigitValue(c: char): nat
    requires IsDigit(c)
  {
    (c as int) - ('0' as int)
  }

  function DigitChar(d: nat): (c: char)
    requires d < 10
    ensures IsDigit(c) && DigitValue(c) == d
  {
    ('0' as int + d) as char
  }

  /** `Integer.toString(n)` for a non-negative `n`: the shortest decimal
      numeral, most significant digit first. */
  function NatToString(n: nat): (s: string)
    ensures |s| > 0 && AllDigits(s)
    ensures |s| > 1 ==> s[0] != '0'
    decreases n
  {
    if n < 10 then [DigitChar(n)] else NatToString(n / 10) + [DigitChar(n % 10)]
  }

  /** The value of a numeral made of decimal digits. */
  function DigitsValue(s: string): nat
    requires AllDigits(s)
    decreases |s|
  {
    if s == [] then 0 else DigitsValue(s[..|s| - 1]) * 10 + DigitValue(s[|s| - 1])
  }

  /** A value if it fits in a Java `int`; otherwise `parseInt` throws. */
  function InIntRange(v: int): Option<int> {
    if IntMin <= v <= IntMax then Some(v) else None
  }

  /** `Integer.parseInt(s)`: `None` stands for the `NumberFormatException`
      thrown for null, for the empty string, for a lone sign, for any
      character that is not a digit after the optional sign, and for a
      value outside the `int` range. */
  function ParseInt(s: Option<string>): (r: Option<int>)
    ensures r.Some? ==> IntMin <= r.value <= IntMax
  {
    match s
    case None => None
    case Some(t) =>
      if |t| == 0 then None
      else if t[0] == '-' || t[0] == '+' then
        if |t| == 1 || !AllDigits(t[1..]) then None
        else if t[0] == '-' then InIntRange(0 - DigitsValue(t[1..]) as int)
        else InIntRange(DigitsValue(t[1..]))
      else if AllDigits(t) then InIntRange(DigitsValue(t))
      else None
  }

  /** Reading back a numeral written by `NatToString` gives the number. */
  lemma {:induction false} DigitsOfNatToString(n: nat)
    ensures DigitsValue(NatToString(n)) == n
    decreases n
  {
    if n >= 10 {
      var s := NatToString(n / 10);
      DigitsOfNatToString(n / 10);
      assert (s + [DigitChar(n % 10)])[..|s|] == s;
    }
  }

  /** Every number `Integer.toString` prints within the `int` range is
      parsed back by `Integer.parseInt` to itself. */
  lemma ParseIntOfNatToString(n: nat)
    requires n <= IntMax
    ensures ParseInt(Some(NatToString(n))) == Some(n)
  {
    DigitsOfNatToString(n);
  }

  /** A minus sign before a printed number parses to its negation, down to
      `Integer.MIN_VALUE`. */
  lemma ParseIntOfNegated(n: nat)
    requires n <= -IntMin
    ensures ParseInt(Some("-" + NatToString(n))) == Some(0 - n as int)
  {
    DigitsOfNatToString(n);
    assert ("-" + NatToString(n))[1..] == NatToString(n);
  }

  /** Input that starts with anything but a sign or a digit never parses. */
  lemma ParseIntRejectsLetters(t: string)
    requires |t| > 0 && !IsDigit(t[0]) && t[0] != '-' && t[0] != '+'
    ensures ParseInt(Some(t)) == None
  {
  }
}

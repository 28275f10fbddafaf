/**
 * The part of JavaScript's `Number.parseFloat` that the calculator depends on:
 * the longest prefix of a text that is a decimal literal (optional sign, then
 * `Infinity`, or digits with an optional fraction, or a fraction alone, each
 * with an optional exponent).  When no prefix is a literal the result is NaN.
 * The numeric value of a literal (rounding to a double) is not modelled: a
 * parsed number is represented by the literal that denotes it.
 */
module JsNumbers {

  predicate IsDigit(c: char) {
    '0' <= c <= '9'
  }

  /** The number of leading decimal digits of `s`. */
  function DigitRun(s: string): (n: nat)
    ensures n <= |s|
    ensures forall i :: 0 <= i < n ==> IsDigit(s[i])
    ensures n < |s| ==> !IsDigit(s[n])
  {
    if s != [] && IsDigit(s[0]) then 1 + DigitRun(s[1..]) else 0
  }

  /** Length of an exponent part (`e` or `E`, an optional sign, at least one digit) at the start of `s`; 0 if there is none. */
  function ExponentLength(s: string): (n: nat)
    ensures n <= |s|
    ensures n > 0 ==> n >= 2 && (s[0] == 'e' || s[0] == 'E') && IsDigit(s[n - 1])
  {
    if s != [] && (s[0] == 'e' || s[0] == 'E') then
      var k := if |s| > 1 && (s[1] == '+' || s[1] == '-') then 2 else 1;
      var d := DigitRun(s[k..]);
      if d > 0 then k + d else 0
    else
      0
  }

  /** The first characters of `t` begin an unsigned decimal literal. */
  predicate StartsUnsignedLiteral(t: string) {
    || (t != [] && IsDigit(t[0]))
    || (|t| >= 2 && t[0] == '.' && IsDigit(t[1]))
    || "Infinity" <= t
  }

  /** Length of the unsigned decimal literal at the start of `t`; 0 if there is none. */
  function UnsignedLiteralLength(t: string): (n: nat)
    ensures n <= |t|
    ensures n > 0 <==> StartsUnsignedLiteral(t)
  {
    if "Infinity" <= t then
      8
    else
      var j := MantissaLength(t);
      if j > 0 then j + ExponentLength(t[j..]) else 0
  }

  /** Length of the digits with an optional point (digits first, or a point and a digit first) at the start of `t`; 0 if there are none. */
  function MantissaLength(t: string): (n: nat)
    ensures n <= |t|
  {
    var i := DigitRun(t);
    if i > 0 then
      if i < |t| && t[i] == '.' then i + 1 + DigitRun(t[i + 1..]) else i
    else if |t| >= 2 && t[0] == '.' && IsDigit(t[1]) then
      1 + DigitRun(t[1..])
    else
      0
  }

  function SignLength(s: string): (n: nat)
    ensures n <= |s|
  {
    if s != [] && (s[0] == '+' || s[0] == '-') then 1 else 0
  }

  /** Length of the longest prefix of `s` that `parseFloat` reads; 0 when it yields NaN. */
  function LiteralLength(s: string): (n: nat)
    ensures n <= |s|
    ensures n > 0 <==> StartsLiteral(s)
  {
    var k := SignLength(s);
    var u := UnsignedLiteralLength(s[k..]);
    if u == 0 then 0 else k + u
  }

  /** Direct test on the first characters: an optional sign, then a digit, a point and a digit, or `Infinity`. */
  predicate StartsLiteral(s: string) {
    StartsUnsignedLiteral(s[SignLength(s)..])
  }

  /** The result of `parseFloat`: NaN, or the number denoted by a decimal literal. */
  datatype JsNumber = NaN | Denoted(literal: string)

  /** `Number.parseFloat(s)` (without skipping leading white space). */
  function ParseFloat(s: string): (n: JsNumber)
    ensures n.NaN? <==> !StartsLiteral(s)
    ensures n.Denoted? ==> n.literal <= s && StartsLiteral(n.literal)
  {
    var n := LiteralLength(s);
    if n == 0 then NaN else Denoted(s[..n])
  }

  /** `Number.isNaN(Number.parseFloat(s))` is false. */
  predicate ParsesAsNumber(s: string) {
    ParseFloat(s).Denoted?
  }

  /** Whether a text parses depends only on its first characters: appending never makes a number NaN. */
  lemma ParsesAsNumberAppend(s: string, t: string)
    requires ParsesAsNumber(s)
    ensures ParsesAsNumber(s + t)
  {
    assert StartsLiteral(s);
    var k := SignLength(s);
    assert SignLength(s + t) == k;
    assert (s + t)[k..] == s[k..] + t;
    var u := s[k..];
    if "Infinity" <= u {
      assert "Infinity" <= u + t;
    } else if u != [] && IsDigit(u[0]) {
      assert (u + t)[0] == u[0];
    } else {
      assert (u + t)[0] == u[0] && (u + t)[1] == u[1];
    }
    assert StartsLiteral(s + t);
  }

  predicate AllDigits(s: string) {
    forall i :: 0 <= i < |s| ==> IsDigit(s[i])
  }

  /** The digit run of a text starts with its leading digits and stops at the first other character. */
  lemma {:induction false} DigitRunOf(s: string, t: string)
    requires AllDigits(s)
    requires t == [] || !IsDigit(t[0])
    ensures DigitRun(s + t) == |s|
    decreases |s|
  {
    if s != [] {
      assert (s + t)[1..] == s[1..] + t;
      DigitRunOf(s[1..], t);
    } else {
      assert s + t == t;
    }
  }

  /** A run of digits is read by `parseFloat` in full. */
  lemma ParseFloatInteger(s: string)
    requires s != [] && AllDigits(s)
    ensures ParseFloat(s) == Denoted(s)
  {
    DigitRunOf(s, []);
    assert s + [] == s;
  }

  /** A minus followed by a run of digits is read by `parseFloat` in full. */
  lemma ParseFloatNegative(s: string)
    requires s != [] && AllDigits(s)
    ensures ParseFloat("-" + s) == Denoted("-" + s)
  {
    DigitRunOf(s, []);
    assert s + [] == s;
    assert ("-" + s)[1..] == s;
  }

  /** The unsigned literal at the start of digits, a point, digits and `rest` ends before `rest`. */
  lemma FractionLength(whole: string, fraction: string, rest: string)
    requires whole != [] && AllDigits(whole)
    requires fraction != [] && AllDigits(fraction)
    requires rest == [] || (!IsDigit(rest[0]) && rest[0] != 'e' && rest[0] != 'E')
    ensures UnsignedLiteralLength(whole + ("." + (fraction + rest))) == |whole| + 1 + |fraction|
  {
    var tail := fraction + rest;
    var s := whole + ("." + tail);
    DigitRunOf(whole, "." + tail);
    assert s[|whole|] == '.';
    assert s[|whole| + 1..] == tail;
    DigitRunOf(fraction, rest);
    assert s[|whole| + 1 + |fraction|..] == rest;
    assert IsDigit(s[0]);
    assert MantissaLength(s) == |whole| + 1 + |fraction|;
  }

  /** A text that starts with a digit is read by `parseFloat` as its unsigned literal. */
  lemma ParseFloatUnsigned(s: string)
    requires s != [] && IsDigit(s[0])
    ensures ParseFloat(s) == Denoted(s[..UnsignedLiteralLength(s)])
  {
    assert SignLength(s) == 0;
    assert s[0..] == s;
  }

  lemma FractionText(whole: string, fraction: string, rest: string)
    ensures whole + ("." + (fraction + rest)) == whole + "." + fraction + rest
    ensures (whole + ("." + (fraction + rest)))[..|whole| + 1 + |fraction|] == whole + "." + fraction
  {
    assert whole + ("." + (fraction + rest)) == (whole + "." + fraction) + rest;
  }

  /**
   * Digits, a point and digits are read in full; what follows is ignored when it
   * starts with neither a digit nor an exponent mark.
   */
  lemma ParseFloatFraction(whole: string, fraction: string, rest: string)
    requires whole != [] && AllDigits(whole)
    requires fraction != [] && AllDigits(fraction)
    requires rest == [] || (!IsDigit(rest[0]) && rest[0] != 'e' && rest[0] != 'E')
    ensures ParseFloat(whole + "." + fraction + rest) == Denoted(whole + "." + fraction)
  {
    var s := whole + ("." + (fraction + rest));
    FractionLength(whole, fraction, rest);
    assert s[0] == whole[0];
    ParseFloatUnsigned(s);
    FractionText(whole, fraction, rest);
  }
}

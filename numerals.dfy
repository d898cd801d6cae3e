/** Decimal text for integers: Python's str(int) and int(str). */
module Numerals {
  import opened Wrappers
  import Text

  predicate IsDigit(c: char) {
    '0' <= c <= '9'
  }

  predicate AllDigits(s: string) {
    forall i :: 0 <= i < |s| ==> IsDigit(s[i])
  }

  function DigitValue(c: char): (d: nat)
    requires IsDigit(c)
    ensures d < 10
  {
    (c as int) - ('0' as int)
  }

  function DigitChar(d: nat): (c: char)
    requires d < 10
    ensures IsDigit(c) && DigitValue(c) == d
  {
    (('0' as int) + d) as char
  }

  function Pow10(k: nat): (r: nat)
    ensures r >= 1
  {
    if k == 0 then 1 else 10 * Pow10(k - 1)
  }

  function Abs(x: int): nat {
    if x < 0 then -x else x
  }

  /** The value of a string of decimal digits (leading zeros allowed). */
  function DigitsValue(s: string): nat
    requires AllDigits(s)
  {
    if |s| == 0 then 0 else 10 * DigitsValue(s[..|s| - 1]) + DigitValue(s[|s| - 1])
  }

  /** str(n) for a natural number: its digits, most significant first, without leading zeros. */
  function NatToString(n: nat): (r: string)
    ensures |r| >= 1 && AllDigits(r)
    ensures DigitsValue(r) == n
    ensures |r| > 1 ==> r[0] != '0'
  {
    if n < 10 then [DigitChar(n)]
    else
      var prefix := NatToString(n / 10);
      var r := prefix + [DigitChar(n % 10)];
      assert r[..|r| - 1] == prefix;
      r
  }

  /** str(i) for an integer. */
  function IntToString(i: int): (r: string)
    ensures |r| >= 1 && (r[0] == '-' || IsDigit(r[0])) && IsDigit(r[|r| - 1])
  {
    if i < 0 then "-" + NatToString(-i) else NatToString(i)
  }

  /** An optional sign followed by one or more digits, with nothing around them, as a decimal's exponent is written. */
  function ParseSignedDigits(t: string): Option<int> {
    var neg := |t| > 0 && t[0] == '-';
    var body := if |t| > 0 && (t[0] == '-' || t[0] == '+') then t[1..] else t;
    if |body| > 0 && AllDigits(body) then
      var v: int := DigitsValue(body);
      Some(if neg then -v else v)
    else None
  }

  /**
   * The text of int() once stripped: an optional sign, then optional whitespace, then one or
   * more digits.
   */
  function ParseIntText(t: string): Option<int> {
    var neg := |t| > 0 && t[0] == '-';
    var body := if |t| > 0 && (t[0] == '-' || t[0] == '+') then Text.StripLeft(t[1..]) else t;
    if |body| > 0 && AllDigits(body) then
      var v: int := DigitsValue(body);
      Some(if neg then -v else v)
    else None
  }

  /**
   * int(s) on a string, as Python 2 reads it: surrounding whitespace is ignored, and whitespace
   * may also stand between the sign and the digits.
   */
  function ParseInt(s: string): Result<int> {
    match ParseIntText(Text.Strip(s))
    case Some(n) => Success(n)
    case None => Failure(BadInteger(s))
  }

  lemma {:induction false} DigitsValueAppend(a: string, b: string)
    requires AllDigits(a) && AllDigits(b)
    ensures AllDigits(a + b)
    ensures DigitsValue(a + b) == DigitsValue(a) * Pow10(|b|) + DigitsValue(b)
  {
    if |b| == 0 {
      assert a + b == a;
    } else {
      var b' := b[..|b| - 1];
      LastOfAppend(a, b);
      DigitsValueAppend(a, b');
      Regroup(DigitsValue(a), DigitsValue(b'), DigitValue(b[|b| - 1]), Pow10(|b'|));
    }
  }

  lemma LastOfAppend(a: string, b: string)
    requires |b| > 0
    ensures (a + b)[..|a + b| - 1] == a + b[..|b| - 1]
    ensures (a + b)[|a + b| - 1] == b[|b| - 1]
  {
  }

  lemma Regroup(x: int, y: int, d: int, p: int)
    ensures 10 * (x * p + y) + d == x * (10 * p) + (10 * y + d)
  {
    assert 10 * (x * p) == x * (10 * p);
  }

  /** Leading zeros do not change the value of a digit string. */
  lemma {:induction false} LeadingZeros(z: string, s: string)
    requires forall i :: 0 <= i < |z| ==> z[i] == '0'
    requires AllDigits(s)
    ensures AllDigits(z + s) && DigitsValue(z + s) == DigitsValue(s)
  {
    DigitsValueAppend(z, s);
    ZerosValue(z);
  }

  lemma {:induction false} ZerosValue(z: string)
    requires forall i :: 0 <= i < |z| ==> z[i] == '0'
    ensures AllDigits(z) && DigitsValue(z) == 0
  {
    if |z| > 0 {
      ZerosValue(z[..|z| - 1]);
    }
  }

  lemma DigitsTrimmed(s: string)
    requires |s| >= 1 && (s[0] == '-' || IsDigit(s[0])) && IsDigit(s[|s| - 1])
    ensures Text.Trimmed(s)
  {
  }

  /** str and int are inverse on integers: int(str(i)) == i. */
  lemma {:induction false} ParseIntToString(i: int)
    ensures ParseInt(IntToString(i)) == Success(i)
    ensures ParseSignedDigits(IntToString(i)) == Some(i)
  {
    var s := IntToString(i);
    DigitsTrimmed(s);
    if i < 0 {
      var n := NatToString(-i);
      assert s[1..] == n;
      assert Text.StripLeft(n) == n;
      assert ParseSignedDigits(s) == Some(-(DigitsValue(n) as int));
      assert ParseIntText(s) == Some(-(DigitsValue(n) as int));
    } else {
      assert s[0] != '-' && s[0] != '+';
      assert ParseSignedDigits(s) == Some(DigitsValue(s));
      assert ParseIntText(s) == Some(DigitsValue(s));
    }
  }

  /** str(i) is a single token: a sign or digit first, only digits after it. */
  lemma IntToStringShape(i: int)
    ensures var s := IntToString(i);
      && Text.Trimmed(s) && s[0] != '%' && ',' !in s && '\n' !in s
  {
    var s := IntToString(i);
    DigitsTrimmed(s);
    var n := NatToString(Abs(i));
    assert forall k :: 0 <= k < |n| ==> n[k] != ',' && n[k] != '\n';
    assert s == n || s == "-" + n;
  }

  /** A sign, then anything ending in a digit, has no whitespace at either end. */
  lemma SignedTrimmed(c: char, g: string, d: string)
    requires (c == '-' || c == '+') && |d| > 0 && IsDigit(d[|d| - 1])
    ensures Text.Trimmed([c] + g + d) && ([c] + g + d)[1..] == g + d
  {
    var t := [c] + g + d;
    assert t[0] == c && t[|t| - 1] == d[|d| - 1];
  }

  /** A sign, whitespace and digits: strip() leaves the text alone, and the whitespace after the sign is skipped. */
  lemma SpacedSignText(c: char, g: string, d: string)
    requires (c == '-' || c == '+') && Text.AllSpace(g) && |d| > 0 && AllDigits(d)
    ensures var t := [c] + g + d; Text.Strip(t) == t && t[1..] == g + d && Text.StripLeft(g + d) == d
  {
    assert IsDigit(d[0]) && IsDigit(d[|d| - 1]);
    SignedTrimmed(c, g, d);
    Text.StripLeftSpaces(g, d);
  }

  /** A stripped text whose sign is followed, after any whitespace, by digits is read as the signed number. */
  lemma SignThenDigits(t: string, d: string)
    requires |t| > 0 && (t[0] == '-' || t[0] == '+') && Text.StripLeft(t[1..]) == d
    requires |d| > 0 && AllDigits(d)
    ensures ParseIntText(t) == Some(if t[0] == '-' then -(DigitsValue(d) as int) else DigitsValue(d))
  {
  }

  /** Whitespace between the sign and the digits is skipped: int("- 5") == -5. */
  lemma ParseIntSpacedSign(c: char, g: string, d: string)
    requires (c == '-' || c == '+') && Text.AllSpace(g) && |d| > 0 && AllDigits(d)
    ensures ParseInt([c] + g + d) == Success(if c == '-' then -(DigitsValue(d) as int) else DigitsValue(d))
  {
    var t := [c] + g + d;
    SpacedSignText(c, g, d);
    assert t[0] == c;
    SignThenDigits(t, d);
  }

  lemma SpacedSignExample()
    ensures ParseInt("- 5") == Success(-5)
  {
    var d := "5";
    assert AllDigits(d) && DigitsValue(d) == 5 by {
      assert d[..0] == "";
    }
    ParseIntSpacedSign('-', " ", d);
    assert ['-'] + " " + d == "- 5";
  }

  /** A run of digits is read as the number it spells. */
  lemma ParseDigits(s: string)
    requires |s| > 0 && AllDigits(s)
    ensures ParseInt(s) == Success(DigitsValue(s) as int)
    ensures ',' !in s && s[0] != '%'
  {
    assert s[0] != '-' && s[0] != '+';
  }
}

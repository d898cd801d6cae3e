/**
 * The part of Python's decimal.Decimal the core uses, for finite values only. A value is
 * Decimal's own (sign, digits, exponent) triple and denotes (-1)^sign * digits * 10^exponent;
 * zero keeps its sign, so -0 equals 0 as a number but is written "-0".
 */
module Decimals {
  import opened Wrappers
  import opened Numerals
  import Text

  /** (-1)^neg * mag * 10^exp: neg is the sign bit, mag the coefficient's digits as a number. */
  datatype Dec = Dec(neg: bool, mag: nat, exp: int)

  /** The coefficient's magnitude if d were written with exponent e (e <= d.exp). */
  function MagScaled(d: Dec, e: int): nat
    requires e <= d.exp
  {
    d.mag * Pow10(d.exp - e)
  }

  /** The signed coefficient d would have if it were written with exponent e (e <= d.exp). */
  function Scaled(d: Dec, e: int): int
    requires e <= d.exp
  {
    var m: int := MagScaled(d, e);
    if d.neg then -m else m
  }

  function Min(a: int, b: int): int {
    if a <= b then a else b
  }

  /** Decimal equality (==, and so set membership): both denote the same number; -0 == 0. */
  predicate SameValue(a: Dec, b: Dec) {
    var e := Min(a.exp, b.exp);
    Scaled(a, e) == Scaled(b, e)
  }

  /** c / u rounded to the nearest integer, ties to the even one (ROUND_HALF_EVEN). */
  function RoundHalfEven(c: int, u: int): (q: int)
    requires u > 0
    ensures -u <= 2 * (c - q * u) <= u
    ensures 2 * (c - q * u) == u || 2 * (c - q * u) == -u ==> q % 2 == 0
    ensures c >= 0 ==> q >= 0
  {
    var q0 := c / u;
    var r := c % u;
    DivisionFacts(c, u, q0, r);
    if 2 * r < u then q0
    else if 2 * r > u then q0 + 1
    else if q0 % 2 == 0 then q0
    else q0 + 1
  }

  lemma DivisionFacts(c: int, u: int, q0: int, r: int)
    requires u > 0 && q0 == c / u && r == c % u
    ensures 0 <= r < u
    ensures c - q0 * u == r && c - (q0 + 1) * u == r - u
  {
    assert (q0 + 1) * u == q0 * u + u;
  }

  /**
   * d.quantize(Decimal('0.01')) in the default context: the sign is kept and the magnitude is
   * the multiple of 0.01 nearest to |d|, ties going to the even coefficient. A negative value
   * that rounds to zero becomes -0.00.
   */
  function Quantize(d: Dec): (r: Dec)
    ensures r.exp == -2 && r.neg == d.neg
    ensures var e := Min(d.exp, -2); var u: int := Pow10(-2 - e); var m: int := MagScaled(d, e);
      && -u <= 2 * (m - r.mag * u) <= u
      && (2 * (m - r.mag * u) == u || 2 * (m - r.mag * u) == -u ==> r.mag % 2 == 0)
  {
    if d.exp >= -2 then Dec(d.neg, d.mag * Pow10(d.exp + 2), -2)
    else Dec(d.neg, RoundHalfEven(d.mag, Pow10(-2 - d.exp)), -2)
  }

  /** The form normalize() produces: no trailing zero in the coefficient, and a zero is 0E0 or -0E0. */
  predicate IsNormalized(d: Dec) {
    (d.mag == 0 && d.exp == 0) || d.mag % 10 != 0
  }

  /** d.normalize(): strip trailing zeros from the coefficient, keeping the value and the sign. */
  function Normalize(d: Dec): (r: Dec)
    ensures IsNormalized(r) && r.neg == d.neg
    ensures d.mag == 0 ==> r == Dec(d.neg, 0, 0)
    ensures d.mag != 0 ==> d.exp <= r.exp && d.mag == MagScaled(r, d.exp)
    decreases d.mag
  {
    if d.mag == 0 then Dec(d.neg, 0, 0)
    else if d.mag % 10 == 0 then
      var c := d.mag / 10;
      assert d.mag == 10 * c;
      var r := Normalize(Dec(d.neg, c, d.exp + 1));
      assert Pow10(r.exp - d.exp) == 10 * Pow10(r.exp - (d.exp + 1));
      assert MagScaled(r, d.exp) == 10 * MagScaled(r, d.exp + 1) by {
        Associate(r.mag, 10, Pow10(r.exp - (d.exp + 1)));
      }
      r
    else d
  }

  lemma Associate(a: int, b: int, c: int)
    ensures a * (b * c) == b * (a * c)
  {
  }

  /** The values represent_decimal produces: normalized, with at most two fractional digits. */
  predicate IsCanonical(d: Dec) {
    IsNormalized(d) && d.exp >= -2
  }

  /**
   * represent_decimal: quantize to 0.01, then normalize. The sign always survives, so a value
   * that rounds to zero from below is -0.
   */
  function RepresentDecimal(d: Dec): (r: Dec)
    ensures IsCanonical(r) && r.neg == d.neg
    ensures MagScaled(r, -2) == Quantize(d).mag
  {
    Normalize(Quantize(d))
  }

  /** Normalizing a coefficient padded with k zeros gives the unpadded decimal back. */
  lemma {:induction false} NormalizePadded(neg: bool, c: nat, e: int, k: nat)
    requires c % 10 != 0
    ensures Normalize(Dec(neg, c * Pow10(k), e - k)) == Dec(neg, c, e)
  {
    if k > 0 {
      var m := c * Pow10(k);
      var m' := c * Pow10(k - 1);
      assert m == 10 * m' by {
        Associate(c, 10, Pow10(k - 1));
      }
      assert m != 0;
      assert m % 10 == 0 && m / 10 == m';
      NormalizePadded(neg, c, e, k - 1);
    }
  }

  /** Canonical values are fixed points of represent_decimal. */
  lemma RepresentCanonical(d: Dec)
    requires IsCanonical(d)
    ensures RepresentDecimal(d) == d
  {
    if d.mag != 0 {
      NormalizePadded(d.neg, d.mag, d.exp, d.exp + 2);
    }
  }

  /** represent_decimal is idempotent. */
  lemma RepresentIdempotent(d: Dec)
    ensures RepresentDecimal(RepresentDecimal(d)) == RepresentDecimal(d)
  {
    RepresentCanonical(RepresentDecimal(d));
  }

  // ---------------------------------------------------------------- text

  /** n zero digits. */
  function Zeros(n: nat): (z: string)
    ensures |z| == n
    ensures forall i :: 0 <= i < n ==> z[i] == '0'
  {
    if n == 0 then "" else "0" + Zeros(n - 1)
  }

  /** "%+d": an exponent with its sign always written. */
  function SignedExponent(k: int): string {
    if k < 0 then "-" + NatToString(-k) else "+" + NatToString(k)
  }


  /** The digits of d's coefficient, as str() lists them. */
  function CoefDigits(d: Dec): string {
    NatToString(d.mag)
  }

  /** The number of digits before the decimal point when d is written without an exponent. */
  function LeftDigits(d: Dec): int {
    d.exp + |CoefDigits(d)|
  }

  /**
   * Where str() puts the decimal point: after LeftDigits when the exponent is at most 0 and the
   * number is not tiny (plain notation), otherwise after the first digit (scientific notation).
   */
  function DotPlace(d: Dec): (p: int)
    ensures p <= |CoefDigits(d)|
  {
    if d.exp <= 0 && LeftDigits(d) > -6 then LeftDigits(d) else 1
  }

  /** The digits before the decimal point. */
  function IntPart(digits: string, dotplace: int): string {
    if dotplace <= 0 then "0"
    else if dotplace >= |digits| then digits + Zeros(dotplace - |digits|)
    else digits[..dotplace]
  }

  /** The digits after the decimal point. */
  function FracDigits(digits: string, dotplace: int): string {
    if dotplace <= 0 then Zeros(-dotplace) + digits
    else if dotplace >= |digits| then ""
    else digits[dotplace..]
  }

  /** The decimal point and the digits after it, or nothing. */
  function FracPart(digits: string, dotplace: int): string {
    if dotplace < |digits| then "." + FracDigits(digits, dotplace) else ""
  }

  /** The exponent suffix: none when the point sits at its true place. */
  function ExpPart(leftdigits: int, dotplace: int): string {
    if leftdigits == dotplace then "" else "E" + SignedExponent(leftdigits - dotplace)
  }

  /** str(abs(d)). */
  function UnsignedText(d: Dec): string {
    var digits := CoefDigits(d);
    var dotplace := DotPlace(d);
    IntPart(digits, dotplace) + FracPart(digits, dotplace) + ExpPart(LeftDigits(d), dotplace)
  }

  /**
   * str(d): plain notation ("0.25", "-3") or scientific notation ("2E+1", "1.5E-7"), with a
   * '-' whenever the sign bit is set, a negative zero included ("-0"). The text is a single
   * token (no whitespace at its ends, no comma, no line break, no '%'), as DecToStringShape
   * shows; ParseDecToString reads it back.
   */
  function DecToString(d: Dec): string {
    (if d.neg then "-" else "") + UnsignedText(d)
  }

  /** str(d) is a single field of numeral characters that opens with '-' exactly when the sign is set. */
  lemma DecToStringShape(d: Dec)
    ensures var s := DecToString(d);
      && |s| >= 1 && Text.Trimmed(s) && ',' !in s && '\n' !in s && s[0] != '%'
      && (forall i :: 0 <= i < |s| ==> IsNumeralChar(s[i]))
      && (s[0] == '-' <==> d.neg)
  {
    var sign := if d.neg then "-" else "";
    UnsignedTextShape(d);
    SignedNumeralShape(sign + UnsignedText(d), sign, UnsignedText(d));
  }

  /** Decimal(str(d)) gives d back: sign, coefficient and exponent alike. */
  lemma ParseDecToString(d: Dec)
    ensures ParseDec(DecToString(d)) == Success(d)
  {
    var sign := if d.neg then "-" else "";
    UnsignedTextShape(d);
    SignedNumeralShape(sign + UnsignedText(d), sign, UnsignedText(d));
    UnsignedRoundTrip(d);
    ParseSignedParts(sign + UnsignedText(d), sign, UnsignedText(d), Dec(false, d.mag, d.exp));
  }

  /** The position of the exponent marker 'e' or 'E', or |s| when there is none. */
  function ExponentMarker(s: string): (k: nat)
    ensures k <= |s|
  {
    if |s| == 0 || s[0] == 'e' || s[0] == 'E' then 0 else 1 + ExponentMarker(s[1..])
  }

  /** A numeral cut into its integer digits, fraction digits and exponent text (if any). */
  datatype NumeralParts = NumeralParts(intPart: string, fracPart: string, exponent: Option<string>)

  /** Cut a numeral at its exponent marker and its decimal point. */
  function SplitNumeral(body: string): NumeralParts {
    var e := ExponentMarker(body);
    var mantissa := body[..e];
    var dot := Text.IndexOf(mantissa, '.');
    NumeralParts(
      mantissa[..dot],
      if dot < |mantissa| then mantissa[dot + 1..] else "",
      if e < |body| then Some(body[e + 1..]) else None)
  }

  /**
   * An unsigned decimal numeral: digits with at most one decimal point (at least one digit),
   * then an optional exponent; the non-negative decimal it denotes.
   */
  function ParseUnsigned(body: string): Option<Dec> {
    var p := SplitNumeral(body);
    var exponent := if p.exponent.Some? then ParseSignedDigits(p.exponent.value) else Some(0);
    var digits := p.intPart + p.fracPart;
    if AllDigits(digits) && |digits| > 0 && exponent.Some? then
      Some(Dec(false, DigitsValue(digits), exponent.value - |p.fracPart|))
    else None
  }

  /** An optional sign followed by an unsigned numeral, with nothing around them. */
  function ParseSignedNumeral(t: string): Option<Dec> {
    var neg := |t| > 0 && t[0] == '-';
    var body := if |t| > 0 && (t[0] == '-' || t[0] == '+') then t[1..] else t;
    match ParseUnsigned(body)
    case Some(v) => Some(Dec(neg, v.mag, v.exp))
    case None => None
  }

  /**
   * Decimal(s) for a string: surrounding whitespace is ignored, then an optional sign and a
   * numeral. Blank text is refused, the error names the text as given, and a leading minus
   * makes the value negative.
   */
  function ParseDec(s: string): (r: Result<Dec>)
    ensures Text.Strip(s) == "" ==> r.Failure?
    ensures r.Failure? ==> r.error == BadDecimal(s)
    ensures r.Success? ==> |Text.Strip(s)| > 0 && (r.value.neg <==> Text.Strip(s)[0] == '-')
  {
    match ParseSignedNumeral(Text.Strip(s))
    case Some(v) => Success(v)
    case None => Failure(BadDecimal(s))
  }

  // ---------------------------------------------------------------- shape and round trip

  predicate IsMantissaChar(c: char) {
    IsDigit(c) || c == '.'
  }

  predicate IsNumeralChar(c: char) {
    IsMantissaChar(c) || c == 'E' || c == '+' || c == '-'
  }

  /** A fraction "0.000ddd" carries the value of its significant digits. */
  lemma PaddedFraction(n: nat, digits: string)
    requires AllDigits(digits)
    ensures AllDigits(Zeros(n) + digits) && DigitsValue("0" + (Zeros(n) + digits)) == DigitsValue(digits)
  {
    var z := Zeros(n);
    LeadingZeros("0" + z, digits);
    assert "0" + (z + digits) == ("0" + z) + digits;
  }

  /** The integer part and the fraction digits of a coefficient, with what they are worth. */
  lemma MantissaDigits(digits: string, dotplace: int)
    requires |digits| >= 1 && AllDigits(digits) && dotplace <= |digits|
    ensures var ip, fd := IntPart(digits, dotplace), FracDigits(digits, dotplace);
      && |ip| >= 1 && AllDigits(ip) && AllDigits(fd)
      && DigitsValue(ip + fd) == DigitsValue(digits)
      && |fd| == |digits| - Max(dotplace, 0) + Max(-dotplace, 0)
      && (dotplace < |digits| ==> |fd| >= 1)
      && (dotplace < |digits| || fd == "")
  {
    var ip, fd := IntPart(digits, dotplace), FracDigits(digits, dotplace);
    if dotplace <= 0 {
      PaddedFraction(-dotplace, digits);
    } else if dotplace >= |digits| {
      assert dotplace - |digits| == 0;
      assert ip + fd == digits;
    } else {
      assert ip + fd == digits;
    }
  }

  function Max(a: int, b: int): int {
    if a >= b then a else b
  }

  lemma SignedExponentShape(k: int)
    ensures var x := SignedExponent(k);
      && |x| >= 2 && (x[0] == '+' || x[0] == '-') && IsDigit(x[|x| - 1])
      && (forall i :: 1 <= i < |x| ==> IsDigit(x[i]))
      && ParseSignedDigits(x) == Some(k)
  {
    var x := SignedExponent(k);
    assert x[1..] == NatToString(Abs(k));
  }

  /** Text that starts and ends with a digit and holds only digits, '.', 'E' and signs. */
  predicate IsNumeralText(u: string) {
    |u| >= 1 && IsDigit(u[0]) && IsDigit(u[|u| - 1]) && forall i :: 0 <= i < |u| ==> IsNumeralChar(u[i])
  }

  lemma NumeralPartsShape(ip: string, fd: string, frac: string, rest: string, k: int)
    requires AllDigits(ip) && AllDigits(fd) && |ip| >= 1
    requires (frac == "." + fd && |fd| >= 1) || (frac == "" && fd == "")
    requires rest == "" || rest == "E" + SignedExponent(k)
    ensures IsNumeralText(ip + frac + rest)
  {
    var m := ip + frac;
    forall i | 0 <= i < |m| ensures IsMantissaChar(m[i]) {
      if i < |ip| {
        assert m[i] == ip[i];
      } else if i > |ip| {
        assert m[i] == fd[i - |ip| - 1];
      }
    }
    assert IsDigit(m[|m| - 1]) by {
      if frac != "" {
        assert m[|m| - 1] == fd[|fd| - 1];
      }
    }
    assert m + rest == ip + frac + rest && m[0] == ip[0];
    if rest != "" {
      SignedExponentShape(k);
      ExponentTail(m, SignedExponent(k));
    }
  }

  /** A mantissa followed by 'E' and a signed exponent is numeral text. */
  lemma ExponentTail(m: string, x: string)
    requires |m| >= 1 && IsDigit(m[0]) && forall i :: 0 <= i < |m| ==> IsMantissaChar(m[i])
    requires |x| >= 2 && (x[0] == '+' || x[0] == '-') && forall i :: 1 <= i < |x| ==> IsDigit(x[i])
    ensures IsNumeralText(m + ("E" + x))
  {
    var u := m + ("E" + x);
    forall i | 0 <= i < |u| ensures IsNumeralChar(u[i]) {
      if i < |m| {
        assert u[i] == m[i];
      } else if i > |m| {
        assert u[i] == x[i - |m| - 1];
      }
    }
    assert u[|u| - 1] == x[|x| - 1];
  }

  lemma UnsignedTextShape(d: Dec)
    ensures IsNumeralText(UnsignedText(d))
  {
    var digits, dotplace := CoefDigits(d), DotPlace(d);
    MantissaDigits(digits, dotplace);
    NumeralPartsShape(IntPart(digits, dotplace), FracDigits(digits, dotplace), FracPart(digits, dotplace),
      ExpPart(LeftDigits(d), dotplace), LeftDigits(d) - dotplace);
  }

  lemma SignedNumeralShape(s: string, sign: string, u: string)
    requires sign == "-" || sign == ""
    requires s == sign + u && IsNumeralText(u)
    ensures |s| >= 1 && Text.Trimmed(s) && ',' !in s && '\n' !in s && s[0] != '%'
    ensures forall i :: 0 <= i < |s| ==> IsNumeralChar(s[i])
  {
  }

  lemma {:induction false} ExponentMarkerAfter(m: string, rest: string)
    requires forall i :: 0 <= i < |m| ==> IsMantissaChar(m[i])
    requires |rest| == 0 || rest[0] == 'E'
    ensures ExponentMarker(m + rest) == |m|
    decreases |m|
  {
    var s := m + rest;
    if |m| > 0 {
      assert s[0] == m[0] && IsMantissaChar(m[0]);
      assert s[1..] == m[1..] + rest;
      assert forall i :: 0 <= i < |m[1..]| ==> m[1..][i] == m[i + 1];
      ExponentMarkerAfter(m[1..], rest);
      assert ExponentMarker(s) == 1 + ExponentMarker(s[1..]);
    } else {
      assert s == rest;
    }
  }

  lemma IndexOfAfter(ip: string, m: string)
    requires '.' !in ip
    requires m == ip || (|m| > |ip| && m[..|ip|] == ip && m[|ip|] == '.')
    ensures Text.IndexOf(m, '.') == |ip|
    decreases |ip|
  {
    if |ip| > 0 {
      assert m[1..][..|ip| - 1] == ip[1..];
      IndexOfAfter(ip[1..], m[1..]);
    }
  }

  /** A numeral written as intPart[.fracDigits][E exponent] is cut back into those parts. */
  lemma SplitNumeralParts(ip: string, fd: string, frac: string, rest: string)
    requires AllDigits(ip) && AllDigits(fd)
    requires frac == "." + fd || (frac == "" && fd == "")
    requires rest == "" || rest[0] == 'E'
    ensures SplitNumeral(ip + frac + rest) == NumeralParts(ip, fd, if rest == "" then None else Some(rest[1..]))
  {
    var m := ip + frac;
    assert forall i :: 0 <= i < |m| ==> IsMantissaChar(m[i]);
    ExponentMarkerAfter(m, rest);
    var body := m + rest;
    assert body[..|m|] == m;
    assert '.' !in ip;
    IndexOfAfter(ip, m);
    assert m[..|ip|] == ip;
    if |ip| < |m| {
      assert m[|ip| + 1..] == fd;
    }
    if rest != "" {
      assert body[|m| + 1..] == rest[1..];
    }
  }

  lemma ParseUnsignedFromParts(body: string, ip: string, fd: string, x: Option<string>, k: int)
    requires SplitNumeral(body) == NumeralParts(ip, fd, x)
    requires AllDigits(ip + fd) && |ip + fd| > 0
    requires (x == None && k == 0) || (x.Some? && ParseSignedDigits(x.value) == Some(k))
    ensures ParseUnsigned(body) == Some(Dec(false, DigitsValue(ip + fd), k - |fd|))
  {
  }

  /** A numeral written as intPart[.fracDigits][E exponent] reads back as its digits and exponent. */
  lemma ParseUnsignedParts(ip: string, fd: string, frac: string, rest: string, k: int)
    requires AllDigits(ip) && AllDigits(fd) && |ip| >= 1
    requires frac == "." + fd || (frac == "" && fd == "")
    requires (rest == "" && k == 0) || (|rest| > 0 && rest[0] == 'E' && ParseSignedDigits(rest[1..]) == Some(k))
    ensures ParseUnsigned(ip + frac + rest) == Some(Dec(false, DigitsValue(ip + fd), k - |fd|))
  {
    assert AllDigits(ip + fd);
    SplitNumeralParts(ip, fd, frac, rest);
    ParseUnsignedFromParts(ip + frac + rest, ip, fd, if rest == "" then None else Some(rest[1..]), k);
  }

  /** The parts str() writes for d read back as d's coefficient and exponent. */
  lemma PartsRoundTrip(d: Dec, u: string, ip: string, fd: string, frac: string, rest: string, k: int)
    requires u == ip + frac + rest
    requires AllDigits(ip) && AllDigits(fd) && |ip| >= 1
    requires frac == "." + fd || (frac == "" && fd == "")
    requires (rest == "" && k == 0) || (|rest| > 0 && rest[0] == 'E' && ParseSignedDigits(rest[1..]) == Some(k))
    requires DigitsValue(ip + fd) == d.mag && k - |fd| == d.exp
    ensures ParseUnsigned(u) == Some(Dec(false, d.mag, d.exp))
  {
    ParseUnsignedParts(ip, fd, frac, rest, k);
    assert Dec(false, DigitsValue(ip + fd), k - |fd|) == Dec(false, d.mag, d.exp);
  }

  lemma UnsignedRoundTrip(d: Dec)
    ensures ParseUnsigned(UnsignedText(d)) == Some(Dec(false, d.mag, d.exp))
  {
    var digits, dotplace, leftdigits := CoefDigits(d), DotPlace(d), LeftDigits(d);
    var ip, fd := IntPart(digits, dotplace), FracDigits(digits, dotplace);
    var frac, rest := FracPart(digits, dotplace), ExpPart(leftdigits, dotplace);
    MantissaDigits(digits, dotplace);
    var k := if rest == "" then 0 else leftdigits - dotplace;
    if rest != "" {
      SignedExponentShape(k);
      assert rest[1..] == SignedExponent(k);
    }
    PartsRoundTrip(d, UnsignedText(d), ip, fd, frac, rest, k);
  }

  lemma NegativeNumeral(t: string, u: string, v: Dec)
    requires t == "-" + u && ParseUnsigned(u) == Some(v)
    ensures ParseSignedNumeral(t) == Some(Dec(true, v.mag, v.exp))
  {
    assert t[1..] == u;
  }

  lemma UnsignedNumeral(u: string, v: Dec)
    requires |u| >= 1 && IsDigit(u[0]) && ParseUnsigned(u) == Some(v)
    ensures ParseSignedNumeral(u) == Some(Dec(false, v.mag, v.exp))
  {
  }

  lemma SignedNumeralParts(t: string, sign: string, u: string, v: Dec)
    requires sign == "-" || sign == ""
    requires t == sign + u && |u| >= 1 && IsDigit(u[0]) && ParseUnsigned(u) == Some(v)
    ensures ParseSignedNumeral(t) == Some(Dec(sign == "-", v.mag, v.exp))
  {
    if sign == "-" {
      NegativeNumeral(t, u, v);
    } else {
      assert t == u;
      UnsignedNumeral(u, v);
    }
  }

  lemma ParseSignedParts(s: string, sign: string, u: string, v: Dec)
    requires sign == "-" || sign == ""
    requires s == sign + u && IsNumeralText(u) && ParseUnsigned(u) == Some(v)
    ensures ParseDec(s) == Success(Dec(sign == "-", v.mag, v.exp))
  {
    SignedNumeralShape(s, sign, u);
    SignedNumeralParts(s, sign, u, v);
  }

  // ---------------------------------------------------------------- arithmetic on values

  lemma {:induction false} Pow10Add(a: nat, b: nat)
    ensures Pow10(a + b) == Pow10(a) * Pow10(b)
  {
    if a > 0 {
      Pow10Add(a - 1, b);
      Associate(10, Pow10(a - 1), Pow10(b));
    }
  }

  /** Writing d with an exponent lowered from e to f multiplies its coefficient by 10^(e - f). */
  lemma ScaledShift(d: Dec, e: int, f: int)
    requires f <= e <= d.exp
    ensures Scaled(d, f) == Scaled(d, e) * Pow10(e - f)
  {
    Pow10Add(d.exp - e, e - f);
    assert MagScaled(d, f) == MagScaled(d, e) * Pow10(e - f) by {
      Associate3(d.mag, Pow10(d.exp - e), Pow10(e - f));
    }
  }

  lemma Associate3(a: int, b: int, c: int)
    ensures a * (b * c) == (a * b) * c
  {
  }

  /** A difference that holds at one exponent holds at every lower one. */
  lemma DifferenceShift(r: Dec, a: Dec, b: Dec)
    requires r.exp <= a.exp && r.exp <= b.exp
    requires Scaled(r, r.exp) == Scaled(a, r.exp) - Scaled(b, r.exp)
    ensures forall e :: e <= r.exp ==> Scaled(r, e) == Scaled(a, e) - Scaled(b, e)
  {
    forall e | e <= r.exp
      ensures Scaled(r, e) == Scaled(a, e) - Scaled(b, e)
    {
      ScaledShift(r, r.exp, e);
      ScaledShift(a, r.exp, e);
      ScaledShift(b, r.exp, e);
      Distribute(Scaled(a, r.exp), Scaled(b, r.exp), Pow10(r.exp - e));
    }
  }

  lemma Distribute(x: int, y: int, p: int)
    ensures (x - y) * p == x * p - y * p
  {
  }

  /**
   * a - b, exact, with the smaller of the two exponents: at any exponent both operands can be
   * written with, the difference's coefficient is the difference of theirs. A zero difference is
   * 0 unless both operands are zeros and only a is negative; that is Decimal's rule for a zero
   * sum when rounding is not ROUND_FLOOR.
   */
  function Subtract(a: Dec, b: Dec): (r: Dec)
    ensures r.exp == Min(a.exp, b.exp)
    ensures forall e :: e <= r.exp ==> Scaled(r, e) == Scaled(a, e) - Scaled(b, e)
    ensures r.mag == 0 ==> (r.neg <==> a.mag == 0 && b.mag == 0 && a.neg && !b.neg)
  {
    var e := Min(a.exp, b.exp);
    var c := Scaled(a, e) - Scaled(b, e);
    var r := Dec(if c == 0 then a.mag == 0 && b.mag == 0 && a.neg && !b.neg else c < 0, Abs(c), e);
    assert Scaled(r, e) == c;
    DifferenceShift(r, a, b);
    r
  }

  lemma MultiplyCancel(x: int, y: int, p: int)
    requires p >= 1
    ensures x * p == y * p <==> x == y
  {
    if x != y {
      var d := if x < y then y - x else x - y;
      assert d >= 1;
      MultiplyMonotone(1, d, p);
      assert d * p == (if x < y then y * p - x * p else x * p - y * p) by {
        Distribute(if x < y then y else x, if x < y then x else y, p);
      }
    }
  }

  lemma MultiplyMonotone(a: int, b: int, p: nat)
    requires a <= b
    ensures a * p <= b * p
  {
  }

  /** Two decimals are the same number exactly when they agree at any exponent both can be written with. */
  lemma SameValueAt(a: Dec, b: Dec, f: int)
    requires f <= a.exp && f <= b.exp
    ensures SameValue(a, b) <==> Scaled(a, f) == Scaled(b, f)
  {
    var e := Min(a.exp, b.exp);
    ScaledShift(a, e, f);
    ScaledShift(b, e, f);
    MultiplyCancel(Scaled(a, e), Scaled(b, e), Pow10(e - f));
  }

  /** Decimal equality is transitive, across exponents and signs of zero. */
  lemma SameValueTransitive(a: Dec, b: Dec, c: Dec)
    requires SameValue(a, b) && SameValue(b, c)
    ensures SameValue(a, c)
  {
    var f := Min(Min(a.exp, b.exp), c.exp);
    SameValueAt(a, b, f);
    SameValueAt(b, c, f);
    SameValueAt(a, c, f);
  }

  /** -1 * d: the sign bit flips, for a zero too. */
  function Negate(d: Dec): (r: Dec)
    ensures r.exp == d.exp && r.mag == d.mag && r.neg != d.neg
    ensures forall e :: e <= r.exp ==> Scaled(r, e) == -Scaled(d, e)
  {
    Dec(!d.neg, d.mag, d.exp)
  }

  /** a // u for a non-negative a, with the bounds that define it. */
  function Quotient(a: nat, u: int): (q: nat)
    requires u > 0
    ensures q * u <= a < q * u + u
  {
    var q := a / u;
    DivisionFacts(a, u, q, a % u);
    q
  }

  /** int(d): the integer part of d, truncated toward zero; int(-0) is 0. */
  function TruncToInt(d: Dec): (r: int)
    ensures d.exp >= 0 ==> r == Scaled(d, 0)
    ensures d.exp < 0 ==> var u := Pow10(-d.exp); Abs(r) * u <= d.mag < Abs(r) * u + u
    ensures r != 0 ==> (r < 0 <==> d.neg)
  {
    if d.exp >= 0 then Scaled(d, 0)
    else
      var q: int := Quotient(d.mag, Pow10(-d.exp));
      if d.neg then -q else q
  }

  // ---------------------------------------------------------------- examples

  lemma SmallPowers()
    ensures Pow10(2) == 100 && Pow10(3) == 1000 && Pow10(4) == 10000 && Pow10(5) == 100000
  {
    assert Pow10(1) == 10;
  }

  /** represent_decimal rounds to the nearest hundredth: 1.3399999 -> 1.34. */
  lemma RepresentRoundsUp()
    ensures RepresentDecimal(Dec(false, 13399999, -7)) == Dec(false, 134, -2)
  {
    SmallPowers();
    assert Quantize(Dec(false, 13399999, -7)) == Dec(false, 134, -2);
  }

  /** represent_decimal drops digits beyond the hundredths: 100000.334234 -> 100000.33. */
  lemma RepresentRoundsDown()
    ensures RepresentDecimal(Dec(false, 100000334234, -6)) == Dec(false, 10000033, -2)
  {
    SmallPowers();
    assert Quantize(Dec(false, 100000334234, -6)) == Dec(false, 10000033, -2);
  }

  /** represent_decimal strips trailing zeros: 1.30000 -> 1.3 and 1.00000 -> 1. */
  lemma RepresentStripsZeros()
    ensures RepresentDecimal(Dec(false, 130000, -5)) == Dec(false, 13, -1)
    ensures RepresentDecimal(Dec(false, 100000, -5)) == Dec(false, 1, 0)
  {
    SmallPowers();
    assert Quantize(Dec(false, 130000, -5)) == Dec(false, 130, -2);
    NormalizePadded(false, 13, -1, 1);
    assert Quantize(Dec(false, 100000, -5)) == Dec(false, 100, -2);
    NormalizePadded(false, 1, 0, 2);
  }

  /** represent_decimal keeps an integer as it is: 34 -> 34. */
  lemma RepresentInteger()
    ensures RepresentDecimal(Dec(false, 34, 0)) == Dec(false, 34, 0)
  {
    SmallPowers();
    assert Quantize(Dec(false, 34, 0)) == Dec(false, 3400, -2);
    NormalizePadded(false, 34, 0, 2);
  }

  /** str() writes a two-place value in plain notation: 1.34. */
  lemma PlainExample()
    ensures DecToString(Dec(false, 134, -2)) == "1.34"
  {
    assert NatToString(134) == "134" by {
      assert NatToString(1) == "1";
      assert NatToString(13) == "13";
    }
  }

  /** represent_decimal(20) is the normalized 2E+1 ... */
  lemma NormalizeMultipleOfTen()
    ensures RepresentDecimal(Dec(false, 20, 0)) == Dec(false, 2, 1)
  {
    SmallPowers();
    assert Quantize(Dec(false, 20, 0)) == Dec(false, 2000, -2);
    NormalizePadded(false, 2, 1, 3);
  }

  /** ... which str() writes with an exponent. */
  lemma ExponentExample()
    ensures DecToString(Dec(false, 2, 1)) == "2E+1"
  {
    assert NatToString(2) == "2";
    assert NatToString(1) == "1";
  }

  /**
   * The sign survives rounding to zero: represent_decimal(-0.001) is -0, and str() writes it
   * "-0", so a record read with that field writes it back as "-0".
   */
  lemma RepresentNegativeZero()
    ensures RepresentDecimal(Dec(true, 1, -3)) == Dec(true, 0, 0)
    ensures DecToString(Dec(true, 0, 0)) == "-0"
  {
    assert Pow10(1) == 10;
    assert Quantize(Dec(true, 1, -3)) == Dec(true, 0, -2);
    assert NatToString(0) == "0";
  }
}

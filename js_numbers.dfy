/** Small shared datatypes. */
module Base {

  datatype Option<+T> = None | Some(value: T)

  datatype Result<+T, +E> = Ok(value: T) | Err(error: E)

  function Min(a: int, b: int): int { if a <= b then a else b }

  function Max(a: int, b: int): int { if a >= b then a else b }
}

/**
  The number semantics of JavaScript that the pipeline depends on, over
  unbounded reals instead of IEEE doubles: `parseFloat` (section 18.2.4 of
  ECMA-262 2019), `Number.prototype.toFixed(2)` as integer cents,
  `Math.round`, `Math.ceil` of a quotient, and `Array.prototype.slice`
  with its relative indices.
*/
module JsNumbers {
  import opened Base
  import opened JsStrings

  /** Number of decimal digits at the start of `s`. */
  function LeadingDigits(s: string): (n: nat)
    ensures n <= |s| && AllDigits(s[..n])
    ensures n < |s| ==> !IsDigit(s[n])
  {
    if s == [] || !IsDigit(s[0]) then 0 else 1 + LeadingDigits(s[1..])
  }

  /** Value of a string of decimal digits, most significant first. */
  function DigitsValue(d: string): nat
    requires AllDigits(d)
  {
    if d == [] then 0 else DigitsValue(d[..|d| - 1]) * 10 + DigitValue(d[|d| - 1])
  }

  /** `x * 10^e` for a possibly negative exponent, one factor of ten at a time. */
  function Scale(x: real, e: int): (r: real)
    ensures x >= 0.0 ==> r >= 0.0
    decreases if e >= 0 then e else -e
  {
    if e == 0 then x else if e > 0 then Scale(x, e - 1) * 10.0 else Scale(x, e + 1) / 10.0
  }

  /** The exponent of an `ExponentPart` at the start of `u`, or 0 when `u` does not start with a complete one. */
  function ExponentPart(u: string): int
  {
    if |u| >= 2 && (u[0] == 'e' || u[0] == 'E') then
      var v := u[1..];
      var negative := v[0] == '-';
      var w := if v[0] == '-' || v[0] == '+' then v[1..] else v;
      var n := LeadingDigits(w);
      if n == 0 then 0
      else if negative then -(DigitsValue(w[..n]) as int)
      else DigitsValue(w[..n])
    else 0
  }

  /** A `StrUnsignedDecimalLiteral` split into its digits and exponent. */
  datatype DecimalLiteral = DecimalLiteral(units: string, fraction: string, exponent: int)

  /**
    The longest prefix of `t` that is a `StrUnsignedDecimalLiteral`: digits,
    an optional point and fraction digits, at least one digit in all, and an
    optional exponent. `None` when `t` does not start with one.
  */
  function ScanDecimal(t: string): (r: Option<DecimalLiteral>)
    ensures r.Some? ==> AllDigits(r.value.units) && AllDigits(r.value.fraction)
  {
    var n1 := LeadingDigits(t);
    var hasDot := n1 < |t| && t[n1] == '.';
    var afterDot := if hasDot then t[n1 + 1..] else [];
    var frac := afterDot[..LeadingDigits(afterDot)];
    if n1 == 0 && |frac| == 0 then None
    else
      var rest := if hasDot then afterDot[|frac|..] else t[n1..];
      Some(DecimalLiteral(t[..n1], frac, ExponentPart(rest)))
  }

  /** Value of the digits after a decimal point. */
  function FractionValue(f: string): (r: real)
    requires AllDigits(f)
    ensures 0.0 <= r < 1.0
  {
    if f == [] then 0.0 else (DigitValue(f[0]) as real + FractionValue(f[1..])) / 10.0
  }

  /** The number a decimal literal denotes. */
  function LiteralValue(d: DecimalLiteral): real
    requires AllDigits(d.units) && AllDigits(d.fraction)
  {
    Scale(DigitsValue(d.units) as real + FractionValue(d.fraction), d.exponent)
  }

  /** The value of the longest decimal prefix of `t`, `None` (NaN) when there is none. */
  function UnsignedDecimal(t: string): Option<real>
  {
    match ScanDecimal(t)
    case None => None
    case Some(d) => Some(LiteralValue(d))
  }

  /** Unary minus on a parsed number; NaN stays NaN. */
  function Negate(x: Option<real>): Option<real>
  {
    match x
    case None => None
    case Some(v) => Some(-v)
  }

  /**
    `parseFloat(s)`: skip leading white space, read an optional sign, then
    the longest decimal prefix. `None` stands for NaN.
  */
  function JsParseFloat(s: string): Option<real>
  {
    var t := TrimStart(s);
    if t != [] && t[0] == '-' then Negate(UnsignedDecimal(t[1..]))
    else if t != [] && t[0] == '+' then UnsignedDecimal(t[1..])
    else UnsignedDecimal(t)
  }

  /** `x || fallback` for an integer that may be absent or NaN (`None`): 0 is falsy too. */
  function IntOr(x: Option<int>, fallback: int): int
  {
    if x.None? || x.value == 0 then fallback else x.value
  }

  /** `x || 0` for a parsed number: NaN (and 0 itself) become 0. */
  function OrZero(x: Option<real>): real
  {
    match x
    case None => 0.0
    case Some(v) => v
  }

  /** `x.toFixed(2)` as a number of cents: the nearest cent, halves away from zero. */
  function RoundCents(x: real): int
  {
    if x >= 0.0 then CentsOf(x) else -(CentsOf(-x) as int)
  }

  /** Rounding to cents keeps the sign and moves the amount by at most half a cent. */
  lemma RoundCentsBounds(x: real)
    ensures x >= 0.0 ==> RoundCents(x) >= 0
    ensures x <= 0.0 ==> RoundCents(x) <= 0
    ensures -0.005 <= x - RoundCents(x) as real / 100.0 <= 0.005
  {
  }

  /** The nearest number of cents to a non-negative amount, halves rounded up (0 for a negative one). */
  function CentsOf(x: real): (c: nat)
  {
    if x >= 0.0 then (x * 100.0 + 0.5).Floor else 0
  }

  /** Rounding to cents keeps the order of its arguments. */
  lemma RoundCentsMonotone(x: real, y: real)
    requires x <= y
    ensures RoundCents(x) <= RoundCents(y)
  {
    if x < 0.0 && y >= 0.0 {
    } else if x < 0.0 {
      assert (-y) * 100.0 + 0.5 <= (-x) * 100.0 + 0.5;
    }
  }

  /** An amount that already is a whole number of cents rounds to itself. */
  lemma RoundCentsExact(c: int)
    ensures RoundCents(c as real / 100.0) == c
  {
  }

  /** The digits `toFixed(2)` prints for a non-negative number of cents: `<units>.<two digits>`. */
  function CentsString(c: nat): string
  {
    NatToString(c / 100) + ['.'] + CentsDigits(c)
  }

  /** `x.toFixed(2)` as a string (for |x| < 10^21, where it does not switch to exponent notation). */
  function FixedString(x: real): string
  {
    if x < 0.0 then ['-'] + CentsString(CentsOf(-x)) else CentsString(CentsOf(x))
  }

  /** `Math.round`: the nearest integer, halves rounded up. */
  function JsRound(x: real): (n: int)
    ensures x - 0.5 < n as real <= x + 0.5
  {
    (x + 0.5).Floor
  }

  /** `Math.ceil(a / b)` for a count `a` and a non-zero divisor `b`. */
  function CeilDiv(a: nat, b: int): (q: int)
    requires b != 0
    ensures b > 0 ==> (q - 1) * b < a <= q * b
    ensures b < 0 ==> q * b <= a < (q - 1) * b && q <= 0
  {
    if b > 0 then (a + b - 1) / b else -(a / -b)
  }

  /** A relative index of `slice`: negative counts from the end; the result is clamped to `[0, len]`. */
  function RelativeIndex(k: int, len: nat): (r: nat)
    ensures r <= len
  {
    if k < 0 then Max(len + k, 0) else Min(k, len)
  }

  /** `s.slice(start, end)`. */
  function JsSlice<T>(s: seq<T>, start: int, end: int): (r: seq<T>)
    ensures 0 <= start <= end <= |s| ==> r == s[start..end]
    ensures 0 <= end <= start ==> r == []
  {
    var a := RelativeIndex(start, |s|);
    var b := RelativeIndex(end, |s|);
    if a < b then s[a..b] else []
  }

  // ---------------------------------------------------------------------
  // Properties of the parser.

  /** Reading back the decimal form of a count gives the count. */
  lemma {:induction false} DigitsValueOfNatToString(n: nat)
    ensures DigitsValue(NatToString(n)) == n
  {
    if n >= 10 {
      var d := NatToString(n);
      assert d[..|d| - 1] == NatToString(n / 10);
      DigitsValueOfNatToString(n / 10);
    }
  }

  /** Digits followed by something that is not a digit: the leading digit run is exactly the digits. */
  lemma {:induction false} LeadingDigitsOfConcat(a: string, b: string)
    requires AllDigits(a)
    ensures LeadingDigits(a + b) == |a| + LeadingDigits(b)
  {
    if a != [] {
      assert (a + b)[1..] == a[1..] + b;
      LeadingDigitsOfConcat(a[1..], b);
    } else {
      assert a + b == b;
    }
  }

  /** A run of digits with nothing after it reads as its value. */
  lemma UnsignedDecimalOfDigits(d: string)
    requires d != [] && AllDigits(d)
    ensures UnsignedDecimal(d) == Some(DigitsValue(d) as real)
  {
    ScanDigits(d);
  }

  /** A run of digits with nothing after it scans as those digits, without fraction or exponent. */
  lemma ScanDigits(d: string)
    requires d != [] && AllDigits(d)
    ensures ScanDecimal(d) == Some(DecimalLiteral(d, [], 0))
  {
    LeadingDigitsOfConcat(d, []);
    assert d + [] == d;
    assert d[..|d|] == d;
    assert d[|d|..] == [];
  }

  /** Digits, a point and digits, with nothing after them, scan as that literal without exponent. */
  lemma ScanPointNumber(units: string, fraction: string)
    requires units != [] && AllDigits(units) && AllDigits(fraction)
    ensures ScanDecimal(units + ['.'] + fraction) == Some(DecimalLiteral(units, fraction, 0))
  {
    var t := units + ['.'] + fraction;
    assert t == units + (['.'] + fraction);
    LeadingDigitsOfConcat(units, ['.'] + fraction);
    var n1 := |units|;
    assert t[..n1] == units;
    assert t[n1] == '.';
    var afterDot := t[n1 + 1..];
    assert afterDot == fraction;
    LeadingDigitsOfConcat(fraction, []);
    assert fraction + [] == fraction;
    assert afterDot[..|fraction|] == fraction;
    assert afterDot[|fraction|..] == [];
  }

  /** Digits, a point and digits read as `units + fraction / 10^|fraction|`. */
  lemma UnsignedDecimalOfPointNumber(units: string, fraction: string)
    requires units != [] && AllDigits(units) && AllDigits(fraction)
    ensures UnsignedDecimal(units + ['.'] + fraction)
         == Some(DigitsValue(units) as real + FractionValue(fraction))
  {
    ScanPointNumber(units, fraction);
  }

  /** `parseFloat(String(n)) == n` for every count `n`. */
  lemma ParseNatToString(n: nat)
    ensures JsParseFloat(NatToString(n)) == Some(n as real)
  {
    var s := NatToString(n);
    assert TrimStart(s) == s;
    UnsignedDecimalOfDigits(s);
    DigitsValueOfNatToString(n);
  }

  /** The two digits after the point of `CentsString(c)`. */
  function CentsDigits(c: nat): (f: string)
    ensures AllDigits(f) && |f| == 2
  {
    [DigitChar((c % 100) / 10), DigitChar((c % 100) % 10)]
  }

  /** The two digits after the point are worth the cents below a whole unit. */
  lemma CentsDigitsValue(c: nat)
    ensures (c / 100) as real + FractionValue(CentsDigits(c)) == c as real / 100.0
  {
    var t := c % 100;
    var f := CentsDigits(c);
    assert f[1..][1..] == [];
    assert FractionValue(f[1..]) == (t % 10) as real / 10.0;
    assert FractionValue(f) == ((t / 10) as real + (t % 10) as real / 10.0) / 10.0;
    assert t == (t / 10) * 10 + t % 10;
    assert c == (c / 100) * 100 + t;
  }

  /** The printed form of an amount of cents starts with a digit and reads back as that amount. */
  lemma UnsignedCentsString(c: nat)
    ensures CentsString(c) != [] && IsDigit(CentsString(c)[0])
    ensures UnsignedDecimal(CentsString(c)) == Some(c as real / 100.0)
  {
    var units := NatToString(c / 100);
    assert CentsString(c)[0] == units[0];
    CentsStringReads(c);
  }

  /** The printed form of an amount of cents reads back as that amount. */
  lemma CentsStringReads(c: nat)
    ensures UnsignedDecimal(CentsString(c)) == Some(c as real / 100.0)
  {
    var units := NatToString(c / 100);
    UnsignedDecimalOfPointNumber(units, CentsDigits(c));
    DigitsValueOfNatToString(c / 100);
    CentsDigitsValue(c);
  }

  /** `parseFloat` reads back exactly the amount `toFixed(2)` printed. */
  lemma ParseCentsString(c: nat)
    ensures JsParseFloat(CentsString(c)) == Some(c as real / 100.0)
  {
    UnsignedCentsString(c);
    ParseDigitLed(CentsString(c));
  }

  /** Text that starts with a digit is read as an unsigned decimal, with or without a minus sign before it. */
  lemma ParseDigitLed(u: string)
    ensures u != [] && IsDigit(u[0]) ==> JsParseFloat(u) == UnsignedDecimal(u)
  {
    if u != [] && IsDigit(u[0]) {
      assert TrimStart(u) == u;
    }
  }

  /** With a minus sign before it, text that starts with a digit is read as the negated unsigned decimal. */
  lemma ParseMinusDigitLed(u: string)
    ensures u != [] && IsDigit(u[0]) ==> JsParseFloat(['-'] + u) == Negate(UnsignedDecimal(u))
  {
    if u != [] && IsDigit(u[0]) {
      var s := ['-'] + u;
      assert TrimStart(s) == s;
      assert s[1..] == u;
    }
  }

  /** A minus sign before a printed amount negates what `parseFloat` reads. */
  lemma ParseNegatedCentsString(c: nat)
    ensures JsParseFloat(['-'] + CentsString(c)) == Some(-(c as real / 100.0))
  {
    UnsignedCentsString(c);
    ParseMinusDigitLed(CentsString(c));
    assert Negate(Some(c as real / 100.0)) == Some(-(c as real / 100.0));
  }

  /** `parseFloat(x.toFixed(2))` for a non-negative `x`. */
  lemma ParseFixedStringNonNegative(x: real)
    requires x >= 0.0
    ensures JsParseFloat(FixedString(x)) == Some(RoundCents(x) as real / 100.0)
  {
    RoundCentsNonNegative(x);
    ParseFixedCents(x, RoundCents(x));
  }

  /** For a non-negative amount, rounding to cents is `CentsOf`. */
  lemma RoundCentsNonNegative(x: real)
    ensures x >= 0.0 ==> RoundCents(x) == CentsOf(x)
  {
  }

  /** `toFixed(2)` of a non-negative amount reads back as its cents. */
  lemma ParseFixedCents(x: real, c: int)
    ensures x >= 0.0 && c == CentsOf(x) ==> JsParseFloat(FixedString(x)) == Some(c as real / 100.0)
  {
    if x >= 0.0 && c == CentsOf(x) {
      ParseCentsString(c);
    }
  }

  /** `parseFloat(x.toFixed(2))` for a negative `x`. */
  lemma ParseFixedStringNegative(x: real)
    requires x < 0.0
    ensures JsParseFloat(FixedString(x)) == Some(RoundCents(x) as real / 100.0)
  {
    ParseFixedNegativeRounded(x, RoundCents(x));
  }

  /** `toFixed(2)` of a negative amount reads back as its rounded cents. */
  lemma ParseFixedNegativeRounded(x: real, r: int)
    ensures x < 0.0 && r == RoundCents(x) ==> JsParseFloat(FixedString(x)) == Some(r as real / 100.0)
  {
    if x < 0.0 && r == RoundCents(x) {
      var c := CentsOf(-x);
      RoundCentsNegative(x, r, c);
      ParseFixedNegativeCents(x, c);
      NegatedCents(JsParseFloat(FixedString(x)), c, r);
    }
  }

  /** Minus `c` cents is `r` cents when `r` is `-c`. */
  lemma NegatedCents(o: Option<real>, c: nat, r: int)
    ensures o == Some(-(c as real / 100.0)) && r == -(c as int) ==> o == Some(r as real / 100.0)
  {
  }

  /** For a negative amount, rounding to cents is minus `CentsOf` of its magnitude. */
  lemma RoundCentsNegative(x: real, r: int, c: nat)
    ensures x < 0.0 && r == RoundCents(x) && c == CentsOf(-x) ==> r == -(c as int)
  {
  }

  /** `toFixed(2)` of a negative amount reads back as minus the cents of its magnitude. */
  lemma ParseFixedNegativeCents(x: real, c: nat)
    ensures x < 0.0 && c == CentsOf(-x) ==> JsParseFloat(FixedString(x)) == Some(-(c as real / 100.0))
  {
    if x < 0.0 && c == CentsOf(-x) {
      ParseNegatedCentsString(c);
    }
  }

  /** `parseFloat(x.toFixed(2))` is `x` rounded to cents, sign included. */
  lemma ParseFixedString(x: real)
    ensures JsParseFloat(FixedString(x)) == Some(RoundCents(x) as real / 100.0)
  {
    if x < 0.0 {
      ParseFixedStringNegative(x);
    } else {
      ParseFixedStringNonNegative(x);
    }
  }

  /**
    `x.toFixed(2)` prints "0.00" exactly for the amounts in `[0, 0.005)`;
    a small negative amount prints "-0.00". The text is never "" or "0".
  */
  lemma FixedStringZero(x: real)
    ensures FixedString(x) == "0.00" <==> 0.0 <= x < 0.005
    ensures FixedString(x) != "" && FixedString(x) != "0"
  {
    var c := CentsOf(if x < 0.0 then -x else x);
    assert |CentsString(c)| >= 4;
    if x >= 0.0 {
      CentsStringZero(c);
    }
  }

  /** The printed form of an amount of cents is "0.00" exactly for no cents. */
  lemma CentsStringZero(c: nat)
    ensures CentsString(c) == "0.00" <==> c == 0
  {
    CentsStringOfZero();
    CentsStringOnlyZero(c);
  }

  lemma CentsStringOfZero()
    ensures CentsString(0) == "0.00"
  {
    assert CentsString(0) == "0" + "." + "00";
  }

  /** Two amounts of cents printed alike are equal; here, against no cents. */
  lemma CentsStringOnlyZero(c: nat)
    ensures CentsString(c) == CentsString(0) ==> c == 0
  {
    if CentsString(c) == CentsString(0) {
      CentsStringReads(c);
      CentsStringReads(0);
    }
  }

  /** The quotient `Math.ceil` rounds: `q - 1 < a / b <= q` for a positive divisor. */
  lemma CeilDivIsCeiling(a: nat, b: int)
    requires b > 0
    ensures (CeilDiv(a, b) - 1) as real < a as real / b as real <= CeilDiv(a, b) as real
  {
    var q := CeilDiv(a, b);
    assert ((q - 1) * b) as real < a as real;
    assert (q - 1) as real * b as real < a as real;
    assert a as real <= q as real * b as real;
  }
}

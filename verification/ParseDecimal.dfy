/** Parsing decimal strings to 32.32 fixed point, and how the result relates to the number the
    string denotes. */
module ParseDecimal {
  import opened Decimal
  import opened Arithmetic

  /** Fractional digits that are used. */
  const DIGITS: nat := 10

  function Pow10(k: nat): (p: nat)
    ensures p > 0
  {
    if k == 0 then 1 else 10 * Pow10(k - 1)
  }

  predicate IsDigit(c: char) { '0' <= c <= '9' }

  function Digit(c: char): nat
    requires IsDigit(c)
  {
    c as int - '0' as int
  }

  ghost predicate AllDigits(s: string) { forall i :: 0 <= i < |s| ==> IsDigit(s[i]) }

  /** The number a string of digits denotes. */
  ghost function Value(s: string): nat
    requires AllDigits(s)
  {
    if s == [] then 0 else 10 * Value(s[..|s| - 1]) + Digit(s[|s| - 1])
  }

  // ----- the shape of the input -----

  /** Sign, integer digits and all fractional digits, as the parser takes a string apart. Text
      after them is ignored. */
  datatype Numeral = Numeral(negative: bool, whole: string, frac: string)

  ghost predicate WellFormed(n: Numeral) { AllDigits(n.whole) && AllDigits(n.frac) }

  function Blanks(s: string): (k: nat)
    ensures k <= |s|
  {
    if s != [] && (s[0] == ' ' || s[0] == '\t') then 1 + Blanks(s[1..]) else 0
  }

  function DigitRun(s: string): (k: nat)
    ensures k <= |s| && forall i :: 0 <= i < k ==> IsDigit(s[i])
    ensures k < |s| ==> !IsDigit(s[k])
  {
    if s != [] && IsDigit(s[0]) then 1 + DigitRun(s[1..]) else 0
  }

  function SignLength(s: string): nat { if s != [] && (s[0] == '-' || s[0] == '+') then 1 else 0 }

  ghost function WholeOf(u: string): (w: string)
    ensures AllDigits(w)
  {
    u[..DigitRun(u)]
  }

  ghost function AfterPoint(v: string): (f: string)
    ensures AllDigits(f)
  {
    if v != [] && v[0] == '.' then v[1..][..DigitRun(v[1..])] else ""
  }

  ghost function FracOf(u: string): (f: string)
    ensures AllDigits(f)
  {
    AfterPoint(u[DigitRun(u)..])
  }

  ghost function Scan(s: string): (n: Numeral)
    ensures WellFormed(n)
  {
    var t := s[Blanks(s)..];
    var u := t[SignLength(t)..];
    Numeral(t != [] && t[0] == '-', WholeOf(u), FracOf(u))
  }

  // ----- what the code computes, and a closed form -----

  function Scaled(part: nat, pow10: nat): nat
    requires pow10 > 0
  {
    part * SCALE / pow10
  }

  /** mantissa * 2^32 + frac_part * 2^32 / 10^frac_digits, with at most ten digits used. */
  ghost function Magnitude(n: Numeral): nat
    requires WellFormed(n)
  {
    var d := Min(DIGITS, |n.frac|);
    Value(n.whole) * SCALE + Scaled(Value(n.frac[..d]), Pow10(d))
  }

  ghost function Raw(n: Numeral): int
    requires WellFormed(n)
  {
    var m: int := Magnitude(n);
    if n.negative then -m else m
  }

  /** The exact magnitude is Numerator(n) / Denominator(n). */
  ghost function Denominator(n: Numeral): nat { Pow10(|n.frac|) }

  ghost function Numerator(n: Numeral): nat
    requires WellFormed(n)
  {
    Value(n.whole) * Denominator(n) + Value(n.frac)
  }

  lemma {:induction false} PowSum(a: nat, b: nat)
    ensures Pow10(a + b) == Pow10(a) * Pow10(b)
  {
    if a > 0 {
      PowSum(a - 1, b);
      assert 10 * Pow10(a - 1) * Pow10(b) == 10 * (Pow10(a - 1) * Pow10(b));
    }
  }

  /** Cutting digits off the end is dividing by a power of ten. */
  lemma {:induction false} PrefixIsQuotient(s: string, k: nat)
    requires AllDigits(s) && k <= |s|
    ensures Value(s) / Pow10(|s| - k) == Value(s[..k])
    decreases |s|
  {
    if k == |s| {
      assert s[..k] == s;
    } else {
      var t := s[..|s| - 1];
      PrefixIsQuotient(t, k);
      assert t[..k] == s[..k];
      DivDiv(Value(s), 10, Pow10(|t| - k));
      DivModUnique(Value(s), 10, Value(t), Digit(s[|s| - 1]));
    }
  }

  /** The ten-digit truncation of the exact magnitude, in units of 10^-10. */
  ghost function Truncated(n: Numeral): nat
    requires WellFormed(n)
  {
    Numerator(n) * Pow10(DIGITS) / Denominator(n)
  }

  /** The fractional digits used, padded to ten. */
  lemma TruncatedIs(n: Numeral)
    requires WellFormed(n)
    ensures var d := Min(DIGITS, |n.frac|);
      Truncated(n) == Value(n.whole) * Pow10(DIGITS) + Value(n.frac[..d]) * Pow10(DIGITS - d)
  {
    var D, T, F := Denominator(n), Pow10(DIGITS), Value(n.frac);
    var d := Min(DIGITS, |n.frac|);
    SplitNumerator(Value(n.whole), D, F, T);
    DivAddMultiple(Value(n.whole) * T, D, F * T);
    FractionCut(n.frac);
  }

  /** The fraction to ten digits: padded if it has fewer, cut if it has more. */
  lemma {:induction false} FractionCut(frac: string)
    requires AllDigits(frac)
    ensures var d := Min(DIGITS, |frac|);
      Value(frac) * Pow10(DIGITS) / Pow10(|frac|) == Value(frac[..d]) * Pow10(DIGITS - d)
  {
    var F, d := Value(frac), Min(DIGITS, |frac|);
    if |frac| <= DIGITS {
      PowSum(DIGITS - d, d);
      assert frac[..d] == frac;
      Reassociate(F, Pow10(DIGITS - d), Pow10(d));
      DivAddMultiple(F * Pow10(DIGITS - d), Pow10(d), 0);
    } else {
      PowSum(|frac| - DIGITS, DIGITS);
      DivScale(F, Pow10(|frac| - DIGITS), Pow10(DIGITS));
      PrefixIsQuotient(frac, DIGITS);
    }
  }

  lemma SplitNumerator(i: int, d: int, f: int, t: int)
    ensures (i * d + f) * t == (i * t) * d + f * t
  {
    assert (i * d + f) * t == i * d * t + f * t;
    assert i * d * t == i * t * d;
  }

  lemma Reassociate(a: int, b: int, c: int)
    ensures a * (b * c) == a * b * c
  {
  }

  /** The code's sum of two terms is one truncation after another. */
  lemma MagnitudeIs(n: Numeral)
    requires WellFormed(n)
    ensures Magnitude(n) == Truncated(n) * SCALE / Pow10(DIGITS)
  {
    var d := Min(DIGITS, |n.frac|);
    var f, T, E := Value(n.frac[..d]), Pow10(DIGITS), Pow10(DIGITS - d);
    TruncatedIs(n);
    SplitNumerator(Value(n.whole), T, f * E, SCALE);
    DivAddMultiple(Value(n.whole) * SCALE, T, f * E * SCALE);
    PowSum(d, DIGITS - d);
    assert f * E * SCALE == f * SCALE * E by { Reassociate(f, E, SCALE); Reassociate(f, SCALE, E); }
    DivScale(f * SCALE, Pow10(d), E);
  }

  // ----- accuracy, order and sign -----

  lemma QuotientBounds(x: nat, d: nat)
    requires d > 0
    ensures x / d * d <= x < x / d * d + d
  {
  }

  lemma Cancel(a: int, b: int, t: int)
    requires a * t <= b * t && t > 0
    ensures a <= b
  {
    if b < a { MulMonotone(b + 1, a, t); }
  }

  lemma Swap(a: int, b: int, c: int)
    ensures a * b * c == a * c * b
  {
    assert a * b * c == a * (b * c) && a * c * b == a * (c * b);
  }

  lemma TenDigits()
    ensures Pow10(DIGITS) == 10_000_000_000
  {
    assert Pow10(5) == 100_000 && Pow10(10) == 100_000 * Pow10(5);
  }

  /** Two truncations in a row, each taken to the common denominator. */
  lemma ErrorAlgebra(x: int, d: int, g: int, m: int, t: int, s: int)
    requires d > 0 && t > 0 && s > 0
    requires g * d <= x * t < g * d + d
    requires m * t <= g * s < m * t + t
    ensures m * d <= x * s
    ensures x * s * t - m * d * t < t * d + s * d
  {
    Swap(m, t, d);
    Swap(g, s, d);
    Swap(x, t, s);
    MulMonotone(m * t, g * s, d);
    MulMonotone(g * d, x * t, s);
    Cancel(m * d, x * s, t);
    MulMonotone(x * t + 1, g * d + d, s);
    MulMonotone(g * s + 1, m * t + t, d);
    Distribute(x * t, 1, s);
    Distribute(g * d, d, s);
    Distribute(g * s, 1, d);
    Distribute(m * t, t, d);
  }

  lemma Distribute(a: int, b: int, c: int)
    ensures (a + b) * c == a * c + b * c
  {
  }

  /** The magnitude never exceeds the exact value times 2^32, and falls short of it by less than
      one unit plus 2^32 / 10^10, for every well-formed numeral. */
  lemma ErrorBound(n: Numeral)
    requires WellFormed(n)
    ensures Magnitude(n) * Denominator(n) <= Numerator(n) * SCALE
    ensures (Numerator(n) * 0x1_0000_0000 - Magnitude(n) * Denominator(n)) * 10_000_000_000
      < (10_000_000_000 + 0x1_0000_0000) * Denominator(n)
  {
    var T := Pow10(DIGITS);
    TenDigits();
    MagnitudeIs(n);
    QuotientBounds(Numerator(n) * T, Denominator(n));
    QuotientBounds(Truncated(n) * SCALE, T);
    ErrorAlgebra(Numerator(n), Denominator(n), Truncated(n), Magnitude(n), T, SCALE);
    Distribute(Numerator(n) * SCALE, -(Magnitude(n) * Denominator(n)), T);
    Distribute(T, SCALE, Denominator(n));
  }

  /** Truncation respects the order of fractions. */
  lemma TruncationMonotone(x: nat, d: nat, y: nat, e: nat, t: nat)
    requires d > 0 && e > 0 && x * e <= y * d
    ensures x * t / d <= y * t / e
  {
    var g, h := x * t / d, y * t / e;
    QuotientBounds(x * t, d);
    QuotientBounds(y * t, e);
    if h < g {
      MulMonotone(h + 1, g, e * d);
      MulMonotone(g * d, x * t, e);
      MulMonotone(x * e, y * d, t);
      MulMonotone(y * t + 1, h * e + e, d);
      OrderAlgebra(x, y, d, e, g, h, t);
      assert false;
    }
  }

  lemma OrderAlgebra(x: int, y: int, d: int, e: int, g: int, h: int, t: int)
    ensures g * d * e == g * (e * d) && x * t * e == x * e * t && y * d * t == y * t * d
    ensures (h * e + e) * d == (h + 1) * (e * d) && (y * t + 1) * d == y * t * d + d
  {
  }

  /** Parsing is monotone in the number denoted, across signs. */
  lemma Monotone(a: Numeral, b: Numeral)
    requires WellFormed(a) && WellFormed(b)
    requires var x: int := Numerator(a); var y: int := Numerator(b);
      (if a.negative then -x else x) * Denominator(b) <= (if b.negative then -y else y) * Denominator(a)
    ensures Raw(a) <= Raw(b)
  {
    var x: int, y: int := Numerator(a), Numerator(b);
    if !a.negative && !b.negative {
      MagnitudeMonotone(a, b);
    } else if a.negative && b.negative {
      NegateProduct(x, Denominator(b));
      NegateProduct(y, Denominator(a));
      MagnitudeMonotone(b, a);
    } else if b.negative {
      // a is not negative and b is not positive, so both are zero
      NegateProduct(y, Denominator(a));
      NonNegative(x, Denominator(b));
      NonNegative(y, Denominator(a));
      MagnitudeMonotone(a, Zero());
      MagnitudeMonotone(b, Zero());
      assert Magnitude(Zero()) == 0;
    }
  }

  function Zero(): Numeral { Numeral(false, "", "") }

  lemma NonNegative(x: int, y: int)
    requires x >= 0 && y > 0
    ensures x * y >= 0 && (x * y == 0 ==> x == 0)
  {
  }

  lemma MagnitudeMonotone(a: Numeral, b: Numeral)
    requires WellFormed(a) && WellFormed(b) && Numerator(a) * Denominator(b) <= Numerator(b) * Denominator(a)
    ensures Magnitude(a) <= Magnitude(b)
  {
    MagnitudeIs(a);
    MagnitudeIs(b);
    TruncationMonotone(Numerator(a), Denominator(a), Numerator(b), Denominator(b), Pow10(DIGITS));
    MulMonotone(Truncated(a), Truncated(b), SCALE);
    DivMonotone(Truncated(a) * SCALE, Truncated(b) * SCALE, Pow10(DIGITS));
  }

  lemma Tenfold(x: int, d: int)
    ensures x * (10 * d) == 10 * (x * d) && 10 * x * d == 10 * (x * d)
  {
  }

  /** Only the number matters, not how it is written; trailing zeros in particular. */
  lemma TrailingZero(n: Numeral)
    requires WellFormed(n)
    ensures Raw(n.(frac := n.frac + "0")) == Raw(n)
  {
    var z := n.(frac := n.frac + "0");
    assert z.frac[..|n.frac|] == n.frac && z.frac[|n.frac|] == '0';
    assert Value(z.frac) == 10 * Value(n.frac) && Denominator(z) == 10 * Denominator(n);
    Tenfold(Value(n.whole), Denominator(n));
    Tenfold(Numerator(n), Denominator(n));
    MagnitudeMonotone(n, z);
    MagnitudeMonotone(z, n);
  }

  /** Flipping the sign flips the result. */
  lemma OddInSign(n: Numeral)
    requires WellFormed(n)
    ensures Raw(n.(negative := !n.negative)) == -Raw(n)
  {
  }

  // ----- the parser -----

  lemma {:induction false} ValueBelow(s: string)
    requires AllDigits(s)
    ensures Value(s) < Pow10(|s|)
  {
    if s != [] { ValueBelow(s[..|s| - 1]); }
  }

  /** What the fractional digits used add to the magnitude. */
  ghost function FracUnits(n: Numeral): (u: nat)
    requires WellFormed(n)
    ensures Magnitude(n) == Value(n.whole) * SCALE + u
  {
    var d := Min(DIGITS, |n.frac|);
    Scaled(Value(n.frac[..d]), Pow10(d))
  }

  lemma FracBelowOne(n: Numeral)
    requires WellFormed(n)
    ensures FracUnits(n) < SCALE
  {
    var d := Min(DIGITS, |n.frac|);
    var f, p := Value(n.frac[..d]), Pow10(d);
    ValueBelow(n.frac[..d]);
    MulMonotone(f + 1, p, SCALE);
    Distribute(f, 1, SCALE);
    QuotientBounds(f * SCALE, p);
    if f * SCALE / p >= SCALE { MulMonotone(SCALE, f * SCALE / p, p); }
  }

  /** An integer part that fits its 64-bit accumulator fits at every digit on the way, and the sum
      of the two terms fits 128 bits. */
  lemma {:induction false} AccumulatorsFit(n: Numeral, k: nat)
    requires WellFormed(n) && k <= |n.whole| && Value(n.whole) < 0x8000_0000_0000_0000
    ensures Value(n.whole[..k]) <= Value(n.whole)
    ensures Magnitude(n) < 0x8000_0000_0000_0000 * SCALE
  {
    FracBelowOne(n);
    PrefixBelow(n.whole, k);
  }

  lemma {:induction false} PrefixBelow(s: string, k: nat)
    requires AllDigits(s) && k <= |s|
    ensures Value(s[..k]) <= Value(s)
    decreases |s|
  {
    if k < |s| {
      var t := s[..|s| - 1];
      PrefixBelow(t, k);
      assert t[..k] == s[..k];
    } else {
      assert s[..k] == s;
    }
  }

  predicate Fits(x: int) { -0x8000_0000_0000_0000 <= x < 0x8000_0000_0000_0000 }

  /** The raw value fits 64 bits exactly when the integer part is within the Decimal range; the
      one number more is minus 2^31 with no fraction that counts. */
  lemma FitsExactly(n: Numeral)
    requires WellFormed(n)
    ensures Fits(Raw(n)) <==>
      Value(n.whole) < 0x8000_0000 || (n.negative && Value(n.whole) == 0x8000_0000 && FracUnits(n) == 0)
  {
    FracBelowOne(n);
  }

  /** The conversion to int64_t keeps the low 64 bits. */
  function Wrap64(x: int): (r: int)
    ensures Fits(r) && (r == x <==> Fits(x)) && (x - r) % 0x1_0000_0000_0000_0000 == 0
  {
    (x + 0x8000_0000_0000_0000) % 0x1_0000_0000_0000_0000 - 0x8000_0000_0000_0000
  }

  method SkipBlanks(s: string) returns (p: nat)
    ensures p == Blanks(s)
  {
    p := 0;
    while p < |s| && (s[p] == ' ' || s[p] == '\t')
      invariant p <= |s| && p + Blanks(s[p..]) == Blanks(s)
    {
      assert s[p..][1..] == s[p + 1..];
      p := p + 1;
    }
  }

  lemma {:induction false} NextDigit(t: string, k: nat)
    requires k < |t| && IsDigit(t[k]) && AllDigits(t[..k])
    ensures AllDigits(t[..k + 1]) && Value(t[..k + 1]) == 10 * Value(t[..k]) + Digit(t[k])
    ensures DigitRun(t[k..]) == 1 + DigitRun(t[k + 1..])
  {
    assert t[..k + 1][..k] == t[..k];
    assert t[k..][1..] == t[k + 1..];
  }

  /** The digit loops: at most limit digits from a position on. */
  method Digits(s: string, from: nat, limit: nat) returns (value: nat, to: nat)
    requires from <= |s|
    ensures from <= to <= |s| && to - from == Min(limit, DigitRun(s[from..]))
    ensures AllDigits(s[from..][..to - from]) && value == Value(s[from..][..to - from])
  {
    ghost var t := s[from..];
    value, to := 0, from;
    while to < |s| && IsDigit(s[to]) && to - from < limit
      invariant from <= to <= |s| && to - from <= limit
      invariant AllDigits(t[..to - from]) && value == Value(t[..to - from])
      invariant to - from + DigitRun(t[to - from..]) == DigitRun(t)
    {
      NextDigit(t, to - from);
      value := value * 10 + Digit(s[to]);
      to := to + 1;
    }
  }

  method PowerOfTen(k: nat) returns (p: nat)
    ensures p == Pow10(k)
  {
    p := 1;
    for i := 0 to k
      invariant p == Pow10(i)
    {
      p := p * 10;
    }
  }

  method ReadFraction(s: string, q: nat) returns (part: nat, digits: nat)
    requires q <= |s|
    ensures digits == Min(DIGITS, |AfterPoint(s[q..])|) && part == Value(AfterPoint(s[q..])[..digits])
  {
    part, digits := 0, 0;
    if q < |s| && s[q] == '.' {
      var r;
      part, r := Digits(s, q + 1, DIGITS);
      digits := r - (q + 1);
      assert s[q + 1..] == s[q..][1..];
      CutRun(s[q..][1..], digits);
    }
  }

  lemma {:induction false} CutRun(w: string, k: nat)
    requires k <= DigitRun(w)
    ensures w[..DigitRun(w)][..k] == w[..k]
  {
  }

  /** Everything after the sign. */
  method ReadMagnitude(s: string, p: nat) returns (magnitude: int)
    requires p <= |s|
    ensures magnitude == Magnitude(Numeral(false, WholeOf(s[p..]), FracOf(s[p..])))
  {
    var mantissa, q := Digits(s, p, |s|);
    AfterRun(s, p, q);
    var fracPart, fracDigits := ReadFraction(s, q);
    var pow10 := PowerOfTen(fracDigits);
    magnitude := mantissa * SCALE + fracPart * SCALE / pow10;
    Combined(Numeral(false, WholeOf(s[p..]), FracOf(s[p..])), mantissa, fracPart, fracDigits);
  }

  lemma AfterRun(s: string, p: nat, q: nat)
    requires p <= q <= |s| && q - p == Min(|s|, DigitRun(s[p..]))
    ensures q - p == DigitRun(s[p..]) && FracOf(s[p..]) == AfterPoint(s[q..])
  {
    assert s[p..][q - p..] == s[q..];
  }

  lemma {:induction false} Combined(n: Numeral, mantissa: nat, part: nat, digits: nat)
    requires WellFormed(n) && mantissa == Value(n.whole)
    requires digits == Min(DIGITS, |n.frac|) && part == Value(n.frac[..digits])
    ensures Magnitude(n) == mantissa * SCALE + part * SCALE / Pow10(digits)
  {
  }

  /** The 128-bit value before the conversion. */
  method ReadWide(s: string) returns (raw: int)
    ensures raw == Raw(Scan(s))
  {
    if |s| == 0 {
      return 0;
    }
    var p := SkipBlanks(s);
    if p >= |s| {
      return 0;
    }
    ghost var t := s[p..];
    var negative := false;
    if s[p] == '-' {
      negative := true;
      p := p + 1;
    } else if s[p] == '+' {
      p := p + 1;
    }
    assert s[p..] == t[SignLength(t)..];
    raw := ReadMagnitude(s, p);
    if negative {
      raw := -raw;
    }
  }

  /** parseDecimal: a string without digits gives zero, text after the number is ignored. The
      integer part must not overflow its 64-bit accumulator; whatever the conversion at the end
      then loses is lost exactly when the raw value does not fit. */
  method Parse(s: string) returns (raw: int)
    requires Value(Scan(s).whole) < 0x8000_0000_0000_0000
    ensures Fits(raw) && raw == Wrap64(Raw(Scan(s)))
    ensures raw == Raw(Scan(s)) <==> Fits(Raw(Scan(s)))
  {
    var wide := ReadWide(s);
    raw := Wrap64(wide);
  }

  // ----- numbers as people write them -----

  const NUMERALS: string := "0123456789"

  function Render(n: nat): string {
    if n < 10 then [NUMERALS[n]] else Render(n / 10) + [NUMERALS[n % 10]]
  }

  lemma NumeralDigit(d: nat)
    requires d < 10
    ensures IsDigit(NUMERALS[d]) && Digit(NUMERALS[d]) == d
  {
    assert NUMERALS[0] == '0' && NUMERALS[1] == '1' && NUMERALS[2] == '2' && NUMERALS[3] == '3' && NUMERALS[4] == '4';
    assert NUMERALS[5] == '5' && NUMERALS[6] == '6' && NUMERALS[7] == '7' && NUMERALS[8] == '8' && NUMERALS[9] == '9';
  }

  /** The digits of a rendered number denote it. */
  lemma {:induction false} RenderDenotes(n: nat)
    ensures AllDigits(Render(n)) && Render(n) != [] && Value(Render(n)) == n
  {
    NumeralDigit(n % 10);
    var last := [NUMERALS[n % 10]];
    if n < 10 {
      assert last[..0] == [];
    } else {
      RenderDenotes(n / 10);
      assert (Render(n / 10) + last)[..|Render(n / 10)|] == Render(n / 10);
    }
  }

  lemma {:induction false} RunIs(s: string, rest: string)
    requires AllDigits(s) && (rest == [] || !IsDigit(rest[0]))
    ensures DigitRun(s + rest) == |s| && (s + rest)[..|s|] == s && (s + rest)[|s|..] == rest
  {
    assert forall i :: 0 <= i < |s| ==> (s + rest)[i] == s[i];
    assert rest != [] ==> (s + rest)[|s|] == rest[0];
  }

  /** A sign, a whole part and perhaps a point and a fraction, as text. */
  function Unsigned(whole: string, frac: string): string { whole + if frac == "" then "" else "." + frac }

  function Written(negative: bool, whole: string, frac: string): string {
    if negative then "-" + Unsigned(whole, frac) else Unsigned(whole, frac)
  }

  lemma {:induction false} PartsOf(whole: string, frac: string)
    requires AllDigits(whole) && AllDigits(frac)
    ensures WholeOf(Unsigned(whole, frac)) == whole && FracOf(Unsigned(whole, frac)) == frac
  {
    var rest := if frac == "" then "" else "." + frac;
    RunIs(whole, rest);
    if frac != "" {
      assert rest[1..] == frac && frac + "" == frac;
      RunIs(frac, "");
    }
  }

  lemma {:induction false} SignOf(negative: bool, whole: string, frac: string)
    requires AllDigits(whole) && whole != []
    ensures var t := Written(negative, whole, frac);
      && t != [] && Blanks(t) == 0 && (t[0] == '-' <==> negative) && t[SignLength(t)..] == Unsigned(whole, frac)
  {
    var u := Unsigned(whole, frac);
    assert u[0] == whole[0] && IsDigit(u[0]);
    assert ("-" + u)[1..] == u;
  }

  /** Such text scans to exactly those parts. */
  lemma {:induction false} ScanWritten(negative: bool, whole: string, frac: string)
    requires AllDigits(whole) && whole != [] && AllDigits(frac)
    ensures Scan(Written(negative, whole, frac)) == Numeral(negative, whole, frac)
  {
    PartsOf(whole, frac);
    SignOf(negative, whole, frac);
    var t := Written(negative, whole, frac);
    assert t[0..] == t;
  }

  lemma {:induction false} MagnitudeOf(n: Numeral)
    requires WellFormed(n) && |n.frac| <= 10
    ensures Magnitude(n) == Value(n.whole) * SCALE + Value(n.frac) * SCALE / Pow10(|n.frac|)
  {
    assert n.frac[..|n.frac|] == n.frac;
  }

  /** A number written in decimal, with or without a minus sign, and with any fraction of up to ten
      digits, parses to that number: the whole part exactly, the fraction truncated to 2^-32. */
  lemma {:induction false} WrittenParses(negative: bool, w: nat, frac: string)
    requires AllDigits(frac) && |frac| <= 10
    ensures var m := w * SCALE + Value(frac) * SCALE / Pow10(|frac|);
      Raw(Scan(Written(negative, Render(w), frac))) == if negative then -m else m
  {
    RenderDenotes(w);
    ScanWritten(negative, Render(w), frac);
    MagnitudeOf(Numeral(negative, Render(w), frac));
  }

  /** Blanks before a number change nothing. */
  lemma {:induction false} BlankFirst(s: string, c: char)
    requires c == ' ' || c == '\t'
    ensures Scan([c] + s) == Scan(s)
  {
    var t := [c] + s;
    assert t[1..] == s;
    assert Blanks(t) == 1 + Blanks(s);
    assert t[1 + Blanks(s)..] == s[Blanks(s)..];
  }

  /** Nor does a plus sign. */
  lemma {:induction false} PlusSign(u: string)
    requires u != [] && IsDigit(u[0])
    ensures Scan("+" + u) == Scan(u)
  {
    var t := "+" + u;
    assert t[0] == '+' && t[1..] == u && t[0..] == t && u[0..] == u;
    assert Blanks(t) == 0 && SignLength(t) == 1;
    assert Blanks(u) == 0 && SignLength(u) == 0;
  }
}

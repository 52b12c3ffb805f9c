/** The 32.32 fixed-point Decimal as raw integers. Sums, differences and comparisons are exact;
    the library that multiplies and divides is outside the repository, so its rounding is a
    parameter: any monotone rounding within one unit of the last place. */
module Decimal {
  const SCALE: int := 0x1_0000_0000

  /** round(p): a double-scale product back to single scale. quot(n, d): n / d rounded. */
  datatype Arith = Arith(round: int -> int, quot: (int, int) -> int)

  ghost predicate Rounds(a: Arith) {
    && (forall p :: -SCALE < a.round(p) * SCALE - p < SCALE)
    && (forall p, q :: p <= q ==> a.round(p) <= a.round(q))
    && (forall n, d :: d > 0 ==> -d < a.quot(n, d) * d - n < d)
  }

  function Mul(a: Arith, x: int, y: int): int { a.round(x * y) }

  function Div(a: Arith, x: int, y: int): int { a.quot(x * SCALE, y) }

  function Abs(x: int): nat { if x < 0 then -x else x }

  /** Rounding down is one such arithmetic, so the parameter ranges over something. */
  function Floor(): Arith {
    Arith(p => p / SCALE, (n: int, d: int) => if d == 0 then 0 else n / d)
  }

  lemma FloorRounds()
    ensures Rounds(Floor())
  {
    var f := Floor();
    assert forall p :: f.round(p) == p / SCALE;
    forall n, d | d > 0
      ensures -d < f.quot(n, d) * d - n < d
    {
      assert n == n / d * d + n % d;
    }
  }

  lemma RoundBound(a: Arith, p: int)
    requires Rounds(a)
    ensures -SCALE < a.round(p) * SCALE - p < SCALE
  {
  }

  lemma QuotBound(a: Arith, n: int, d: int)
    requires Rounds(a) && d > 0
    ensures -d < d * a.quot(n, d) - n < d
  {
    assert a.quot(n, d) * d == d * a.quot(n, d);
  }

  lemma RoundSign(a: Arith, p: int)
    requires Rounds(a)
    ensures p >= 0 ==> a.round(p) >= 0
  {
    assert -SCALE < a.round(p) * SCALE - p;
  }

  lemma QuotSign(a: Arith, n: int, d: int)
    requires Rounds(a) && d > 0 && n >= 0
    ensures a.quot(n, d) >= 0
  {
    var q := a.quot(n, d);
    assert -d < q * d - n;
    assert q < 0 ==> q * d <= -d;
  }
}

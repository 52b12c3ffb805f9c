/** The few facts about products, quotients and remainders that the other modules use. */
module Arithmetic {

  function Min(a: nat, b: nat): nat { if a < b then a else b }

  lemma NegateProduct(x: int, y: int)
    ensures (-x) * y == -(x * y)
  {
  }

  lemma OneMore(n: nat, m: int)
    ensures (n + 1) * m == n * m + m
  {
  }

  lemma MulMonotone(a: int, b: int, n: int)
    requires a <= b && 0 <= n
    ensures a * n <= b * n
  {
    assert (b - a) * n >= 0;
    assert b * n == a * n + (b - a) * n;
  }

  /** Quotient and remainder are the only pair with a == q * n + r and 0 <= r < n. */
  lemma DivModUnique(a: int, n: int, q: int, r: int)
    requires n > 0 && a == q * n + r && 0 <= r < n
    ensures a / n == q && a % n == r
  {
    var q', r' := a / n, a % n;
    assert a == n * q' + r';
    if q < q' {
      MulMonotone(q + 1, q', n);
      assert false;
    } else if q > q' {
      MulMonotone(q' + 1, q, n);
      assert false;
    }
  }

  lemma DivMonotone(a: int, b: int, n: int)
    requires a <= b && n > 0
    ensures a / n <= b / n
  {
    if b / n < a / n {
      MulMonotone(b / n + 1, a / n, n);
      assert false;
    }
  }

  lemma ModAddOnce(t: nat, n: nat)
    requires n > 0
    ensures (t + n) % n == t % n
  {
    assert t + n == (t / n + 1) * n + t % n;
    DivModUnique(t + n, n, t / n + 1, t % n);
  }

  lemma DivScale(a: int, b: int, c: int)
    requires b > 0 && c > 0
    ensures b * c > 0 && (a * c) / (b * c) == a / b
  {
    var q, r := a / b, a % b;
    MulMonotone(1, b, c);
    assert (q * b + r) * c == q * (b * c) + r * c by { NestedDigits(q, b, r, c, 0); assert c * b == b * c; }
    MulMonotone(0, r, c);
    MulMonotone(r, b - 1, c);
    LastMultiple(b, c);
    DivModUnique(a * c, b * c, q, r * c);
  }

  lemma NestedDigits(p: int, c: int, s: int, b: int, r: int)
    ensures (p * c + s) * b + r == p * (b * c) + (s * b + r)
  {
    assert (p * c + s) * b == p * c * b + s * b;
    assert p * c * b == p * (b * c);
  }

  lemma LastMultiple(c: int, b: int)
    ensures (c - 1) * b + b == b * c
  {
  }

  lemma DivDiv(a: int, b: int, c: int)
    requires b > 0 && c > 0
    ensures b * c > 0 && a / b / c == a / (b * c)
  {
    var q, r := a / b, a % b;
    var p, s := q / c, q % c;
    MulMonotone(1, b, c);
    NestedDigits(p, c, s, b, r);
    MulMonotone(0, s, b);
    MulMonotone(s, c - 1, b);
    LastMultiple(c, b);
    DivModUnique(a, b * c, p, s * b + r);
  }

  lemma DivAddMultiple(k: int, n: int, a: int)
    requires n > 0
    ensures (k * n + a) / n == k + a / n
  {
    var q, r := a / n, a % n;
    assert k * n + a == (k + q) * n + r by { assert (k + q) * n == k * n + q * n; }
    DivModUnique(k * n + a, n, k + q, r);
  }
}

/** Facts about products and quotients that the solver does not find by itself. */
module Arith {

  lemma Multiple(m: int, d: int)
    requires m >= 1
    ensures d >= 1 ==> m * d >= m
    ensures d <= -1 ==> m * d <= -m
  {
    if d >= 1 {
      assert m * (d - 1) >= 0;
    } else if d <= -1 {
      assert m * (-1 - d) >= 0;
    }
  }

  /** Quotient and remainder are the only ones. */
  lemma DivModUnique(v: int, m: int, q: int, r: int)
    requires m >= 1 && v == m * q + r && 0 <= r < m
    ensures v / m == q && v % m == r
  {
    var d := v / m - q;
    assert v == m * (v / m) + v % m;
    assert m * d == r - v % m;
    Multiple(m, d);
  }

  lemma DivDiv(v: int, d: int, p: int)
    requires d >= 1 && p >= 1
    ensures v / d / p == v / (d * p)
    ensures v % (d * p) == v % d + d * (v / d % p)
  {
    var w, s := v / d, v % d;
    var q, r := w / p, w % p;
    Regroup(v, d, p, w, s, q, r);
    DivModUnique(v, d * p, q, d * r + s);
  }

  lemma Distribute(a: int, b: int, c: int)
    ensures a * (b + c) == a * b + a * c
  {
  }

  lemma Associate(a: int, b: int, c: int)
    ensures a * (b * c) == a * b * c
  {
  }

  lemma Product(a: int, b: int)
    requires a >= 0 && b >= 0
    ensures a * b >= 0
  {
  }

  lemma Regroup(v: int, d: int, p: int, w: int, s: int, q: int, r: int)
    requires v == d * w + s && 0 <= s < d && w == p * q + r && 0 <= r < p
    ensures v == d * p * q + (d * r + s) && 0 <= d * r + s < d * p
  {
    Distribute(d, p * q, r);
    Associate(d, p, q);
    Product(d, r);
    Product(d, p - 1 - r);
    Distribute(d, p - 1, -r);
    Distribute(d, p, -1);
    Distribute(d, r, -r);
  }
}

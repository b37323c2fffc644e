/** Integer facts used by the index arithmetic of the table builder. */
module Arith {

  lemma MulAtLeast(d: int, t: int)
    requires d >= 1 && t > 0
    ensures d * t >= t
  {
    if d > 1 {
      MulAtLeast(d - 1, t);
      assert d * t == (d - 1) * t + t;
    }
  }

  /** Euclidean division is determined by quotient and remainder. */
  lemma DivModUnique(x: int, t: int, q: int, r: int)
    requires t > 0 && 0 <= r < t && x == q * t + r
    ensures x / t == q && x % t == r
  {
    var q', r' := x / t, x % t;
    assert x == q' * t + r';
    assert (q - q') * t == r' - r;
    if q - q' >= 1 {
      MulAtLeast(q - q', t);
      assert false;
    } else if q' - q >= 1 {
      MulAtLeast(q' - q, t);
      assert false;
    }
  }

  /** Multiplication by a nonnegative number is monotone. */
  lemma MulMono(a: int, b: int, c: int)
    requires a <= b && c >= 0
    ensures a * c <= b * c
  {
    if a < b && c > 0 {
      MulAtLeast(b - a, c);
      assert b * c - a * c == (b - a) * c;
    } else if a < b {
      assert c == 0;
    }
  }

  /** A nonnegative number below m * d has a quotient by d below m. */
  lemma DivBelow(n: int, d: int, m: int)
    requires d > 0 && 0 <= n < m * d
    ensures 0 <= n / d < m
    ensures n == n / d * d + n % d && 0 <= n % d < d
  {
    var q := n / d;
    assert n == q * d + n % d;
    if q >= m {
      MulMono(m, q, d);
      assert false;
    } else if q < 0 {
      MulMono(q, -1, d);
      assert false;
    }
  }
}

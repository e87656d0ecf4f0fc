/** Integer and real arithmetic facts the layout and colour proofs rely on. */
module Arith {

  /** A product of a factor of at least one and a positive `m` is at least `m`. */
  lemma MulAtLeast(k: int, m: int)
    requires k >= 1 && m > 0
    ensures k * m >= m
  {
    assert k * m == (k - 1) * m + m;
  }

  /** Multiplication by a non-negative factor is monotone. */
  lemma MulMonotone(a: int, b: int, m: int)
    requires a <= b && m >= 0
    ensures a * m <= b * m
  {
    assert b * m - a * m == (b - a) * m;
  }

  /** A quotient by `m` of a number below `k * m` is below `k`. */
  lemma DivBelow(a: nat, m: nat, k: nat)
    requires m > 0 && a < k * m
    ensures a / m < k
  {
    if a / m >= k {
      MulMonotone(k, a / m, m);
    }
  }

  /** Division with remainder determines quotient and remainder. */
  lemma DivModUnique(a: int, m: int, q: int, r: int)
    requires m > 0 && 0 <= r < m && a == q * m + r
    ensures a / m == q && a % m == r
  {
    var q', r' := a / m, a % m;
    assert (q - q') * m == r' - r;
    if q > q' {
      MulAtLeast(q - q', m);
    } else if q < q' {
      MulAtLeast(q' - q, m);
    }
  }

  /** Converting a product of integers to a real is the product of the converted factors. */
  lemma CastMul(q: int, m: int)
    ensures (q * m) as real == q as real * m as real
  {
  }

  /** Multiplying by a positive real keeps a strict order. */
  lemma RealMulLt(a: real, b: real, m: real)
    requires a < b && m > 0.0
    ensures a * m < b * m
  {
    assert b * m - a * m == (b - a) * m;
  }

  /** Multiplying by a positive real keeps a weak order. */
  lemma RealMulLe(a: real, b: real, m: real)
    requires a <= b && m > 0.0
    ensures a * m <= b * m
  {
    assert b * m - a * m == (b - a) * m;
  }

  /** A real `s` with `s * m == a` and `q * m <= a < (q + 1) * m` has floor `q`. */
  lemma RealSandwich(s: real, q: int, m: int, a: int)
    requires m > 0 && q * m <= a < (q + 1) * m && s * m as real == a as real
    ensures q as real <= s < q as real + 1.0
  {
    var mr := m as real;
    CastMul(q, m);
    CastMul(q + 1, m);
    if s < q as real {
      RealMulLt(s, q as real, mr);
    }
    if s >= q as real + 1.0 {
      RealMulLe(q as real + 1.0, s, mr);
    }
  }
}

/** Facts about integers that several modules use. */
module Integers {
  function Pow2(k: nat): (p: nat)
    ensures p > 0
  {
    if k == 0 then 1 else 2 * Pow2(k - 1)
  }

  lemma {:induction false} Pow2Sum(i: nat, j: nat)
    ensures Pow2(i + j) == Pow2(i) * Pow2(j)
  {
    hide Pow2;
    if i == 0 {
      Pow2Zero();
    } else {
      Pow2Sum(i - 1, j);
      Pow2Next(i);
      Pow2Next(i + j);
      Assoc(2, Pow2(i - 1), Pow2(j));
    }
  }

  lemma Pow2Next(k: nat)
    requires k > 0
    ensures Pow2(k) == 2 * Pow2(k - 1)
  {
  }

  lemma {:induction false} Pow2Grows(i: nat, j: nat)
    requires i <= j
    ensures Pow2(i) <= Pow2(j)
  {
    if i < j {
      Pow2Grows(i, j - 1);
    }
  }

  lemma Pow2Zero()
    ensures Pow2(0) == 1
  {
  }

  lemma Pow2Positive(k: nat)
    ensures Pow2(k) > 0
  {
  }

  lemma MulMono(a: int, b: int, m: nat)
    requires a <= b
    ensures a * m <= b * m
  {
  }

  lemma SmallMultiple(k: int, m: int, x: int)
    requires x == k * m && 0 < m && -m < x < m
    ensures k == 0
  {
    if k >= 1 {
      MulMono(1, k, m);
    } else if k <= -1 {
      MulMono(k, -1, m);
    }
  }

  /** Quotient and remainder are unique. */
  lemma DivModIs(x: int, m: nat, q: int, r: int)
    requires m > 0 && 0 <= r < m && x == q * m + r
    ensures x / m == q && x % m == r
  {
    var d, e := x / m, x % m;
    assert x == d * m + e;
    assert (d - q) * m == d * m - q * m;
    SmallMultiple(d - q, m, r - e);
  }

  lemma DivMono(a: int, b: int, m: nat)
    requires a <= b && m > 0
    ensures a / m <= b / m
  {
    var q, p := a / m, b / m;
    assert q * m <= a && b < p * m + m == (p + 1) * m;
    if p < q {
      MulMono(p + 1, q, m);
    }
  }

  lemma Reduced(x: int, m: nat)
    requires 0 <= x < m
    ensures x % m == x
  {
    DivModIs(x, m, 0, x);
  }

  lemma BelowProduct(q: nat, p': nat, p: nat)
    requires q < p' && p > 0
    ensures q * p < p' * p
  {
    MulMono(q + 1, p', p);
  }

  lemma FitsIn(low: nat, q: nat, p': nat, p: nat)
    requires q < p' && low < p
    ensures low + q * p < p' * p
  {
    MulMono(q + 1, p', p);
  }

  lemma Assoc(x: nat, y: nat, z: nat)
    ensures (x * y) * z == x * (y * z)
  {
  }
}

/** Fee/size pairs and their two orders (src/util/feefrac.h). Fees and sizes are unbounded
    here: the code asks its callers to keep the sums in range and multiplies in 128 bits. */
module FeeFracs {

  datatype FeeFrac = FeeFrac(fee: int, size: int) {
    predicate IsEmpty() { size == 0 }
    function Plus(other: FeeFrac): FeeFrac { FeeFrac(fee + other.fee, size + other.size) }
    function Minus(other: FeeFrac): FeeFrac { FeeFrac(fee - other.fee, size - other.size) }
  }

  const EMPTY := FeeFrac(0, 0)

  /** The fee of a beyond what its size earns at the feerate of r, scaled by r.size. */
  function Excess(a: FeeFrac, r: FeeFrac): int { a.fee * r.size - r.fee * a.size }

  /** operator>> : strictly higher feerate. The empty value is neither higher nor lower. */
  predicate Higher(a: FeeFrac, b: FeeFrac) { a.fee * b.size > b.fee * a.size }

  /** operator<< : strictly lower feerate. */
  predicate Lower(a: FeeFrac, b: FeeFrac) { a.fee * b.size < b.fee * a.size }

  /** operator> : higher feerate, or equal feerate and smaller size. */
  predicate Better(a: FeeFrac, b: FeeFrac) {
    a.fee * b.size > b.fee * a.size || (a.fee * b.size == b.fee * a.size && a.size < b.size)
  }

  function Rate(a: FeeFrac): real
    requires a.size > 0
  {
    a.fee as real / a.size as real
  }

  /** The orders compare feerates as fractions; of equal ones operator> prefers the smaller. */
  lemma OrdersAreOfRates(a: FeeFrac, b: FeeFrac)
    requires a.size > 0 && b.size > 0
    ensures Higher(a, b) <==> Rate(a) > Rate(b)
    ensures Lower(a, b) <==> Rate(a) < Rate(b)
    ensures Better(a, b) <==> Rate(a) > Rate(b) || (Rate(a) == Rate(b) && a.size < b.size)
  {
    var x, y, p, q := Rate(a), Rate(b), a.size as real, b.size as real;
    assert x * p == a.fee as real && y * q == b.fee as real;
    assert (a.fee * b.size) as real == x * p * q && (b.fee * a.size) as real == y * q * p;
    CrossReal(x, y, p, q);
  }

  lemma CrossReal(x: real, y: real, p: real, q: real)
    requires p > 0.0 && q > 0.0
    ensures x * p * q > y * q * p <==> x > y
    ensures x * p * q == y * q * p <==> x == y
  {
    var r := p * q;
    assert r > 0.0;
    assert x * p * q == x * r && y * q * p == y * r;
    assert (x - y) * r == x * r - y * r;
    if x > y { assert (x - y) * r > 0.0; } else if x < y { assert (y - x) * r > 0.0; }
  }

  lemma PlusAssoc(a: FeeFrac, b: FeeFrac, c: FeeFrac)
    ensures a.Plus(b).Plus(c) == a.Plus(b.Plus(c))
  {
  }

  lemma PlusEmpty(a: FeeFrac)
    ensures EMPTY.Plus(a) == a == a.Plus(EMPTY)
  {
  }

  lemma ExcessPlus(a: FeeFrac, b: FeeFrac, r: FeeFrac)
    ensures Excess(a.Plus(b), r) == Excess(a, r) + Excess(b, r)
  {
  }

  /** Feerates are a total preorder on pairs of positive size: comparison through a middle value. */
  lemma ExcessTransfer(a: FeeFrac, b: FeeFrac, r: FeeFrac)
    requires a.size > 0 && b.size > 0 && r.size > 0
    ensures !Lower(a, b) && Excess(b, r) >= 0 ==> Excess(a, r) >= 0
    ensures !Lower(a, b) && Excess(b, r) > 0 ==> Excess(a, r) > 0
    ensures Higher(a, b) && Excess(b, r) >= 0 ==> Excess(a, r) > 0
  {
    var x, y := Excess(a, b), Excess(b, r);
    assert b.size * Excess(a, r) == r.size * x + a.size * y by {
      assert b.size * (a.fee * r.size) == r.size * (a.fee * b.size);
      assert b.size * (r.fee * a.size) == a.size * (r.fee * b.size);
      assert r.size * (b.fee * a.size) == a.size * (b.fee * r.size);
    }
    if x >= 0 && y >= 0 {
      assert r.size * x >= 0 && a.size * y >= 0;
      if x > 0 { assert r.size * x > 0; }
      if y > 0 { assert a.size * y > 0; }
    }
  }

  /** A sum has a feerate between those of its parts. */
  lemma SumBetween(a: FeeFrac, b: FeeFrac)
    ensures Lower(a, a.Plus(b)) == Lower(a, b) == Higher(b, a) == Higher(b, a.Plus(b))
    ensures Lower(b, a.Plus(b)) == Lower(b, a) == Higher(a, b) == Higher(a, a.Plus(b))
  {
  }
}

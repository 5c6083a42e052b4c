/** Transaction sets (the SetType bit sets), iterated from the lowest index up, and their
    aggregate feerates. */
module TxSets {
  import opened FeeFracs
  import opened Diagram

  lemma FirstExists(s: set<nat>)
    requires s != {}
    ensures exists m :: m in s && forall y | y in s :: m <= y
  {
    var m :| m in s;
    while exists y :: y in s && y < m
      invariant m in s
      decreases m
    {
      var n :| n in s && n < m;
      m := n;
    }
  }

  /** The lowest index of a non-empty set (SetType::First). */
  function First(s: set<nat>): (m: nat)
    requires s != {}
    ensures m in s && forall y | y in s :: m <= y
  {
    FirstExists(s);
    var m :| m in s && forall y | y in s :: m <= y;
    m
  }

  /** The highest index of a non-empty set (SetType::Last). */
  function Last(s: set<nat>): (m: nat)
    requires s != {}
    ensures m in s && forall y | y in s :: y <= m
  {
    LastExists(s);
    var m :| m in s && forall y | y in s :: y <= m;
    m
  }

  lemma {:induction false} LastExists(s: set<nat>)
    requires s != {}
    ensures exists m :: m in s && forall y | y in s :: y <= m
  {
    var x := First(s);
    if s == {x} {
      assert x in s && forall y | y in s :: y <= x;
    } else {
      LastExists(s - {x});
      var m :| m in s - {x} && forall y | y in s - {x} :: y <= m;
      forall y | y in s ensures y <= m { assert y == x || y in s - {x}; }
    }
  }

  /** Aggregate feerate of a set of transactions (DepGraph::FeeRate of a set). */
  function SetTotal(f: Fees, s: set<nat>): FeeFrac {
    if s == {} then EMPTY else f(First(s)).Plus(SetTotal(f, s - {First(s)}))
  }

  lemma {:induction false} SetTotalTake(f: Fees, s: set<nat>, x: nat)
    requires x in s
    ensures SetTotal(f, s) == f(x).Plus(SetTotal(f, s - {x}))
  {
    var m := First(s);
    if x != m {
      SetTotalTake(f, s - {m}, x);
      assert m in s - {x} && First(s - {x}) in s;
      assert s - {m} - {x} == s - {x} - {m};
    }
  }

  lemma {:induction false} SetTotalUnion(f: Fees, a: set<nat>, b: set<nat>)
    requires a !! b
    ensures SetTotal(f, a + b) == SetTotal(f, a).Plus(SetTotal(f, b))
  {
    if a == {} {
      assert SetTotal(f, a) == EMPTY;
      hide SetTotal;
      assert a + b == b;
      PlusEmpty(SetTotal(f, b));
    } else {
      hide SetTotal;
      var m := First(a);
      SetTotalTake(f, a + b, m);
      SetTotalTake(f, a, m);
      assert a + b - {m} == (a - {m}) + b;
      SetTotalUnion(f, a - {m}, b);
      PlusAssoc(f(m), SetTotal(f, a - {m}), SetTotal(f, b));
    }
  }

  /** a and what of s lies outside it. */
  lemma SetTotalSplit(f: Fees, s: set<nat>, a: set<nat>)
    ensures SetTotal(f, s) == SetTotal(f, s * a).Plus(SetTotal(f, s - a))
  {
    SetTotalUnion(f, s * a, s - a);
    assert s * a + (s - a) == s;
  }

  lemma SetTotalExchange(f: Fees, s: set<nat>, h: set<nat>)
    ensures SetTotal(f, s).Plus(SetTotal(f, h - s)) == SetTotal(f, h).Plus(SetTotal(f, s - h))
  {
    hide SetTotal;
    SetTotalSplit(f, s, h);
    SetTotalSplit(f, h, s);
    assert s * h == h * s;
  }

  ghost predicate SizedSet(f: Fees, s: set<nat>) { forall x | x in s :: f(x).size > 0 }

  lemma {:induction false} SetTotalPositive(f: Fees, s: set<nat>)
    requires SizedSet(f, s)
    ensures s != {} ==> SetTotal(f, s).size > 0
    ensures SetTotal(f, s).size >= 0
  {
    if s != {} { SetTotalPositive(f, s - {First(s)}); }
  }

  function Elems(s: seq<nat>): set<nat> { set x | x in s }

  lemma ElemsConcat(a: seq<nat>, b: seq<nat>)
    ensures Elems(a + b) == Elems(a) + Elems(b)
  {
  }

  ghost predicate NoDup(s: seq<nat>) { forall i, j | 0 <= i < j < |s| :: s[i] != s[j] }

  lemma {:induction false} TotalIsSetTotal(f: Fees, s: seq<nat>)
    requires NoDup(s)
    ensures Total(f, s) == SetTotal(f, Elems(s)) && |Elems(s)| == |s|
  {
    if s != [] {
      TotalIsSetTotal(f, s[1..]);
      SetTotalTake(f, Elems(s), s[0]);
      assert Elems(s) - {s[0]} == Elems(s[1..]);
    }
  }

  lemma {:induction false} SubsetCard(a: set<nat>, b: set<nat>)
    requires a <= b
    ensures |a| <= |b|
  {
    if a != {} {
      var x := First(a);
      SubsetCard(a - {x}, b - {x});
    }
  }
}

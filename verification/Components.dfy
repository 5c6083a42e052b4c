/** Connected components of a part of a dependency graph (GetConnectedComponent and
    FindConnectedComponent in src/cluster_linearize.h). */
module Components {
  import opened TxSets
  import opened DepGraphs
  import opened Linearizations

  function Ancestors(g: Graph): Deps { (i: nat) => g.Anc(i) }

  /** Ancestors and descendants of the members of s. */
  function Neighbours(g: Graph, s: set<nat>): set<nat> {
    (set x, y | x in s && y in g.Anc(x) :: y) + (set x, y | x in s && y in g.Desc(x) :: y)
  }

  /** Nothing in todo outside s is related to s. */
  ghost predicate Separate(g: Graph, todo: set<nat>, s: set<nat>) {
    s <= todo && Neighbours(g, s) * todo <= s
  }

  lemma NeighboursUnion(g: Graph, a: set<nat>, b: set<nat>)
    ensures Neighbours(g, a + b) == Neighbours(g, a) + Neighbours(g, b)
  {
  }

  /** A connected set stays connected when neighbours join it. */
  lemma NeighboursConnect(g: Graph, s: set<nat>, more: set<nat>)
    requires g.Valid() && s != {} && s <= g.used && more <= g.used
    requires Connected(Ancestors(g), s) && more <= Neighbours(g, s)
    ensures Connected(Ancestors(g), s + more)
  {
    forall a: set<nat> | a < s + more && a != {} ensures Crosses(Ancestors(g), a, s + more - a) {
      CutCrossed(g, s, more, a);
    }
  }

  lemma CutCrossed(g: Graph, s: set<nat>, more: set<nat>, a: set<nat>)
    requires g.Valid() && s != {} && s <= g.used && more <= g.used
    requires Connected(Ancestors(g), s) && more <= Neighbours(g, s) && a < s + more && a != {}
    ensures Crosses(Ancestors(g), a, s + more - a)
  {
    if a * s != {} && a * s < s {
      hide Graph.Valid, Neighbours;
      assert Crosses(Ancestors(g), a * s, s - a * s);
      CrossesMore(Ancestors(g), a * s, s - a * s, a, s + more - a);
    } else {
      OuterCut(g, s, more, a);
    }
  }

  lemma CrossesMore(dep: Deps, a: set<nat>, b: set<nat>, c: set<nat>, d: set<nat>)
    requires Crosses(dep, a, b) && a <= c && b <= d
    ensures Crosses(dep, c, d)
  {
  }

  /** A cut that leaves s whole: some member of more is on the other side than s. */
  lemma OuterCut(g: Graph, s: set<nat>, more: set<nat>, a: set<nat>)
    requires g.Valid() && s <= g.used && more <= g.used && more <= Neighbours(g, s) && a < s + more && a != {}
    requires a * s == {} || a * s == s
    ensures Crosses(Ancestors(g), a, s + more - a)
  {
    hide Graph.Valid, Neighbours;
    if a * s == {} {
      var y :| y in a;
      assert y !in a * s;
      var x := NeighbourOf(g, s, y);
      assert x !in a * s;
      assert y in a && x in s + more - a && (y in Ancestors(g)(x) || x in Ancestors(g)(y));
    } else {
      var y :| y in s + more && y !in a;
      assert y !in a * s;
      var x := NeighbourOf(g, s, y);
      assert x in a * s;
      assert x in a && y in s + more - a && (x in Ancestors(g)(y) || y in Ancestors(g)(x));
    }
  }

  lemma NeighbourOf(g: Graph, s: set<nat>, y: nat) returns (x: nat)
    requires g.Valid() && s <= g.used && y in g.used && y in Neighbours(g, s)
    ensures x in s && (y in g.Anc(x) || x in g.Anc(y))
  {
    x :| x in s && (y in g.Anc(x) || y in g.Desc(x));
  }

  method AddNeighbours(g: Graph, ret: set<nat>, toAdd: set<nat>) returns (out: set<nat>)
    ensures out == ret + Neighbours(g, toAdd)
  {
    out := ret;
    var rest := toAdd;
    while rest != {}
      invariant rest <= toAdd && out == ret + Neighbours(g, toAdd - rest)
    {
      var add := First(rest);
      out := out + g.Desc(add) + g.Anc(add);
      NeighboursUnion(g, toAdd - rest, {add});
      assert toAdd - (rest - {add}) == toAdd - rest + {add};
      assert Neighbours(g, {add}) == g.Desc(add) + g.Anc(add);
      rest := rest - {add};
    }
    assert toAdd - rest == toAdd;
  }

  /** What one round finds, from the transactions seen so far of which toAdd are to be expanded. */
  lemma RoundFacts(g: Graph, todo: set<nat>, before: set<nat>, seen: set<nat>, toAdd: set<nat>, ret: set<nat>)
    requires g.Valid() && todo <= g.used && seen != {} && seen <= todo && toAdd <= seen <= before + toAdd
      && before <= seen
    requires Connected(Ancestors(g), seen) && Neighbours(g, seen - toAdd) * todo <= before
    requires ret == (before + Neighbours(g, toAdd)) * todo
    ensures seen <= ret <= todo && Connected(Ancestors(g), ret) && Neighbours(g, seen) * todo <= ret
  {
    hide Graph.Valid, Connected, Neighbours;
    NeighboursUnion(g, seen - toAdd, toAdd);
    assert seen - toAdd + toAdd == seen;
    forall x | x in toAdd ensures x in ret { SelfNeighbour(g, toAdd, x); }
    NeighboursConnect(g, seen, ret - seen);
    assert seen + (ret - seen) == ret;
  }

  lemma RoundNext(g: Graph, todo: set<nat>, before: set<nat>, seen: set<nat>, ret: set<nat>)
    requires before <= seen <= ret <= todo && Neighbours(g, seen) * todo <= ret
    ensures Neighbours(g, ret - (ret - before)) * todo <= ret
    ensures ret - before != {} ==> |todo - ret| < |todo - before|
  {
    hide Neighbours;
    assert ret - (ret - before) == before;
    NeighboursMonotone(g, before, seen);
    if ret - before != {} { SubsetCard(todo - ret, todo - before - {First(ret - before)}); }
  }

  lemma SelfNeighbour(g: Graph, s: set<nat>, x: nat)
    requires g.Valid() && x in s && x in g.used
    ensures x in Neighbours(g, s)
  {
  }

  lemma StartFacts(g: Graph, tx: nat)
    ensures Connected(Ancestors(g), {tx}) && Neighbours(g, {tx} - {tx}) == {}
  {
    assert {tx} - {tx} == {};
  }

  /** The component of tx within todo: it holds tx, it is connected, and nothing else in todo is
      related to it. */
  method GetConnectedComponent(g: Graph, todo: set<nat>, tx: nat) returns (ret: set<nat>)
    requires g.Valid() && todo <= g.used && tx in todo
    ensures tx in ret && Separate(g, todo, ret) && Connected(Ancestors(g), ret)
  {
    hide Graph.Valid, Connected, Neighbours;
    StartFacts(g, tx);
    var toAdd := {tx};
    ret := {};
    ghost var seen: set<nat> := {tx};
    while toAdd != {}
      invariant tx in seen && seen <= todo && toAdd <= seen <= ret + toAdd && ret <= seen
      invariant Connected(Ancestors(g), seen) && Neighbours(g, seen - toAdd) * todo <= ret
      decreases toAdd != {}, |todo - ret|
    {
      var before := ret;
      ret := AddNeighbours(g, ret, toAdd);
      ret := ret * todo;
      RoundFacts(g, todo, before, seen, toAdd, ret);
      RoundNext(g, todo, before, seen, ret);
      toAdd := ret - before;
      seen := ret;
    }
    assert seen - toAdd == seen == ret;
  }

  lemma NeighboursMonotone(g: Graph, a: set<nat>, b: set<nat>)
    requires a <= b
    ensures Neighbours(g, a) <= Neighbours(g, b)
  {
  }

  /** The component of the first transaction of todo. */
  method FindConnectedComponent(g: Graph, todo: set<nat>) returns (ret: set<nat>)
    requires g.Valid() && todo <= g.used
    ensures Separate(g, todo, ret) && Connected(Ancestors(g), ret) && (todo != {} ==> First(todo) in ret)
  {
    if todo == {} {
      return todo;
    }
    ret := GetConnectedComponent(g, todo, First(todo));
  }
}

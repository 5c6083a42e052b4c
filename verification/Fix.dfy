/** FixLinearization: make a linearization topological in place (src/cluster_linearize.h). */
module Fixing {
  import opened TxSets
  import opened DepGraphs
  import opened Linearizations

  /** t with x put after its first k elements. */
  function Insert(t: seq<nat>, k: nat, x: nat): seq<nat>
    requires k <= |t|
  {
    t[..k] + [x] + t[k..]
  }

  /** Inserting x right after the last of its ancestors keeps an order topological: what precedes
      that ancestor cannot depend on x. */
  lemma InsertTopological(g: Graph, t: seq<nat>, k: nat, x: nat)
    requires g.Valid() && g.Acyclic() && NoDup(t) && Topological(g, t) && Elems(t) <= g.used && x in g.used
      && x !in Elems(t)
    requires k <= |t| && Elems(t[k..]) * g.Anc(x) == {} && (k > 0 ==> t[k-1] in g.Anc(x))
    ensures NoDup(Insert(t, k, x)) && Topological(g, Insert(t, k, x)) && Elems(Insert(t, k, x)) == Elems(t) + {x}
  {
    var s := Insert(t, k, x);
    forall i, j | 0 <= i < j < |s| ensures s[i] != s[j] && s[j] !in g.Anc(s[i]) {
      InsertedPair(g, t, k, x, i, j);
    }
    InsertElems(t, k, x);
  }

  lemma InsertElems(t: seq<nat>, k: nat, x: nat)
    requires k <= |t|
    ensures Elems(Insert(t, k, x)) == Elems(t) + {x}
  {
    ElemsConcat(t[..k] + [x], t[k..]);
    ElemsConcat(t[..k], [x]);
    ElemsConcat(t[..k], t[k..]);
    assert t == t[..k] + t[k..];
  }

  lemma InsertedPair(g: Graph, t: seq<nat>, k: nat, x: nat, i: nat, j: nat)
    requires g.Valid() && g.Acyclic() && NoDup(t) && Topological(g, t) && Elems(t) <= g.used && x in g.used
      && x !in Elems(t)
    requires k <= |t| && Elems(t[k..]) * g.Anc(x) == {} && (k > 0 ==> t[k-1] in g.Anc(x)) && i < j <= |t|
    ensures var s := Insert(t, k, x); s[i] != s[j] && s[j] !in g.Anc(s[i])
  {
    hide Graph.Valid, Graph.Acyclic;
    var s := Insert(t, k, x);
    if i == k {
      assert s[j] == t[j-1] == t[k..][j-1-k];
      assert s[j] in Elems(t) && s[j] in Elems(t[k..]) && s[j] !in Elems(t[k..]) * g.Anc(x);
    } else if j == k {
      BeforeAncestor(g, t, k, x, i);
    } else {
      var i', j' := if i < k then i else i - 1, if j < k then j else j - 1;
      assert s[i] == t[i'] && s[j] == t[j'];
    }
  }

  lemma BeforeAncestor(g: Graph, t: seq<nat>, k: nat, x: nat, i: nat)
    requires g.Valid() && g.Acyclic() && Topological(g, t) && Elems(t) <= g.used && x in g.used && x !in Elems(t)
    requires 0 < k <= |t| && t[k-1] in g.Anc(x) && i < k
    ensures x !in g.Anc(t[i]) && x != t[i]
  {
    var a, y := t[k-1], t[i];
    assert y in Elems(t) && a in Elems(t);
    assert x in g.Anc(y) ==> g.Anc(x) <= g.Anc(y);
    assert x in g.Anc(a) ==> a in g.Anc(x) * g.Desc(x);
  }

  /** Move elem, which stands before the last i elements t, behind those of its ancestors. */
  method FixOne(g: Graph, linearization: array<nat>, elem: nat, done: set<nat>, i: nat, ghost t: seq<nat>)
    returns (ghost k: nat)
    requires i < linearization.Length && |t| == i && linearization[linearization.Length - i..] == t && done == Elems(t)
      && NoDup(t)
    modifies linearization
    ensures forall j | 0 <= j < linearization.Length - 1 - i :: linearization[j] == old(linearization[j])
    ensures k <= |t| && linearization[linearization.Length - 1 - i..] == Insert(t, k, elem)
    ensures Elems(t[k..]) * g.Anc(elem) == {} && (k > 0 ==> t[k-1] in g.Anc(elem))
  {
    var len := linearization.Length;
    ghost var lin, from := linearization[..], linearization.Length - 1 - i;
    ghost var hole := linearization[from];
    var j := i;
    k := 0;
    var placeBefore := done * g.Anc(elem);
    assert t[0..] == t && linearization[from..] == Insert(t, 0, hole);
    hide NoDup, Elems, Insert;
    while placeBefore != {}
      invariant 0 <= j <= i && k == i - j && forall m | 0 <= m < from :: linearization[m] == lin[m]
      invariant placeBefore == Elems(t[k..]) * g.Anc(elem) && linearization[from..] == Insert(t, k, hole)
      invariant k > 0 && placeBefore == {} ==> t[k-1] in g.Anc(elem)
      decreases j
    {
      SomethingLeft(t, k, g.Anc(elem));
      InsertAt(t, k, hole);
      var toSwap := linearization[len - 1 - (j - 1)];
      assert toSwap == linearization[from..][k+1] == t[k];
      RestElems(t, k);
      placeBefore := placeBefore - {toSwap};
      WriteTail(linearization[..], from, k, toSwap);
      linearization[len - 1 - j] := toSwap;
      j := j - 1;
      k := k + 1;
      hole := toSwap;
    }
    InsertAt(t, k, hole);
    WriteTail(linearization[..], from, k, elem);
    linearization[len - 1 - j] := elem;
  }

  lemma WriteTail(s: seq<nat>, from: nat, k: nat, x: nat)
    requires from + k < |s|
    ensures s[from + k := x][..from] == s[..from] && s[from + k := x][from..] == s[from..][k := x]
  {
  }

  /** The slot for the moved element, and what follows it. */
  lemma InsertAt(t: seq<nat>, k: nat, hole: nat)
    requires k <= |t|
    ensures |Insert(t, k, hole)| == |t| + 1 && Insert(t, k, hole)[k] == hole
    ensures k < |t| ==> Insert(t, k, hole)[k+1] == t[k] && Insert(t, k, hole)[k := t[k]] == Insert(t, k + 1, t[k])
    ensures forall x: nat :: Insert(t, k, hole)[k := x] == Insert(t, k, x)
  {
  }

  lemma SomethingLeft(t: seq<nat>, k: nat, s: set<nat>)
    requires k <= |t| && Elems(t[k..]) * s != {}
    ensures k < |t|
  {
  }

  lemma RestElems(t: seq<nat>, k: nat)
    requires k < |t| && NoDup(t)
    ensures Elems(t[k+1..]) == Elems(t[k..]) - {t[k]} && t[k] in Elems(t[k..])
    ensures forall s: set<nat> :: Elems(t[k..]) * s - {t[k]} == Elems(t[k+1..]) * s
  {
    assert t[k..] == [t[k]] + t[k+1..];
    ElemsConcat([t[k]], t[k+1..]);
  }

  /** The elements are moved towards the end until they are behind all their ancestors. */
  method FixLinearization(g: Graph, linearization: array<nat>)
    requires g.Valid() && g.Acyclic() && IsLinearization(g, linearization[..])
    modifies linearization
    ensures IsLinearization(g, linearization[..]) && Topological(g, linearization[..])
    ensures old(Topological(g, linearization[..])) ==> linearization[..] == old(linearization[..])
  {
    hide *;
    var done: set<nat> := {};
    var len := linearization.Length;
    ghost var lin := linearization[..];
    ghost var t: seq<nat> := [];
    NothingFixed(g, lin);
    for i := 0 to len
      invariant (forall j | 0 <= j < len - i :: linearization[j] == lin[j]) && linearization[len - i..] == t
        && done == Elems(t)
      invariant Fixed(g, lin, t, i)
    {
      var elem := linearization[len - 1 - i];
      FixedFacts(g, lin, t, i);
      ghost var k := FixOne(g, linearization, elem, done, i, t);
      FixedNext(g, lin, t, i, k);
      done := done + {elem};
      t := Insert(t, k, elem);
    }
    AllFixed(g, lin, t);
    assert linearization[0..] == linearization[..];
  }

  /** t is a topological order of the last i elements of lin, the one lin has if lin is topological. */
  ghost predicate Fixed(g: Graph, lin: seq<nat>, t: seq<nat>, i: nat) {
    && i <= |lin| && |t| == i && NoDup(t) && Topological(g, t) && Elems(t) == Elems(lin[|lin| - i..])
    && (Topological(g, lin) ==> t == lin[|lin| - i..])
  }

  lemma NothingFixed(g: Graph, lin: seq<nat>)
    ensures Fixed(g, lin, [], 0) && Elems([]) == {}
  {
  }

  lemma FixedFacts(g: Graph, lin: seq<nat>, t: seq<nat>, i: nat)
    requires Fixed(g, lin, t, i)
    ensures |t| == i && NoDup(t)
  {
  }

  lemma AllFixed(g: Graph, lin: seq<nat>, t: seq<nat>)
    requires IsLinearization(g, lin) && Fixed(g, lin, t, |lin|)
    ensures IsLinearization(g, t) && Topological(g, t) && (Topological(g, lin) ==> t == lin)
  {
    assert lin[0..] == lin;
  }

  /** In a topological order no ancestor of an element follows it. */
  lemma NothingMoves(g: Graph, lin: seq<nat>, n: nat, k: nat)
    requires Topological(g, lin) && n < |lin| && k < |lin| - n && (k > 0 ==> lin[n+1..][k-1] in g.Anc(lin[n]))
    ensures Insert(lin[n+1..], k, lin[n]) == lin[n..]
  {
    if k > 0 {
      assert false;
    }
  }

  lemma FixedNext(g: Graph, lin: seq<nat>, t: seq<nat>, i: nat, k: nat)
    requires g.Valid() && g.Acyclic() && IsLinearization(g, lin) && i < |lin| && Fixed(g, lin, t, i)
    requires k <= |t| && var x := lin[|lin| - 1 - i]; Elems(t[k..]) * g.Anc(x) == {} && (k > 0 ==> t[k-1] in g.Anc(x))
    ensures Fixed(g, lin, Insert(t, k, lin[|lin| - 1 - i]), i + 1)
    ensures Elems(Insert(t, k, lin[|lin| - 1 - i])) == Elems(t) + {lin[|lin| - 1 - i]}
  {
    var n := |lin| - 1 - i;
    var x, rest := lin[n], lin[n+1..];
    assert lin[n..] == [x] + rest;
    ElemsConcat([x], rest);
    assert x in Elems(lin);
    assert Elems(rest) <= Elems(lin);
    assert x !in Elems(rest);
    InsertTopological(g, t, k, x);
    if Topological(g, lin) {
      NothingMoves(g, lin, n, k);
    }
  }
}

/** PostLinearize: improve a linearization in place by two merge/swap passes over groups kept in
    singly-linked lists inside an array (src/cluster_linearize.h). A pass is described by the
    fees f and the dependencies dep it works with: ancestors in a forward pass; descendants, with
    fees negated and the order reversed, in a backward pass. */
module PostLinearization {
  import opened FeeFracs
  import opened Diagram
  import opened TxSets
  import opened DepGraphs
  import opened Linearizations

  function DepsOf(dep: Deps, s: set<nat>): set<nat> { set x, d | x in s && d in dep(x) :: d }

  /** Nothing precedes something it depends on. */
  ghost predicate Ordered(dep: Deps, s: seq<nat>) {
    forall i, j | 0 <= i < j < |s| :: s[j] !in dep(s[i])
  }

  // ---- One pass, on groups as sequences

  /** The group before the current one is merged into it. */
  function Merged(gs: seq<seq<nat>>, k: nat): seq<seq<nat>>
    requires 0 < k < |gs|
  {
    gs[..k-1] + [gs[k-1] + gs[k]] + gs[k+1..]
  }

  /** The group before the current one and the current one change places. */
  function Swapped(gs: seq<seq<nat>>, k: nat): seq<seq<nat>>
    requires 0 < k < |gs|
  {
    gs[k-1 := gs[k]][k := gs[k-1]]
  }

  /** The merge/swap cycle: as long as the group at k has a higher feerate than the one before,
      the two are merged if there is a dependency, and swapped otherwise. */
  function Settled(f: Fees, dep: Deps, gs: seq<seq<nat>>, k: nat): seq<seq<nat>>
    requires k < |gs|
    decreases k
  {
    if k == 0 || !Higher(Total(f, gs[k]), Total(f, gs[k-1])) then gs
    else if DepsOf(dep, Elems(gs[k])) * Elems(gs[k-1]) != {} then Settled(f, dep, Merged(gs, k), k - 1)
    else Settled(f, dep, Swapped(gs, k), k - 1)
  }

  /** The groups at the end of a pass over s: its transactions come in one by one, each as a group
      of its own at the back, which then settles. */
  function Grouped(f: Fees, dep: Deps, s: seq<nat>): seq<seq<nat>> {
    if s == [] then [] else
    var gs := Grouped(f, dep, s[..|s|-1]);
    Settled(f, dep, gs + [[s[|s|-1]]], |gs|)
  }

  lemma SplitGroups(gs: seq<seq<nat>>, k: nat)
    requires 0 < k < |gs|
    ensures Flatten(gs) == Flatten(gs[..k-1]) + (gs[k-1] + gs[k]) + Flatten(gs[k+1..])
    ensures Flatten(Merged(gs, k)) == Flatten(gs)
    ensures Flatten(Swapped(gs, k)) == Flatten(gs[..k-1]) + (gs[k] + gs[k-1]) + Flatten(gs[k+1..])
  {
    hide Flatten;
    var left, right := gs[..k-1], gs[k+1..];
    FlattenThree(left, gs[k-1], gs[k], right);
    FlattenThree(left, gs[k], gs[k-1], right);
    FlattenMiddle(left, gs[k-1] + gs[k], right);
    AroundPair(gs, k);
  }

  lemma AroundPair(gs: seq<seq<nat>>, k: nat)
    requires 0 < k < |gs|
    ensures gs == gs[..k-1] + [gs[k-1], gs[k]] + gs[k+1..]
    ensures Swapped(gs, k) == gs[..k-1] + [gs[k], gs[k-1]] + gs[k+1..]
  {
  }

  lemma FlattenMiddle(a: seq<seq<nat>>, b: seq<nat>, d: seq<seq<nat>>)
    ensures Flatten(a + [b] + d) == Flatten(a) + b + Flatten(d)
  {
    FlattenConcat(a + [b], d);
    FlattenConcat(a, [b]);
    FlattenOne(b);
  }

  lemma FlattenThree(a: seq<seq<nat>>, b: seq<nat>, c: seq<nat>, d: seq<seq<nat>>)
    ensures Flatten(a + [b, c] + d) == Flatten(a) + (b + c) + Flatten(d)
  {
    FlattenConcat(a + [b, c], d);
    FlattenConcat(a, [b, c]);
    FlattenTwo(b, c);
  }

  lemma FlattenTwo(b: seq<nat>, c: seq<nat>)
    ensures Flatten([b, c]) == b + c
  {
    assert [b, c][1..] == [c];
    FlattenOne(c);
  }

  lemma MergedConnected(dep: Deps, p: set<nat>, c: set<nat>)
    requires Connected(dep, p) && Connected(dep, c) && DepsOf(dep, c) * p != {} && p !! c
    ensures Connected(dep, p + c)
  {
    var x :| x in DepsOf(dep, c) * p;
    var y :| y in c && x in dep(y);
    forall a: set<nat> | a < p + c && a != {} ensures Crosses(dep, a, p + c - a) {
      var b := p + c - a;
      if a * p < p && a * p != {} {
        var u, v :| u in a * p && v in p - a * p && (u in dep(v) || v in dep(u));
        assert u in a && v in b;
      } else if a * c < c && a * c != {} {
        var u, v :| u in a * c && v in c - a * c && (u in dep(v) || v in dep(u));
        assert u in a && v in b;
      } else {
        CutWhole(a, p, c);
        if a == p { assert x in a && y in b; } else { assert y in a && x in b; }
      }
    }
  }

  lemma CutWhole(a: set<nat>, p: set<nat>, c: set<nat>)
    requires a < p + c && a != {} && p !! c
    requires (a * p == p || a * p == {}) && (a * c == c || a * c == {})
    ensures a == p || a == c
  {
    assert a == a * p + a * c;
  }

  lemma SingletonConnected(dep: Deps, x: nat)
    ensures Connected(dep, {x})
  {
  }

  // ---- What every merge and swap keeps

  /** Moving a solid group before one of lower feerate, next to it, does not lower the diagram. */
  lemma SwapAtLeast(f: Fees, p: seq<nat>, c: seq<nat>)
    requires Sized(f, p) && Sized(f, c) && Solid(f, p) && Solid(f, c) && Higher(Total(f, c), Total(f, p))
    ensures AtLeast(f, c + p, p + c) && Total(f, c + p) == Total(f, p + c)
  {
    hide Total, Peak;
    TotalConcat(f, p, c);
    TotalConcat(f, c, p);
    var tp, tc := Total(f, p), Total(f, c);
    TotalPositive(f, p);
    TotalPositive(f, c);
    forall r: FeeFrac | r.size > 0 ensures Peak(f, c + p, r) >= Peak(f, p + c, r) {
      PeakConcat(f, p, c, r);
      PeakConcat(f, c, p, r);
      SolidPeak(f, p, r);
      SolidPeak(f, c, r);
      ExcessTransfer(tc, tp, r);
    }
  }

  lemma SwapAround(f: Fees, a: seq<nat>, p: seq<nat>, c: seq<nat>, b: seq<nat>)
    requires Sized(f, p) && Sized(f, c) && Solid(f, p) && Solid(f, c) && Higher(Total(f, c), Total(f, p))
    ensures AtLeast(f, a + (c + p) + b, a + (p + c) + b)
  {
    hide Total, Peak;
    SwapAtLeast(f, p, c);
    AtLeastPrefix(f, a, c + p, p + c);
    TotalConcat(f, a, c + p);
    TotalConcat(f, a, p + c);
    AtLeastSuffix(f, a + (c + p), a + (p + c), b);
  }

  /** Two adjacent parts may change places when the second does not depend on the first. */
  lemma SwapOrdered(dep: Deps, a: seq<nat>, p: seq<nat>, c: seq<nat>, b: seq<nat>)
    requires NoDup(a + (p + c) + b) && Ordered(dep, a + (p + c) + b)
    requires DepsOf(dep, Elems(c)) * Elems(p) == {}
    ensures NoDup(a + (c + p) + b) && Ordered(dep, a + (c + p) + b)
    ensures Elems(a + (c + p) + b) == Elems(a + (p + c) + b)
  {
    var s, t := a + (p + c) + b, a + (c + p) + b;
    forall i, j | 0 <= i < j < |t| ensures t[i] != t[j] && t[j] !in dep(t[i]) {
      var i', j' := Back(|a|, |p|, |c|, i), Back(|a|, |p|, |c|, j);
      assert t[i] == s[i'] && t[j] == s[j'];
      if i' > j' {
        var u, v := t[i], t[j];
        assert u == c[i - |a|] && v == p[j - |a| - |c|];
        assert u in Elems(c) && v in Elems(p) && v !in DepsOf(dep, Elems(c)) * Elems(p);
      }
    }
    assert Elems(t) == Elems(s) by {
      ElemsConcat(a + (p + c), b); ElemsConcat(a, p + c); ElemsConcat(p, c);
      ElemsConcat(a + (c + p), b); ElemsConcat(a, c + p); ElemsConcat(c, p);
    }
  }

  /** Where position i of a + c + p + b comes from in a + p + c + b. */
  function Back(a: nat, p: nat, c: nat, i: nat): nat {
    if i < a then i else if i < a + c then i + p else if i < a + c + p then i - c else i
  }

  /** State of a pass: gs are the groups so far, rest is still to come. Their concatenation is a
      reordering of start that respects dep and whose diagram is nowhere below that of start;
      every group is solid and connected. */
  ghost predicate Good(f: Fees, dep: Deps, gs: seq<seq<nat>>, rest: seq<nat>, start: seq<nat>) {
    var order := Flatten(gs) + rest;
    && Sized(f, start) && NoDup(order) && Elems(order) == Elems(start) && Ordered(dep, order)
    && AtLeast(f, order, start)
    && forall c | c in gs :: Solid(f, c) && Connected(dep, Elems(c))
  }

  /** Apart from the group at k, which nothing after it exceeds, feerates never increase. */
  ghost predicate DescendingBut(f: Fees, gs: seq<seq<nat>>, k: nat) {
    && (forall i, j | 0 <= i < j < |gs| && i != k && j != k :: !Higher(Total(f, gs[j]), Total(f, gs[i])))
    && (forall j | k < j < |gs| :: k < |gs| && !Higher(Total(f, gs[j]), Total(f, gs[k])))
  }

  lemma GoodGroups(f: Fees, dep: Deps, gs: seq<seq<nat>>, rest: seq<nat>, start: seq<nat>)
    requires Good(f, dep, gs, rest, start)
    ensures forall c | c in gs :: Sized(f, c) && Solid(f, c) && Total(f, c).size > 0
    ensures NoDup(Flatten(gs))
  {
    var order := Flatten(gs) + rest;
    assert Sized(f, Flatten(gs)) by {
      forall x | x in Flatten(gs) ensures f(x).size > 0 {
        assert x in order;
        assert x in Elems(order);
        assert x in Elems(start);
      }
    }
    SizedPieces(f, gs);
    forall c | c in gs ensures Total(f, c).size > 0 { TotalPositive(f, c); }
    forall i, j | 0 <= i < j < |Flatten(gs)| ensures Flatten(gs)[i] != Flatten(gs)[j] {
      assert order[i] == Flatten(gs)[i] && order[j] == Flatten(gs)[j];
    }
  }

  lemma GoodMerge(f: Fees, dep: Deps, gs: seq<seq<nat>>, k: nat, rest: seq<nat>, start: seq<nat>)
    requires Good(f, dep, gs, rest, start) && 0 < k < |gs| && DescendingBut(f, gs, k)
    requires Higher(Total(f, gs[k]), Total(f, gs[k-1])) && DepsOf(dep, Elems(gs[k])) * Elems(gs[k-1]) != {}
    ensures Good(f, dep, Merged(gs, k), rest, start) && DescendingBut(f, Merged(gs, k), k - 1)
  {
    hide Total, Flatten, Connected, Solid, AtLeast, Ordered;
    GoodGroups(f, dep, gs, rest, start);
    SplitGroups(gs, k);
    var p, c, ms := gs[k-1], gs[k], Merged(gs, k);
    assert p in gs && c in gs;
    SolidMerge(f, p, c);
    ElemsConcat(p, c);
    GroupsDisjoint(gs, k - 1, k);
    MergedConnected(dep, Elems(p), Elems(c));
    assert forall x | x in ms :: x in gs || x == p + c;
    MergeDescends(f, gs, k);
  }

  lemma GroupsDisjoint(gs: seq<seq<nat>>, i: nat, j: nat)
    requires i < j < |gs| && NoDup(Flatten(gs))
    ensures Elems(gs[i]) !! Elems(gs[j])
  {
    PiecesDisjoint(gs, j);
    var a := gs[..j];
    assert gs[i] == a[i];
    ElementInFlatten(a, i);
  }

  lemma {:induction false} ElementInFlatten(gs: seq<seq<nat>>, i: nat)
    requires i < |gs|
    ensures Elems(gs[i]) <= Elems(Flatten(gs))
  {
    if i > 0 {
      ElementInFlatten(gs[1..], i - 1);
      ElemsConcat(gs[0], Flatten(gs[1..]));
    }
  }

  lemma MergeDescends(f: Fees, gs: seq<seq<nat>>, k: nat)
    requires 0 < k < |gs| && DescendingBut(f, gs, k) && Higher(Total(f, gs[k]), Total(f, gs[k-1]))
    requires forall c | c in gs :: Total(f, c).size > 0
    ensures DescendingBut(f, Merged(gs, k), k - 1)
  {
    var ms := Merged(gs, k);
    assert forall i | 0 <= i < k - 1 :: ms[i] == gs[i];
    assert forall i | k <= i < |ms| :: ms[i] == gs[i + 1];
    TotalConcat(f, gs[k-1], gs[k]);
    forall j | k - 1 < j < |ms| ensures !Higher(Total(f, ms[j]), Total(f, ms[k-1])) {
      assert ms[j] == gs[j + 1];
      ExcessPlus(Total(f, gs[k-1]), Total(f, gs[k]), Total(f, gs[j + 1]));
    }
  }

  lemma GoodSwap(f: Fees, dep: Deps, gs: seq<seq<nat>>, k: nat, rest: seq<nat>, start: seq<nat>)
    requires Good(f, dep, gs, rest, start) && 0 < k < |gs| && DescendingBut(f, gs, k)
    requires Higher(Total(f, gs[k]), Total(f, gs[k-1])) && DepsOf(dep, Elems(gs[k])) * Elems(gs[k-1]) == {}
    ensures Good(f, dep, Swapped(gs, k), rest, start) && DescendingBut(f, Swapped(gs, k), k - 1)
  {
    hide Total, Flatten, Connected, Solid, AtLeast, Ordered;
    GoodGroups(f, dep, gs, rest, start);
    SplitGroups(gs, k);
    var p, c := gs[k-1], gs[k];
    assert p in gs && c in gs;
    SwapGoodOrder(f, dep, Flatten(gs[..k-1]), p, c, Flatten(gs[k+1..]), rest, start);
    SwapDescends(f, gs, k);
  }

  lemma SwapGoodOrder(f: Fees, dep: Deps, a: seq<nat>, p: seq<nat>, c: seq<nat>, b: seq<nat>, rest: seq<nat>,
                      start: seq<nat>)
    requires Sized(f, p) && Sized(f, c) && Solid(f, p) && Solid(f, c) && Higher(Total(f, c), Total(f, p))
    requires DepsOf(dep, Elems(c)) * Elems(p) == {}
    requires var s := a + (p + c) + b + rest;
      NoDup(s) && Ordered(dep, s) && Elems(s) == Elems(start) && AtLeast(f, s, start)
    ensures var t := a + (c + p) + b + rest;
      NoDup(t) && Ordered(dep, t) && Elems(t) == Elems(start) && AtLeast(f, t, start)
  {
    hide Total, Solid, AtLeast, Ordered, NoDup, Elems;
    ConcatAssoc(a + (p + c), b, rest);
    ConcatAssoc(a + (c + p), b, rest);
    SwapOrdered(dep, a, p, c, b + rest);
    SwapAround(f, a, p, c, b + rest);
    AtLeastTrans(f, a + (c + p) + (b + rest), a + (p + c) + (b + rest), start);
  }

  lemma SwapDescends(f: Fees, gs: seq<seq<nat>>, k: nat)
    requires 0 < k < |gs| && DescendingBut(f, gs, k) && Higher(Total(f, gs[k]), Total(f, gs[k-1]))
    ensures DescendingBut(f, Swapped(gs, k), k - 1)
  {
    var ms := Swapped(gs, k);
    assert forall i | 0 <= i < |ms| && i != k && i != k - 1 :: ms[i] == gs[i];
    assert ms[k] == gs[k-1] && ms[k-1] == gs[k];
  }

  /** When the current group does not exceed its predecessor, it has found its place. */
  lemma SettledDescends(f: Fees, gs: seq<seq<nat>>, k: nat)
    requires k < |gs| && DescendingBut(f, gs, k) && forall c | c in gs :: Total(f, c).size > 0
    requires k > 0 ==> !Higher(Total(f, gs[k]), Total(f, gs[k-1]))
    ensures DescendingBut(f, gs, |gs|)
  {
    forall i | 0 <= i < k ensures !Higher(Total(f, gs[k]), Total(f, gs[i])) {
      if i < k - 1 {
        assert gs[i] in gs && gs[k-1] in gs && gs[k] in gs;
        ExcessTransfer(Total(f, gs[i]), Total(f, gs[k-1]), Total(f, gs[k]));
      }
    }
  }

  /** A new group of one transaction, taken from the rest. */
  lemma GoodAppend(f: Fees, dep: Deps, gs: seq<seq<nat>>, x: nat, rest: seq<nat>, start: seq<nat>)
    requires Good(f, dep, gs, [x] + rest, start) && DescendingBut(f, gs, |gs|)
    ensures Good(f, dep, gs + [[x]], rest, start) && DescendingBut(f, gs + [[x]], |gs|)
  {
    FlattenConcat(gs, [[x]]);
    FlattenOne([x]);
    ConcatAssoc(Flatten(gs), [x], rest);
    SingletonConnected(dep, x);
    assert Elems([x]) == {x};
  }

  // ---- The groups as linked lists in an array

  /** Information about transaction t is in entry t + 1; entry 0 is the sentinel. The fields after
      prevTx are used in the entry of the last transaction of a group (its tail). */
  datatype TxEntry = TxEntry(prevTx: nat, firstTx: nat, prevGroup: nat,
                             group: set<nat>, deps: set<nat>, feerate: FeeFrac)

  const SENTINEL: nat := 0
  const NO_PREV_TX: nat := 0

  function Tail(c: seq<nat>): nat { if c == [] then SENTINEL else c[|c|-1] + 1 }

  /** Tail of the group before position k, the sentinel before the first. */
  function PrevTail(gs: seq<seq<nat>>, k: nat): nat
    requires k <= |gs|
  {
    if k == 0 then SENTINEL else Tail(gs[k-1])
  }

  function NextTail(gs: seq<seq<nat>>, k: nat): nat
    requires k < |gs|
  {
    if k + 1 == |gs| then SENTINEL else Tail(gs[k+1])
  }

  /** The entries es hold group c, chained from its tail to its front. */
  ghost predicate GroupAt(es: seq<TxEntry>, f: Fees, dep: Deps, c: seq<nat>, prevTail: nat) {
    && c != [] && (forall m | 0 <= m < |c| :: c[m] + 1 < |es|)
    && es[c[0] + 1].prevTx == NO_PREV_TX
    && (forall m | 0 < m < |c| :: es[c[m] + 1].prevTx == c[m-1] + 1)
    && TailAt(es[Tail(c)], f, dep, c, prevTail)
  }

  ghost predicate TailAt(e: TxEntry, f: Fees, dep: Deps, c: seq<nat>, prevTail: nat)
    requires c != []
  {
    && e.firstTx == c[0] + 1 && e.prevGroup == prevTail
    && e.group == Elems(c) && e.deps == DepsOf(dep, Elems(c)) && e.feerate == Total(f, c)
  }

  /** The entries es hold the list of groups gs, reached backwards from the sentinel. */
  ghost predicate Linked(es: seq<TxEntry>, f: Fees, dep: Deps, gs: seq<seq<nat>>) {
    && es != [] && es[SENTINEL].feerate == EMPTY
    && es[SENTINEL].prevGroup == PrevTail(gs, |gs|)
    && (forall k | 0 <= k < |gs| :: GroupAt(es, f, dep, gs[k], PrevTail(gs, k)))
  }

  ghost predicate Distinct(gs: seq<seq<nat>>) {
    && (forall c | c in gs :: NoDup(c))
    && (forall i, j | 0 <= i < j < |gs| :: Elems(gs[i]) !! Elems(gs[j]))
  }

  lemma DistinctGroups(gs: seq<seq<nat>>)
    requires NoDup(Flatten(gs))
    ensures Distinct(gs)
  {
    forall i, j | 0 <= i < j < |gs| ensures Elems(gs[i]) !! Elems(gs[j]) { GroupsDisjoint(gs, i, j); }
    forall c | c in gs ensures NoDup(c) {
      var k :| 0 <= k < |gs| && gs[k] == c;
      assert gs == gs[..k] + [c] + gs[k+1..];
      FlattenMiddle(gs[..k], c, gs[k+1..]);
      var a, b := Flatten(gs[..k]), Flatten(gs[k+1..]);
      forall i, j | 0 <= i < j < |c| ensures c[i] != c[j] {
        assert (a + c + b)[|a| + i] == c[i] && (a + c + b)[|a| + j] == c[j];
      }
    }
  }

  /** What the list says about its group at k, and about the sentinel. */
  lemma LinkedAt(es: seq<TxEntry>, f: Fees, dep: Deps, gs: seq<seq<nat>>, k: nat)
    requires Linked(es, f, dep, gs) && k < |gs|
    ensures GroupAt(es, f, dep, gs[k], PrevTail(gs, k)) && gs[k] != []
    ensures (forall x | x in Elems(gs[k]) :: x + 1 < |es|) && 0 < Tail(gs[k]) < |es|
    ensures es[Tail(gs[k])].prevGroup == PrevTail(gs, k) && es[Tail(gs[k])].firstTx == gs[k][0] + 1
  {
    GroupBounds(es, f, dep, gs[k], PrevTail(gs, k));
  }

  lemma GroupBounds(es: seq<TxEntry>, f: Fees, dep: Deps, c: seq<nat>, prevTail: nat)
    requires GroupAt(es, f, dep, c, prevTail)
    ensures c != [] && (forall x | x in Elems(c) :: x + 1 < |es|) && 0 < Tail(c) < |es|
    ensures es[Tail(c)].prevGroup == prevTail && es[Tail(c)].firstTx == c[0] + 1
  {
    forall x | x in Elems(c) ensures x + 1 < |es| {
      var m :| 0 <= m < |c| && c[m] == x;
    }
  }

  lemma SentinelAt(es: seq<TxEntry>, f: Fees, dep: Deps, gs: seq<seq<nat>>)
    requires Linked(es, f, dep, gs)
    ensures es != [] && es[0].feerate == EMPTY && es[0].prevGroup == PrevTail(gs, |gs|)
  {
  }

  /** Only the entries of a group's own transactions matter to it. */
  lemma GroupFrame(es: seq<TxEntry>, es': seq<TxEntry>, f: Fees, dep: Deps, c: seq<nat>, prevTail: nat)
    requires GroupAt(es, f, dep, c, prevTail) && |es'| == |es|
    requires forall x | x in Elems(c) :: es'[x + 1] == es[x + 1]
    ensures GroupAt(es', f, dep, c, prevTail)
  {
    forall m | 0 <= m < |c| ensures es'[c[m] + 1] == es[c[m] + 1] { assert c[m] in Elems(c); }
  }

  /** A group whose tail gets another predecessor. */
  lemma GroupMoved(es: seq<TxEntry>, es': seq<TxEntry>, f: Fees, dep: Deps, c: seq<nat>, before: nat, after: nat)
    requires GroupAt(es, f, dep, c, before) && |es'| == |es| && NoDup(c)
    requires forall x | x in Elems(c) && x + 1 != Tail(c) :: es'[x + 1] == es[x + 1]
    requires es'[Tail(c)] == es[Tail(c)].(prevGroup := after)
    ensures GroupAt(es', f, dep, c, after)
  {
    forall m | 0 <= m < |c| ensures es'[c[m] + 1].prevTx == es[c[m] + 1].prevTx { assert c[m] in Elems(c); }
  }

  lemma TailIn(c: seq<nat>)
    requires c != []
    ensures Tail(c) - 1 in Elems(c) && c[0] in Elems(c)
  {
  }

  /** The three predecessor links that change when the groups at k - 1 and k are swapped. */
  ghost predicate SwapUpdate(es: seq<TxEntry>, es': seq<TxEntry>, gs: seq<seq<nat>>, k: nat)
    requires 0 < k < |gs|
  {
    var prev, cur, next := Tail(gs[k-1]), Tail(gs[k]), NextTail(gs, k);
    && |es'| == |es| && prev < |es| && cur < |es| && next < |es|
    && es'[prev] == es[prev].(prevGroup := cur)
    && es'[cur] == es[cur].(prevGroup := PrevTail(gs, k - 1))
    && es'[next] == es[next].(prevGroup := prev)
    && forall i | 0 <= i < |es| && i != prev && i != cur && i != next :: es'[i] == es[i]
  }

  /** Predecessor, after the swap, of the group that was at i. */
  function SwappedPrev(gs: seq<seq<nat>>, k: nat, i: nat): nat
    requires 0 < k < |gs| && i < |gs|
  {
    if i == k - 1 then Tail(gs[k]) else if i == k then PrevTail(gs, k - 1)
    else if i == k + 1 then Tail(gs[k-1]) else PrevTail(gs, i)
  }

  lemma SwapGroup(es: seq<TxEntry>, es': seq<TxEntry>, f: Fees, dep: Deps, gs: seq<seq<nat>>, k: nat, i: nat)
    requires Linked(es, f, dep, gs) && Distinct(gs) && 0 < k < |gs| && SwapUpdate(es, es', gs, k) && i < |gs|
    ensures GroupAt(es', f, dep, gs[i], SwappedPrev(gs, k, i))
  {
    hide Linked, GroupAt, Elems, NoDup;
    var c := gs[i];
    LinkedAt(es, f, dep, gs, i);
    assert NoDup(c) by { assert c in gs; }
    OthersUnchanged(es, es', f, dep, gs, k, i);
    if i == k - 1 || i == k || i == k + 1 {
      GroupMoved(es, es', f, dep, c, PrevTail(gs, i), SwappedPrev(gs, k, i));
    } else {
      GroupFrame(es, es', f, dep, c, PrevTail(gs, i));
    }
  }

  lemma OthersUnchanged(es: seq<TxEntry>, es': seq<TxEntry>, f: Fees, dep: Deps, gs: seq<seq<nat>>, k: nat, i: nat)
    requires Linked(es, f, dep, gs) && Distinct(gs) && 0 < k < |gs| && SwapUpdate(es, es', gs, k) && i < |gs|
    ensures forall x | x in Elems(gs[i]) && (x + 1 != Tail(gs[i]) || i < k - 1 || k + 1 < i) ::
              x + 1 < |es| && es'[x + 1] == es[x + 1]
  {
    hide Linked, GroupAt, Distinct, Elems;
    LinkedAt(es, f, dep, gs, i);
    LinkedAt(es, f, dep, gs, k - 1);
    LinkedAt(es, f, dep, gs, k);
    if k + 1 < |gs| { LinkedAt(es, f, dep, gs, k + 1); }
    if i != k - 1 { TailsApart(gs, k - 1, i); }
    if i != k { TailsApart(gs, k, i); }
    if k + 1 < |gs| && i != k + 1 { TailsApart(gs, k + 1, i); }
  }

  lemma SwapLinked(es: seq<TxEntry>, es': seq<TxEntry>, f: Fees, dep: Deps, gs: seq<seq<nat>>, k: nat)
    requires Linked(es, f, dep, gs) && Distinct(gs) && 0 < k < |gs| && SwapUpdate(es, es', gs, k)
    ensures Linked(es', f, dep, Swapped(gs, k))
  {
    hide GroupAt, Distinct, SwapUpdate, Swapped;
    SwappedLength(gs, k);
    forall i | 0 <= i < |gs| ensures GroupAt(es', f, dep, Swapped(gs, k)[i], PrevTail(Swapped(gs, k), i)) {
      hide Linked, PrevTail;
      GroupSwapped(es, es', f, dep, gs, k, i);
    }
    SwapSentinel(es, es', f, dep, gs, k);
  }

  lemma SwappedLength(gs: seq<seq<nat>>, k: nat)
    requires 0 < k < |gs|
    ensures |Swapped(gs, k)| == |gs|
  {
  }

  lemma GroupSwapped(es: seq<TxEntry>, es': seq<TxEntry>, f: Fees, dep: Deps, gs: seq<seq<nat>>, k: nat, i: nat)
    requires Linked(es, f, dep, gs) && Distinct(gs) && 0 < k < |gs| && SwapUpdate(es, es', gs, k) && i < |gs|
    ensures |Swapped(gs, k)| == |gs| && GroupAt(es', f, dep, Swapped(gs, k)[i], PrevTail(Swapped(gs, k), i))
  {
    hide Linked, GroupAt, Distinct, SwapUpdate;
    SwapGroup(es, es', f, dep, gs, k, if i == k then k - 1 else if i == k - 1 then k else i);
  }

  lemma SwapSentinel(es: seq<TxEntry>, es': seq<TxEntry>, f: Fees, dep: Deps, gs: seq<seq<nat>>, k: nat)
    requires Linked(es, f, dep, gs) && Distinct(gs) && 0 < k < |gs| && SwapUpdate(es, es', gs, k)
    ensures es' != [] && es'[SENTINEL].feerate == EMPTY && es'[SENTINEL].prevGroup == PrevTail(Swapped(gs, k), |gs|)
  {
    hide Linked, GroupAt, Distinct;
    StepTails(es, f, dep, gs, k);
    SentinelAt(es, f, dep, gs);
    if k + 1 < |gs| { LinkedAt(es, f, dep, gs, k + 1); }
  }

  /** The tails of other groups are not among the transactions of group i. */
  lemma TailsApart(gs: seq<seq<nat>>, k: nat, i: nat)
    requires Distinct(gs) && k < |gs| && i < |gs| && i != k && gs[k] != []
    ensures forall x | x in Elems(gs[i]) :: x + 1 != Tail(gs[k])
  {
    TailIn(gs[k]);
  }

  /** Swapping two adjacent groups: three predecessor links change. */
  method SwapStep(entries: array<TxEntry>, prev: nat, cur: nat, next: nat,
                  ghost f: Fees, ghost dep: Deps, ghost gs: seq<seq<nat>>, ghost k: nat) returns (preprev: nat)
    requires Linked(entries[..], f, dep, gs) && Distinct(gs) && 0 < k < |gs|
    requires prev == Tail(gs[k-1]) && cur == Tail(gs[k]) && next == NextTail(gs, k)
    modifies entries
    ensures Linked(entries[..], f, dep, Swapped(gs, k)) && k < |Swapped(gs, k)|
    ensures cur == Tail(Swapped(gs, k)[k-1]) && preprev == PrevTail(Swapped(gs, k), k - 1)
      && prev == NextTail(Swapped(gs, k), k - 1)
  {
    hide Linked, Distinct, GroupAt;
    ghost var es := entries[..];
    StepTails(es, f, dep, gs, k);
    preprev := entries[prev].prevGroup;
    entries[next] := entries[next].(prevGroup := prev);
    entries[prev] := entries[prev].(prevGroup := cur);
    entries[cur] := entries[cur].(prevGroup := preprev);
    SwapLinked(es, entries[..], f, dep, gs, k);
  }

  /** Three different entries, and what the one of the previous group points to. */
  lemma StepTails(es: seq<TxEntry>, f: Fees, dep: Deps, gs: seq<seq<nat>>, k: nat)
    requires Linked(es, f, dep, gs) && Distinct(gs) && 0 < k < |gs|
    ensures var prev, cur, next := Tail(gs[k-1]), Tail(gs[k]), NextTail(gs, k);
            && prev != cur && prev != next && cur != next && prev != SENTINEL && cur != SENTINEL
            && prev < |es| && cur < |es| && next < |es|
            && es[prev].prevGroup == PrevTail(gs, k - 1)
  {
    hide GroupAt, Linked, Distinct, Elems;
    LinkedAt(es, f, dep, gs, k - 1);
    LinkedAt(es, f, dep, gs, k);
    if k + 1 < |gs| {
      LinkedAt(es, f, dep, gs, k + 1);
    } else {
      SentinelAt(es, f, dep, gs);
    }
    TailIn(gs[k-1]); TailIn(gs[k]);
    TailsApart(gs, k - 1, k);
    if k + 1 < |gs| {
      TailIn(gs[k+1]);
      TailsApart(gs, k - 1, k + 1);
      TailsApart(gs, k, k + 1);
    }
  }

  /** What changes when the group p is merged into the group c after it: the tail of c, and the
      first transaction of c, which may be the same entry. */
  ghost predicate MergeUpdate(es: seq<TxEntry>, es': seq<TxEntry>, p: seq<nat>, c: seq<nat>)
    requires p != [] && c != []
  {
    var prev, cur, first := Tail(p), Tail(c), c[0] + 1;
    && |es'| == |es| && prev < |es| && cur < |es| && first < |es|
    && (forall i | 0 <= i < |es| && i != cur && i != first :: es'[i] == es[i])
    && es'[first].prevTx == prev && (cur != first ==> es'[cur].prevTx == es[cur].prevTx)
    && (cur != first ==> es'[first] == es[first].(prevTx := prev))
    && es'[cur].group == es[cur].group + es[prev].group && es'[cur].deps == es[cur].deps + es[prev].deps
    && es'[cur].feerate == es[cur].feerate.Plus(es[prev].feerate)
    && es'[cur].firstTx == es[prev].firstTx && es'[cur].prevGroup == es[prev].prevGroup
  }

  lemma MergedGroup(es: seq<TxEntry>, es': seq<TxEntry>, f: Fees, dep: Deps, p: seq<nat>, c: seq<nat>, before: nat)
    requires GroupAt(es, f, dep, p, before) && GroupAt(es, f, dep, c, Tail(p)) && MergeUpdate(es, es', p, c)
    requires NoDup(p) && NoDup(c) && Elems(p) !! Elems(c)
    ensures GroupAt(es', f, dep, p + c, before)
  {
    hide TailAt, Elems, NoDup;
    MergedTail(es, es', f, dep, p, c, before);
    assert |es'| == |es| && p + c != [];
    forall m | 0 <= m < |p + c|
      ensures (p + c)[m] + 1 < |es| && es'[(p + c)[m] + 1].prevTx == if m == 0 then NO_PREV_TX else (p + c)[m-1] + 1
    {
      hide GroupAt, MergeUpdate;
      MergedChain(es, es', f, dep, p, c, before, m);
    }
    MergedChain(es, es', f, dep, p, c, before, 0);
  }

  lemma MergedChain(es: seq<TxEntry>, es': seq<TxEntry>, f: Fees, dep: Deps, p: seq<nat>, c: seq<nat>, before: nat,
                    m: nat)
    requires GroupAt(es, f, dep, p, before) && GroupAt(es, f, dep, c, Tail(p)) && MergeUpdate(es, es', p, c)
    requires NoDup(p) && NoDup(c) && Elems(p) !! Elems(c) && m < |p + c|
    ensures (p + c)[m] + 1 < |es| && es'[(p + c)[m] + 1].prevTx == if m == 0 then NO_PREV_TX else (p + c)[m-1] + 1
  {
    hide TailAt;
    var s := p + c;
    TailIn(c);
    if m < |p| {
      assert p[m] in Elems(p);
      assert es'[p[m] + 1] == es[p[m] + 1];
    } else if m > |p| {
      var n := m - |p|;
      assert s[m] == c[n] && s[m-1] == c[n-1];
      assert c[n] != c[0];
    }
  }

  lemma MergedTail(es: seq<TxEntry>, es': seq<TxEntry>, f: Fees, dep: Deps, p: seq<nat>, c: seq<nat>, before: nat)
    requires GroupAt(es, f, dep, p, before) && GroupAt(es, f, dep, c, Tail(p)) && MergeUpdate(es, es', p, c)
    ensures Tail(p + c) == Tail(c) && TailAt(es'[Tail(p + c)], f, dep, p + c, before)
  {
    hide Total;
    assert TailAt(es[Tail(p)], f, dep, p, before) && TailAt(es[Tail(c)], f, dep, c, Tail(p));
    TotalConcat(f, p, c);
    ElemsConcat(p, c);
    assert DepsOf(dep, Elems(p) + Elems(c)) == DepsOf(dep, Elems(c)) + DepsOf(dep, Elems(p));
  }

  lemma MergeLinked(es: seq<TxEntry>, es': seq<TxEntry>, f: Fees, dep: Deps, gs: seq<seq<nat>>, k: nat)
    requires Linked(es, f, dep, gs) && Distinct(gs) && 0 < k < |gs| && gs[k-1] != [] && gs[k] != []
    requires MergeUpdate(es, es', gs[k-1], gs[k])
    ensures Linked(es', f, dep, Merged(gs, k))
  {
    hide GroupAt, Distinct;
    var ms := Merged(gs, k);
    MergedIndex(gs, k);
    forall i | 0 <= i < |ms| ensures GroupAt(es', f, dep, ms[i], PrevTail(ms, i)) {
      MergeGroup(es, es', f, dep, gs, k, i);
    }
    assert es'[SENTINEL] == es[SENTINEL];
    assert PrevTail(ms, |ms|) == PrevTail(gs, |gs|);
  }

  lemma MergedIndex(gs: seq<seq<nat>>, k: nat)
    requires 0 < k < |gs|
    ensures |Merged(gs, k)| == |gs| - 1 && Merged(gs, k)[k-1] == gs[k-1] + gs[k]
    ensures forall i | 0 <= i < k - 1 :: Merged(gs, k)[i] == gs[i]
    ensures forall i | k <= i < |gs| - 1 :: Merged(gs, k)[i] == gs[i+1]
    ensures gs[k] != [] ==> Tail(Merged(gs, k)[k-1]) == Tail(gs[k])
  {
  }

  lemma MergeGroup(es: seq<TxEntry>, es': seq<TxEntry>, f: Fees, dep: Deps, gs: seq<seq<nat>>, k: nat, i: nat)
    requires Linked(es, f, dep, gs) && Distinct(gs) && 0 < k < |gs| && gs[k-1] != [] && gs[k] != []
    requires MergeUpdate(es, es', gs[k-1], gs[k]) && i < |gs| - 1
    ensures i < |Merged(gs, k)| && GroupAt(es', f, dep, Merged(gs, k)[i], PrevTail(Merged(gs, k), i))
  {
    hide Linked, GroupAt, Merged, Distinct, Elems, NoDup;
    MergedIndex(gs, k);
    var ms := Merged(gs, k);
    LinkedAt(es, f, dep, gs, k - 1);
    LinkedAt(es, f, dep, gs, k);
    if i == k - 1 {
      DistinctPair(gs, k);
      hide MergeUpdate;
      MergedGroup(es, es', f, dep, gs[k-1], gs[k], PrevTail(gs, k - 1));
    } else {
      var j := if i < k - 1 then i else i + 1;
      LinkedAt(es, f, dep, gs, j);
      FirstsApart(gs, k, j);
      GroupFrame(es, es', f, dep, gs[j], PrevTail(gs, j));
    }
  }

  lemma DistinctPair(gs: seq<seq<nat>>, k: nat)
    requires Distinct(gs) && 0 < k < |gs|
    ensures NoDup(gs[k-1]) && NoDup(gs[k]) && Elems(gs[k-1]) !! Elems(gs[k])
  {
    assert gs[k-1] in gs && gs[k] in gs;
  }

  lemma FirstsApart(gs: seq<seq<nat>>, k: nat, j: nat)
    requires Distinct(gs) && k < |gs| && j < |gs| && j != k && gs[k] != []
    ensures forall x | x in Elems(gs[j]) :: x + 1 != Tail(gs[k]) && x != gs[k][0]
  {
    TailIn(gs[k]);
  }

  /** Merging the previous group into the current one. */
  method MergeStep(entries: array<TxEntry>, prev: nat, cur: nat,
                   ghost f: Fees, ghost dep: Deps, ghost gs: seq<seq<nat>>, ghost k: nat) returns (preprev: nat)
    requires Linked(entries[..], f, dep, gs) && Distinct(gs) && 0 < k < |gs|
    requires prev == Tail(gs[k-1]) && cur == Tail(gs[k])
    modifies entries
    ensures Linked(entries[..], f, dep, Merged(gs, k)) && 0 < k <= |Merged(gs, k)|
    ensures cur == Tail(Merged(gs, k)[k-1]) && preprev == PrevTail(Merged(gs, k), k - 1)
    ensures NextTail(Merged(gs, k), k - 1) == NextTail(gs, k)
  {
    hide *;
    ghost var es := entries[..];
    StepTails(es, f, dep, gs, k);
    MergeFirst(es, f, dep, gs, k);
    var e, p := entries[cur], entries[prev];
    entries[cur] := e.(group := e.group + p.group, deps := e.deps + p.deps, feerate := e.feerate.Plus(p.feerate));
    var first := entries[cur].firstTx;
    entries[first] := entries[first].(prevTx := prev);
    entries[cur] := entries[cur].(firstTx := entries[prev].firstTx);
    preprev := entries[prev].prevGroup;
    entries[cur] := entries[cur].(prevGroup := preprev);
    MergeUpdated(es, entries[..], prev, cur, first, gs[k-1], gs[k]);
    MergeNeighbours(gs, k);
    MergeLinked(es, entries[..], f, dep, gs, k);
  }

  lemma MergeNeighbours(gs: seq<seq<nat>>, k: nat)
    requires 0 < k < |gs| && gs[k] != []
    ensures k <= |Merged(gs, k)| && Tail(Merged(gs, k)[k-1]) == Tail(gs[k])
    ensures PrevTail(Merged(gs, k), k - 1) == PrevTail(gs, k - 1) && NextTail(Merged(gs, k), k - 1) == NextTail(gs, k)
  {
    MergedIndex(gs, k);
  }

  lemma MergeFirst(es: seq<TxEntry>, f: Fees, dep: Deps, gs: seq<seq<nat>>, k: nat)
    requires Linked(es, f, dep, gs) && Distinct(gs) && 0 < k < |gs|
    ensures gs[k-1] != [] && gs[k] != [] && gs[k][0] + 1 != Tail(gs[k-1])
    ensures gs[k][0] + 1 < |es| && Tail(gs[k]) < |es| && es[Tail(gs[k])].firstTx == gs[k][0] + 1
  {
    hide Linked, GroupAt, Distinct, Elems;
    LinkedAt(es, f, dep, gs, k - 1);
    LinkedAt(es, f, dep, gs, k);
    FirstsApart(gs, k, k - 1);
    TailIn(gs[k-1]);
    TailIn(gs[k]);
  }

  lemma MergeUpdated(es: seq<TxEntry>, es': seq<TxEntry>, prev: nat, cur: nat, first: nat, p: seq<nat>, c: seq<nat>)
    requires p != [] && c != [] && prev == Tail(p) && cur == Tail(c) && first == c[0] + 1
    requires prev < |es| && cur < |es| && first < |es| && prev != cur && prev != first
    requires var e, b := es[cur], es[prev];
             var e1 := e.(group := e.group + b.group, deps := e.deps + b.deps, feerate := e.feerate.Plus(b.feerate));
             var es1 := es[cur := e1];
             var es2 := es1[first := es1[first].(prevTx := prev)];
             es' == es2[cur := es2[cur].(firstTx := b.firstTx, prevGroup := b.prevGroup)]
    ensures MergeUpdate(es, es', p, c)
  {
  }

  // ---- The two passes

  function Negated(f: Fees): Fees { (i: nat) => FeeFrac(-f(i).fee, f(i).size) }

  /** Fees are negated in a backward pass, and descendants take the place of ancestors. */
  function PassFees(g: Graph, rev: bool): Fees { if rev then Negated(FeesOf(g)) else FeesOf(g) }

  function PassDeps(g: Graph, rev: bool): Deps {
    if rev then (i: nat) => g.Desc(i) else (i: nat) => g.Anc(i)
  }

  /** A new group containing just idx, at the back of the list. */
  method InsertGroup(entries: array<TxEntry>, g: Graph, idx: nat, rev: bool, ghost gs: seq<seq<nat>>)
    requires Linked(entries[..], PassFees(g, rev), PassDeps(g, rev), gs) && idx + 1 < entries.Length
    requires forall c | c in gs :: idx !in Elems(c)
    modifies entries
    ensures Linked(entries[..], PassFees(g, rev), PassDeps(g, rev), gs + [[idx]])
  {
    ghost var es := entries[..];
    var cur := idx + 1;
    var fee := g.Fee(idx);
    var e := TxEntry(NO_PREV_TX, cur, entries[SENTINEL].prevGroup, {idx},
                     if rev then g.Desc(idx) else g.Anc(idx), if rev then FeeFrac(-fee.fee, fee.size) else fee);
    entries[cur] := e;
    entries[SENTINEL] := entries[SENTINEL].(prevGroup := cur);
    NewGroup(entries[..], g, idx, rev, es[SENTINEL].prevGroup);
    InsertLinked(es, entries[..], PassFees(g, rev), PassDeps(g, rev), gs, idx);
  }

  lemma NewGroup(es: seq<TxEntry>, g: Graph, idx: nat, rev: bool, prevTail: nat)
    requires idx + 1 < |es|
    requires var fee := g.Fee(idx);
      es[idx + 1] == TxEntry(NO_PREV_TX, idx + 1, prevTail, {idx}, if rev then g.Desc(idx) else g.Anc(idx),
                             if rev then FeeFrac(-fee.fee, fee.size) else fee)
    ensures GroupAt(es, PassFees(g, rev), PassDeps(g, rev), [idx], prevTail)
  {
    var f, dep := PassFees(g, rev), PassDeps(g, rev);
    TotalOne(f, idx);
    hide Total;
    SingletonDeps(dep, idx);
    if rev {
      assert f(idx) == es[idx + 1].feerate && dep(idx) == es[idx + 1].deps;
    } else {
      assert f(idx) == es[idx + 1].feerate && dep(idx) == es[idx + 1].deps;
    }
  }

  lemma SingletonDeps(dep: Deps, x: nat)
    ensures Elems([x]) == {x} && DepsOf(dep, Elems([x])) == dep(x)
  {
    assert Elems([x]) == {x};
  }

  lemma InsertLinked(es: seq<TxEntry>, es': seq<TxEntry>, f: Fees, dep: Deps, gs: seq<seq<nat>>, idx: nat)
    requires Linked(es, f, dep, gs) && idx + 1 < |es| == |es'| && forall c | c in gs :: idx !in Elems(c)
    requires GroupAt(es', f, dep, [idx], es[SENTINEL].prevGroup)
    requires es'[SENTINEL] == es[SENTINEL].(prevGroup := idx + 1)
    requires forall i | 0 < i < |es| && i != idx + 1 :: es'[i] == es[i]
    ensures Linked(es', f, dep, gs + [[idx]])
  {
    hide GroupAt;
    var ms := gs + [[idx]];
    SentinelAt(es, f, dep, gs);
    forall i | 0 <= i < |ms| ensures GroupAt(es', f, dep, ms[i], PrevTail(ms, i)) {
      if i < |gs| { EarlierGroup(es, es', f, dep, gs, idx, i); }
    }
  }

  lemma EarlierGroup(es: seq<TxEntry>, es': seq<TxEntry>, f: Fees, dep: Deps, gs: seq<seq<nat>>, idx: nat, i: nat)
    requires Linked(es, f, dep, gs) && idx + 1 < |es| == |es'| && i < |gs| && forall c | c in gs :: idx !in Elems(c)
    requires forall i | 0 < i < |es| && i != idx + 1 :: es'[i] == es[i]
    ensures GroupAt(es', f, dep, gs[i], PrevTail(gs, i))
  {
    hide GroupAt, Linked, Elems, PrevTail;
    assert gs[i] in gs;
    LinkedAt(es, f, dep, gs, i);
    GroupFrame(es, es', f, dep, gs[i], PrevTail(gs, i));
  }

  /** The merge/swap cycle: as long as the current group, at first the last one, has a higher
      feerate than the one before, merge the two if there is a dependency, else swap them. */
  method Settle(entries: array<TxEntry>, cur: nat, ghost f: Fees, ghost dep: Deps, ghost gs: seq<seq<nat>>,
                ghost rest: seq<nat>, ghost start: seq<nat>) returns (ghost ms: seq<seq<nat>>)
    requires gs != [] && cur == Tail(gs[|gs|-1]) && Linked(entries[..], f, dep, gs)
    requires Good(f, dep, gs, rest, start) && DescendingBut(f, gs, |gs| - 1)
    modifies entries
    ensures Linked(entries[..], f, dep, ms) && Good(f, dep, ms, rest, start) && DescendingBut(f, ms, |ms|)
    ensures ms == Settled(f, dep, gs, |gs| - 1)
  {
    hide Linked, Good, DescendingBut, Total, Merged, Swapped, Distinct, DepsOf, Elems, Higher, Settled;
    ms := gs;
    ghost var k := |ms| - 1;
    CurrentEntries(entries[..], f, dep, ms, k);
    var next := SENTINEL;
    var prev := entries[cur].prevGroup;
    while Higher(entries[cur].feerate, entries[prev].feerate)
      invariant 0 <= k < |ms| && Linked(entries[..], f, dep, ms)
      invariant Good(f, dep, ms, rest, start) && DescendingBut(f, ms, k)
      invariant Settled(f, dep, ms, k) == Settled(f, dep, gs, |gs| - 1)
      invariant cur == Tail(ms[k]) < entries.Length && prev == PrevTail(ms, k) < entries.Length
        && next == NextTail(ms, k)
      decreases k
    {
      CurrentEntries(entries[..], f, dep, ms, k);
      GoodGroups(f, dep, ms, rest, start);
      DistinctGroups(ms);
      SettledStep(f, dep, ms, k);
      if entries[cur].deps * entries[prev].group != {} {
        GoodMerge(f, dep, ms, k, rest, start);
        prev := MergeStep(entries, prev, cur, f, dep, ms, k);
        ms := Merged(ms, k);
      } else {
        GoodSwap(f, dep, ms, k, rest, start);
        var preprev := SwapStep(entries, prev, cur, next, f, dep, ms, k);
        next, prev := prev, preprev;
        ms := Swapped(ms, k);
      }
      k := k - 1;
      CurrentEntries(entries[..], f, dep, ms, k);
    }
    CurrentEntries(entries[..], f, dep, ms, k);
    GoodGroups(f, dep, ms, rest, start);
    SettledDescends(f, ms, k);
    SettledStep(f, dep, ms, k);
  }

  lemma SettledStep(f: Fees, dep: Deps, gs: seq<seq<nat>>, k: nat)
    requires k < |gs|
    ensures k == 0 || !Higher(Total(f, gs[k]), Total(f, gs[k-1])) ==> Settled(f, dep, gs, k) == gs
    ensures k > 0 && Higher(Total(f, gs[k]), Total(f, gs[k-1])) && DepsOf(dep, Elems(gs[k])) * Elems(gs[k-1]) != {} ==>
              k <= |Merged(gs, k)| && Settled(f, dep, gs, k) == Settled(f, dep, Merged(gs, k), k - 1)
    ensures k > 0 && Higher(Total(f, gs[k]), Total(f, gs[k-1])) && DepsOf(dep, Elems(gs[k])) * Elems(gs[k-1]) == {} ==>
              k <= |Swapped(gs, k)| && Settled(f, dep, gs, k) == Settled(f, dep, Swapped(gs, k), k - 1)
  {
  }

  /** What the entries of the current group and of the one before it hold. */
  lemma CurrentEntries(es: seq<TxEntry>, f: Fees, dep: Deps, gs: seq<seq<nat>>, k: nat)
    requires Linked(es, f, dep, gs) && k < |gs|
    ensures var cur, prev := Tail(gs[k]), PrevTail(gs, k);
            && cur < |es| && prev < |es| && es[cur].prevGroup == prev
            && es[cur].feerate == Total(f, gs[k]) && es[cur].deps == DepsOf(dep, Elems(gs[k]))
            && (k == 0 ==> !Higher(es[cur].feerate, es[prev].feerate))
            && (k > 0 ==>
              es[prev].feerate == Total(f, gs[k-1]) && es[prev].group == Elems(gs[k-1]) && prev == Tail(gs[k-1]))
  {
    assert GroupAt(es, f, dep, gs[k], PrevTail(gs, k));
    if k > 0 { assert GroupAt(es, f, dep, gs[k-1], PrevTail(gs, k - 1)); }
  }

  function Reverse(s: seq<nat>): seq<nat> {
    seq(|s|, i requires 0 <= i < |s| => s[|s|-1-i])
  }

  /** Reversing an order and negating the fees turns the diagram upside down: every peak moves by
      the excess of the whole, which does not depend on the order. */
  lemma {:induction false} ReversePeak(f: Fees, s: seq<nat>, r: FeeFrac)
    ensures Peak(Negated(f), Reverse(s), FeeFrac(-r.fee, r.size)) == Peak(f, s, r) - Excess(Total(f, s), r)
    ensures Excess(Total(Negated(f), Reverse(s)), FeeFrac(-r.fee, r.size)) == -Excess(Total(f, s), r)
  {
    var n, q := Negated(f), FeeFrac(-r.fee, r.size);
    if s == [] {
    } else {
      var x, t := s[0], s[1..];
      ReversePeak(f, t, r);
      assert Reverse(s) == Reverse(t) + [x];
      PeakConcat(n, Reverse(t), [x], q);
      TotalConcat(n, Reverse(t), [x]);
      TotalOne(n, x);
      ExcessPlus(Total(n, Reverse(t)), n(x), q);
      ExcessPlus(f(x), Total(f, t), r);
      NegatedExcess(f, x, r);
      PeakNonNegative(f, t, r);
      PeakOne(n, x, q);
    }
  }

  lemma NegatedExcess(f: Fees, x: nat, r: FeeFrac)
    ensures Excess(Negated(f)(x), FeeFrac(-r.fee, r.size)) == -Excess(f(x), r)
  {
  }

  lemma PeakOne(f: Fees, x: nat, r: FeeFrac)
    ensures Peak(f, [x], r) == if Excess(f(x), r) >= 0 then Excess(f(x), r) else 0
  {
    assert Peak(f, [x][1..], r) == 0;
  }

  /** So a reversed order with negated fees is at least as good exactly when the order is. */
  lemma ReverseAtLeast(f: Fees, m: seq<nat>, s: seq<nat>)
    requires AtLeast(Negated(f), m, Reverse(s)) && Total(f, Reverse(m)) == Total(f, s)
    ensures AtLeast(f, Reverse(m), s)
  {
    hide Total, Peak, Negated;
    assert Reverse(Reverse(m)) == m;
    forall r: FeeFrac | r.size > 0 ensures Peak(f, Reverse(m), r) >= Peak(f, s, r) {
      ReversePeak(f, Reverse(m), r);
      ReversePeak(f, s, r);
      assert Peak(Negated(f), m, FeeFrac(-r.fee, r.size)) >= Peak(Negated(f), Reverse(s), FeeFrac(-r.fee, r.size));
    }
  }

  lemma ReverseReverse(s: seq<nat>)
    ensures Reverse(Reverse(s)) == s
  {
  }

  lemma ReverseElems(s: seq<nat>)
    ensures Elems(Reverse(s)) == Elems(s) && (NoDup(s) ==> NoDup(Reverse(s)))
  {
    forall x | x in Elems(s) ensures x in Elems(Reverse(s)) {
      var i :| 0 <= i < |s| && s[i] == x;
      assert Reverse(s)[|s|-1-i] == x;
    }
  }

  lemma ReverseOrdered(g: Graph, s: seq<nat>)
    requires g.Valid() && Elems(s) <= g.used
    ensures Topological(g, s) <==> Ordered(PassDeps(g, true), Reverse(s))
  {
    var t, dep := Reverse(s), PassDeps(g, true);
    assert forall i | 0 <= i < |s| :: s[i] in Elems(s);
    if Topological(g, s) {
      forall i, j | 0 <= i < j < |t| ensures t[j] !in dep(t[i]) {
        assert t[i] == s[|s|-1-i] && t[j] == s[|s|-1-j];
      }
    }
    if Ordered(dep, t) {
      forall i, j | 0 <= i < j < |s| ensures s[j] !in g.Anc(s[i]) {
        assert s[i] == t[|s|-1-i] && s[j] == t[|s|-1-j];
      }
    }
  }

  /** Convert the entries back to the linearization, overwriting the existing one: the groups are
      visited from the last to the first, each from its tail. */
  method WriteBack(entries: array<TxEntry>, linearization: array<nat>, rev: bool,
                   ghost f: Fees, ghost dep: Deps, ghost gs: seq<seq<nat>>)
    requires Linked(entries[..], f, dep, gs) && |Flatten(gs)| == linearization.Length
    modifies linearization
    ensures linearization[..] == if rev then Reverse(Flatten(gs)) else Flatten(gs)
  {
    hide GroupAt, Flatten, Linked, Written, Reverse;
    SentinelAt(entries[..], f, dep, gs);
    var curGroup := entries[0].prevGroup;
    var done := 0;
    ghost var k := |gs|;
    ghost var w: seq<nat> := [];
    assert gs[..k] == gs && Flatten(gs) == Flatten(gs) + w;
    WrittenNone(linearization[..], rev);
    while curGroup != SENTINEL
      invariant 0 <= k <= |gs| && curGroup == PrevTail(gs, k) && Linked(entries[..], f, dep, gs)
      invariant Flatten(gs) == Flatten(gs[..k]) + w && Written(linearization[..], w, done, rev)
      decreases k
    {
      LinkedAt(entries[..], f, dep, gs, k - 1);
      WrittenLength(linearization[..], w, done, rev);
      SplitLast(gs, k, w);
      done := WriteGroup(entries, linearization, rev, curGroup, done, f, dep, gs[k-1], PrevTail(gs, k - 1), w,
        Flatten(gs[..k-1]));
      w := gs[k-1] + w;
      k := k - 1;
      curGroup := entries[curGroup].prevGroup;
    }
    NotSentinel(entries[..], f, dep, gs, k);
    assert [] + w == w;
    WrittenAll(linearization[..], w, done, rev);
  }

  lemma WrittenNone(lin: seq<nat>, rev: bool)
    ensures Written(lin, [], 0, rev)
  {
  }

  lemma WrittenAll(lin: seq<nat>, w: seq<nat>, done: nat, rev: bool)
    requires Written(lin, w, done, rev) && |w| == |lin|
    ensures lin == if rev then Reverse(w) else w
  {
    assert lin[..|lin|] == lin && lin[0..] == lin;
  }

  lemma SplitLast(gs: seq<seq<nat>>, k: nat, w: seq<nat>)
    requires 0 < k <= |gs|
    ensures Flatten(gs[..k]) + w == Flatten(gs[..k-1]) + (gs[k-1] + w)
    ensures |Flatten(gs[..k])| == |Flatten(gs[..k-1])| + |gs[k-1]|
  {
    assert gs[..k] == gs[..k-1] + [gs[k-1]];
    FlattenConcat(gs[..k-1], [gs[k-1]]);
    FlattenOne(gs[k-1]);
    ConcatAssoc(Flatten(gs[..k-1]), gs[k-1], w);
  }

  /** Only the first group has the sentinel as predecessor. */
  lemma NotSentinel(es: seq<TxEntry>, f: Fees, dep: Deps, gs: seq<seq<nat>>, k: nat)
    requires Linked(es, f, dep, gs) && k <= |gs|
    ensures k > 0 ==> PrevTail(gs, k) != SENTINEL
    ensures Flatten(gs[..0]) == []
  {
    if k > 0 { LinkedAt(es, f, dep, gs, k - 1); }
  }

  /** The last |w| elements of the new linearization are in place: at its front, reversed, in a
      backward pass; at its back in a forward pass. */
  ghost predicate Written(lin: seq<nat>, w: seq<nat>, done: nat, rev: bool) {
    && done == |w| <= |lin|
    && (rev ==> lin[..done] == Reverse(w))
    && (!rev ==> lin[|lin| - done..] == w)
  }

  lemma WrittenNext(lin: seq<nat>, lin': seq<nat>, w: seq<nat>, x: nat, rev: bool)
    requires Written(lin, w, |w|, rev) && |w| < |lin|
    requires lin' == if rev then lin[|w| := x] else lin[|lin| - |w| - 1 := x]
    ensures Written(lin', [x] + w, |w| + 1, rev)
  {
    if rev {
      assert lin'[..|w| + 1] == lin[..|w|] + [x];
      assert Reverse([x] + w) == Reverse(w) + [x];
    } else {
      assert lin'[|lin| - |w| - 1..] == [x] + lin[|lin| - |w|..];
    }
  }

  method WriteGroup(entries: array<TxEntry>, linearization: array<nat>, rev: bool, curGroup: nat, done0: nat,
                    ghost f: Fees, ghost dep: Deps, ghost c: seq<nat>, ghost prevTail: nat, ghost w0: seq<nat>,
                    ghost before: seq<nat>)
    returns (done: nat)
    requires GroupAt(entries[..], f, dep, c, prevTail) && curGroup == Tail(c)
    requires Written(linearization[..], w0, done0, rev) && |before| + |c| + |w0| == linearization.Length
    modifies linearization
    ensures Written(linearization[..], c + w0, done, rev)
  {
    hide GroupAt, Written;
    done := done0;
    var curTx := curGroup;
    ghost var m := |c|;
    ghost var w := w0;
    ghost var es := entries[..];
    GroupBounds(es, f, dep, c, prevTail);
    WrittenLength(linearization[..], w, done, rev);
    while curTx != NO_PREV_TX
      invariant 0 <= m <= |c| && curTx == (if m == 0 then NO_PREV_TX else c[m-1] + 1) && entries[..] == es
      invariant w == c[m..] + w0 && done == |w| && Written(linearization[..], w, done, rev)
      decreases m
    {
      ghost var x := c[m-1];
      ChainStep(es, f, dep, c, prevTail, m - 1);
      DropCons(c, w0, m);
      done := Put(linearization, rev, done, curTx - 1, w);
      w := [x] + w;
      m := m - 1;
      curTx := entries[curTx].prevTx;
    }
  }

  lemma DropCons(c: seq<nat>, w: seq<nat>, m: nat)
    requires 0 < m <= |c|
    ensures c[m-1..] + w == [c[m-1]] + (c[m..] + w)
  {
  }

  method Put(linearization: array<nat>, rev: bool, done: nat, tx: nat, ghost w: seq<nat>) returns (done': nat)
    requires Written(linearization[..], w, done, rev) && done < linearization.Length
    modifies linearization
    ensures Written(linearization[..], [tx] + w, done', rev) && done' == done + 1
  {
    ghost var lin := linearization[..];
    done' := done + 1;
    if rev {
      linearization[done] := tx;
    } else {
      linearization[linearization.Length - done'] := tx;
    }
    WrittenNext(lin, linearization[..], w, tx, rev);
  }

  lemma ChainStep(es: seq<TxEntry>, f: Fees, dep: Deps, c: seq<nat>, prevTail: nat, m: nat)
    requires GroupAt(es, f, dep, c, prevTail) && m < |c|
    ensures c[m] + 1 < |es| && es[c[m] + 1].prevTx == if m == 0 then NO_PREV_TX else c[m-1] + 1
  {
  }

  lemma WrittenLength(lin: seq<nat>, w: seq<nat>, done: nat, rev: bool)
    requires Written(lin, w, done, rev)
    ensures done == |w|
  {
  }

  /** The order a pass reads the linearization in. */
  function PassOrder(s: seq<nat>, rev: bool): seq<nat> { if rev then Reverse(s) else s }

  /** The result of a pass over lin: a topological linearization whose diagram is nowhere lower. */
  ghost predicate Improved(g: Graph, result: seq<nat>, lin: seq<nat>) {
    && IsLinearization(g, result) && Topological(g, result)
    && AtLeast(FeesOf(g), result, lin)
  }

  /** What a pass makes of lin. */
  function Passed(g: Graph, lin: seq<nat>, rev: bool): seq<nat> {
    PassOrder(Flatten(Grouped(PassFees(g, rev), PassDeps(g, rev), PassOrder(lin, rev))), rev)
  }

  /** What the two passes make of lin, the backward pass first. */
  function PostLinearized(g: Graph, lin: seq<nat>): seq<nat> { Passed(g, Passed(g, lin, true), false) }

  method RunPass(g: Graph, entries: array<TxEntry>, linearization: array<nat>, rev: bool)
    returns (ghost gs: seq<seq<nat>>)
    requires g.Valid() && SizedGraph(g) && entries.Length == |g.entries| + 1 && entries[0].feerate == EMPTY
    requires IsLinearization(g, linearization[..]) && Topological(g, linearization[..])
    modifies entries, linearization
    ensures entries[0].feerate == EMPTY && Improved(g, linearization[..], old(linearization[..]))
    ensures Good(PassFees(g, rev), PassDeps(g, rev), gs, [], PassOrder(old(linearization[..]), rev))
    ensures DescendingBut(PassFees(g, rev), gs, |gs|) && linearization[..] == PassOrder(Flatten(gs), rev)
    ensures linearization[..] == Passed(g, old(linearization[..]), rev)
  {
    hide *;
    ghost var lin := linearization[..];
    ghost var f, dep, start := PassFees(g, rev), PassDeps(g, rev), PassOrder(lin, rev);
    PassStart(g, lin, rev);
    entries[0] := entries[0].(prevGroup := 0);
    EmptyLinked(entries[..], f, dep);
    gs := [];
    GroupedNone(f, dep, start);
    for i := 0 to linearization.Length
      invariant linearization[..] == lin && Linked(entries[..], f, dep, gs)
      invariant Good(f, dep, gs, start[i..], start) && DescendingBut(f, gs, |gs|)
      invariant gs == Grouped(f, dep, start[..i])
    {
      var idx := linearization[if rev then linearization.Length - 1 - i else i];
      StartAt(lin, rev, i);
      NextElement(g, f, dep, gs, idx, start[i+1..], start);
      InsertGroup(entries, g, idx, rev, gs);
      GoodAppend(f, dep, gs, idx, start[i+1..], start);
      LastTail(gs, idx);
      GroupedNext(f, dep, start, i);
      gs := gs + [[idx]];
      gs := Settle(entries, idx + 1, f, dep, gs, start[i+1..], start);
    }
    WholePrefix(start);
    PassResult(g, lin, gs, rev);
    SentinelAt(entries[..], f, dep, gs);
    WriteBack(entries, linearization, rev, f, dep, gs);
    PassOrderIs(Flatten(gs), rev);
    PassedIs(g, lin, rev);
  }

  lemma GroupedNone(f: Fees, dep: Deps, s: seq<nat>)
    ensures Grouped(f, dep, s[..0]) == []
  {
  }

  lemma GroupedNext(f: Fees, dep: Deps, s: seq<nat>, i: nat)
    requires i < |s|
    ensures var gs := Grouped(f, dep, s[..i]) + [[s[i]]];
            Grouped(f, dep, s[..i+1]) == Settled(f, dep, gs, |gs| - 1)
  {
    assert s[..i+1][..i] == s[..i];
  }

  lemma WholePrefix(s: seq<nat>)
    ensures s[|s|..] == [] && s[..|s|] == s
  {
  }

  lemma PassedIs(g: Graph, lin: seq<nat>, rev: bool)
    ensures Passed(g, lin, rev) ==
            PassOrder(Flatten(Grouped(PassFees(g, rev), PassDeps(g, rev), PassOrder(lin, rev))), rev)
  {
  }

  lemma EmptyLinked(es: seq<TxEntry>, f: Fees, dep: Deps)
    requires es != [] && es[0].prevGroup == 0 && es[0].feerate == EMPTY
    ensures Linked(es, f, dep, []) && DescendingBut(f, [], 0)
  {
  }

  lemma StartAt(lin: seq<nat>, rev: bool, i: nat)
    requires i < |lin|
    ensures var start := PassOrder(lin, rev);
            && |start| == |lin| && start[i] == lin[if rev then |lin| - 1 - i else i]
              && start[i..] == [start[i]] + start[i+1..]
  {
    FromHere(PassOrder(lin, rev), i);
  }

  lemma FromHere(s: seq<nat>, i: nat)
    requires i < |s|
    ensures s[i..] == [s[i]] + s[i+1..]
  {
  }

  lemma LastTail(gs: seq<seq<nat>>, idx: nat)
    ensures Tail((gs + [[idx]])[|gs + [[idx]]| - 1]) == idx + 1
  {
  }

  lemma PassOrderIs(s: seq<nat>, rev: bool)
    ensures PassOrder(s, rev) == if rev then Reverse(s) else s
  {
  }

  lemma PassStart(g: Graph, lin: seq<nat>, rev: bool)
    requires g.Valid() && SizedGraph(g) && IsLinearization(g, lin) && Topological(g, lin)
    ensures var start := PassOrder(lin, rev); |start| == |lin| && Elems(start) == g.used
    ensures Good(PassFees(g, rev), PassDeps(g, rev), [], PassOrder(lin, rev), PassOrder(lin, rev))
  {
    var f, dep, start := PassFees(g, rev), PassDeps(g, rev), PassOrder(lin, rev);
    ReverseElems(lin);
    ReverseOrdered(g, lin);
    assert Flatten([]) + start == start;
    forall x | x in start ensures f(x).size > 0 {
      assert x in Elems(start);
      assert g.Fee(x).size > 0;
    }
  }

  lemma NextElement(g: Graph, f: Fees, dep: Deps, gs: seq<seq<nat>>, idx: nat, rest: seq<nat>, start: seq<nat>)
    requires g.Valid() && Good(f, dep, gs, [idx] + rest, start) && Elems(start) == g.used
    ensures idx + 1 < |g.entries| + 1 && forall c | c in gs :: idx !in Elems(c)
  {
    var order := Flatten(gs) + ([idx] + rest);
    var n := |Flatten(gs)|;
    assert order[n] == idx;
    assert idx in Elems(order);
    forall m | 0 <= m < n ensures Flatten(gs)[m] != idx { assert order[m] == Flatten(gs)[m]; }
    forall c | c in gs ensures idx !in Elems(c) {
      var k :| 0 <= k < |gs| && gs[k] == c;
      ElementInFlatten(gs, k);
    }
  }

  lemma PassResult(g: Graph, lin: seq<nat>, gs: seq<seq<nat>>, rev: bool)
    requires g.Valid() && SizedGraph(g) && IsLinearization(g, lin) && Topological(g, lin)
    requires Good(PassFees(g, rev), PassDeps(g, rev), gs, [], PassOrder(lin, rev))
    ensures |Flatten(gs)| == |lin| && Improved(g, PassOrder(Flatten(gs), rev), lin)
  {
    hide Total, SetTotal, Peak, Flatten, Graph.Valid, AtLeast;
    var m := Flatten(gs);
    assert m + [] == m;
    ReverseElems(lin);
    ReverseElems(m);
    TotalIsSetTotal(FeesOf(g), lin);
    TotalIsSetTotal(FeesOf(g), m);
    TotalIsSetTotal(FeesOf(g), Reverse(m));
    if rev {
      ReverseReverse(m);
      ReverseOrdered(g, Reverse(m));
      ReverseAtLeast(FeesOf(g), m, lin);
    }
  }

  /** Every chunk of the linearization is connected. */
  ghost predicate ConnectedChunks(g: Graph, lin: seq<nat>) {
    forall c | c in Chunking(FeesOf(g), lin) :: Connected(PassDeps(g, false), Elems(c))
  }

  /** The groups a forward pass ends with are the chunks of its result. */
  lemma GroupsAreChunks(g: Graph, gs: seq<seq<nat>>, start: seq<nat>)
    requires Good(FeesOf(g), PassDeps(g, false), gs, [], start) && DescendingBut(FeesOf(g), gs, |gs|)
    ensures ConnectedChunks(g, Flatten(gs))
  {
    var f, m := FeesOf(g), Flatten(gs);
    assert m + [] == m;
    assert Sized(f, m) by {
      forall x | x in m ensures f(x).size > 0 {
        assert x in Elems(m);
        assert x in start;
      }
    }
    ChunkingIsChunking(f, m);
    assert IsChunking(f, gs, m);
    ChunkingUnique(f, gs, Chunking(f, m), m);
  }

  /** Two passes, the first from back to front. The result is a topological linearization whose
      diagram is nowhere below that of the input, and whose chunks are connected. */
  method PostLinearize(g: Graph, linearization: array<nat>)
    requires g.Valid() && SizedGraph(g)
    requires IsLinearization(g, linearization[..]) && Topological(g, linearization[..])
    modifies linearization
    ensures IsLinearization(g, linearization[..]) && Topological(g, linearization[..])
    ensures AtLeast(FeesOf(g), linearization[..], old(linearization[..]))
    ensures ConnectedChunks(g, linearization[..])
    ensures linearization[..] == PostLinearized(g, old(linearization[..]))
  {
    var entries := new TxEntry[|g.entries| + 1](_ => TxEntry(0, 0, 0, {}, {}, EMPTY));
    assert entries[0].feerate == EMPTY;
    hide *;
    ghost var lin := linearization[..];
    ghost var gs := RunPass(g, entries, linearization, true);
    ghost var mid := linearization[..];
    ImprovedFacts(g, mid, lin);
    gs := RunPass(g, entries, linearization, false);
    ImprovedFacts(g, linearization[..], mid);
    ForwardGroups(g, gs, mid, linearization[..]);
    AtLeastTrans(FeesOf(g), linearization[..], mid, lin);
    TwoPasses(g, lin);
  }

  lemma TwoPasses(g: Graph, lin: seq<nat>)
    ensures PostLinearized(g, lin) == Passed(g, Passed(g, lin, true), false)
  {
  }

  lemma ImprovedFacts(g: Graph, m: seq<nat>, s: seq<nat>)
    requires Improved(g, m, s)
    ensures IsLinearization(g, m) && Topological(g, m) && AtLeast(FeesOf(g), m, s)
  {
  }

  lemma ForwardGroups(g: Graph, gs: seq<seq<nat>>, start: seq<nat>, result: seq<nat>)
    requires Good(PassFees(g, false), PassDeps(g, false), gs, [], PassOrder(start, false))
    requires DescendingBut(PassFees(g, false), gs, |gs|) && result == PassOrder(Flatten(gs), false)
    ensures ConnectedChunks(g, result)
  {
    GroupsAreChunks(g, gs, start);
  }
}

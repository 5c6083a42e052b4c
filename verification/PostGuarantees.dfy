/** What post-linearization promises (src/cluster_linearize.h): it never makes a diagram worse, it
    is optimal for trees, and it makes up for moving a leaf to the end. Proved about Grouped and
    PostLinearized, which the linked-list implementation computes. */
module PostGuarantees {
  import opened FeeFracs
  import opened Diagram
  import opened TxSets
  import opened DepGraphs
  import opened Linearizations
  import opened PostLinearization

  // ---- A pass keeps its order respectable

  lemma {:induction false} SettledGood(f: Fees, dep: Deps, gs: seq<seq<nat>>, k: nat, rest: seq<nat>, start: seq<nat>)
    requires Good(f, dep, gs, rest, start) && k < |gs| && DescendingBut(f, gs, k)
    ensures var ms := Settled(f, dep, gs, k); Good(f, dep, ms, rest, start) && DescendingBut(f, ms, |ms|)
    decreases k
  {
    hide Good, DescendingBut, Total, Settled, Merged, Swapped, DepsOf, Elems, Higher;
    SettledStep(f, dep, gs, k);
    GoodGroups(f, dep, gs, rest, start);
    if k == 0 || !Higher(Total(f, gs[k]), Total(f, gs[k-1])) {
      SettledDescends(f, gs, k);
    } else if DepsOf(dep, Elems(gs[k])) * Elems(gs[k-1]) != {} {
      GoodMerge(f, dep, gs, k, rest, start);
      SettledGood(f, dep, Merged(gs, k), k - 1, rest, start);
    } else {
      GoodSwap(f, dep, gs, k, rest, start);
      SettledGood(f, dep, Swapped(gs, k), k - 1, rest, start);
    }
  }

  /** From a good state after s, the pass over the rest ends in a good state. */
  lemma {:induction false} GroupedGood(f: Fees, dep: Deps, s: seq<nat>, rest: seq<nat>, start: seq<nat>)
    requires var gs := Grouped(f, dep, s); Good(f, dep, gs, rest, start) && DescendingBut(f, gs, |gs|)
    ensures var ms := Grouped(f, dep, s + rest); Good(f, dep, ms, [], start) && DescendingBut(f, ms, |ms|)
    decreases |rest|
  {
    hide Good, DescendingBut, Grouped, Settled;
    if rest == [] {
      assert s + rest == s;
    } else {
      var x, more := rest[0], rest[1..];
      assert rest == [x] + more && s + rest == s + [x] + more;
      var gs := Grouped(f, dep, s);
      GoodAppend(f, dep, gs, x, more, start);
      SettledGood(f, dep, gs + [[x]], |gs|, more, start);
      GroupedAppend(f, dep, s, x);
      GroupedGood(f, dep, s + [x], more, start);
    }
  }

  lemma GroupedAppend(f: Fees, dep: Deps, s: seq<nat>, x: nat)
    ensures var gs := Grouped(f, dep, s); Grouped(f, dep, s + [x]) == Settled(f, dep, gs + [[x]], |gs|)
  {
    assert (s + [x])[..|s|] == s;
  }

  // ---- At every rate, the groups above that rate make the peak

  function Gain(f: Fees, c: seq<nat>, r: FeeFrac): int {
    if Excess(Total(f, c), r) >= 0 then Excess(Total(f, c), r) else 0
  }

  function Gains(f: Fees, gs: seq<seq<nat>>, r: FeeFrac): int {
    if gs == [] then 0 else Gain(f, gs[0], r) + Gains(f, gs[1..], r)
  }

  /** Solid groups of positive size with non-increasing feerates. */
  ghost predicate Descend(f: Fees, gs: seq<seq<nat>>) {
    && (forall c | c in gs :: Sized(f, c) && Solid(f, c) && Total(f, c).size > 0)
    && (forall i, j | 0 <= i < j < |gs| :: !Higher(Total(f, gs[j]), Total(f, gs[i])))
  }

  lemma GoodDescend(f: Fees, dep: Deps, gs: seq<seq<nat>>, rest: seq<nat>, start: seq<nat>)
    requires Good(f, dep, gs, rest, start) && DescendingBut(f, gs, |gs|)
    ensures Descend(f, gs) && NoDup(Flatten(gs))
  {
    GoodGroups(f, dep, gs, rest, start);
  }

  lemma DescendTail(f: Fees, gs: seq<seq<nat>>)
    requires Descend(f, gs) && gs != []
    ensures Descend(f, gs[1..]) && Sized(f, gs[0]) && Solid(f, gs[0]) && Total(f, gs[0]).size > 0
    ensures forall c | c in gs[1..] :: !Higher(Total(f, c), Total(f, gs[0]))
  {
    assert gs[0] in gs;
  }

  lemma {:induction false} NoGains(f: Fees, gs: seq<seq<nat>>, t: FeeFrac, r: FeeFrac)
    requires Descend(f, gs) && t.size > 0 && r.size > 0 && Excess(t, r) < 0
    requires forall c | c in gs :: !Higher(Total(f, c), t)
    ensures Gains(f, gs, r) == 0
  {
    if gs != [] {
      DescendTail(f, gs);
      NoGains(f, gs[1..], t, r);
      assert gs[0] in gs;
      ExcessTransfer(t, Total(f, gs[0]), r);
    }
  }

  lemma {:induction false} GainsArePeak(f: Fees, gs: seq<seq<nat>>, r: FeeFrac)
    requires Descend(f, gs) && r.size > 0
    ensures Peak(f, Flatten(gs), r) == Gains(f, gs, r)
  {
    if gs != [] {
      var t := Total(f, gs[0]);
      hide Total, Peak;
      DescendTail(f, gs);
      GainsArePeak(f, gs[1..], r);
      SolidPeak(f, gs[0], r);
      PeakConcat(f, gs[0], Flatten(gs[1..]), r);
      PeakNonNegative(f, Flatten(gs[1..]), r);
      if Excess(t, r) < 0 { NoGains(f, gs[1..], t, r); }
    } else {
      assert Peak(f, Flatten(gs), r) == 0;
    }
  }

  // ---- Groups without a better part make an optimal order

  /** t contains all of c that its members depend on. */
  ghost predicate ClosedIn(dep: Deps, c: set<nat>, t: set<nat>) {
    t <= c && forall x | x in t :: dep(x) * c <= t
  }

  /** No closed part of c has a higher feerate than c. */
  ghost predicate Tight(f: Fees, dep: Deps, c: set<nat>) {
    forall t | ClosedIn(dep, c, t) :: !Higher(SetTotal(f, t), SetTotal(f, c))
  }

  /** A closed part of a tight group earns no more, at any rate, than the group or nothing. */
  lemma TightPart(f: Fees, dep: Deps, c: seq<nat>, t: set<nat>, r: FeeFrac)
    requires Sized(f, c) && NoDup(c) && Tight(f, dep, Elems(c)) && ClosedIn(dep, Elems(c), t) && r.size > 0
    ensures Excess(SetTotal(f, t), r) <= Gain(f, c, r)
  {
    hide Total, SetTotal;
    var e := Elems(c);
    TotalIsSetTotal(f, c);
    SetTotalSplit(f, e, t);
    assert e * t == t;
    if t == {} {
      EmptyTotal(f);
    } else if e - t == {} {
      assert e == t;
    } else {
      SetTotalPositive(f, t);
      SetTotalPositive(f, e - t);
      PartEarnsLess(SetTotal(f, t), SetTotal(f, e - t), r);
    }
  }

  lemma EmptyTotal(f: Fees)
    ensures SetTotal(f, {}) == EMPTY
  {
  }

  lemma PartEarnsLess(t: FeeFrac, u: FeeFrac, r: FeeFrac)
    requires t.size > 0 && u.size > 0 && r.size > 0 && !Higher(t, t.Plus(u))
    ensures Excess(t, r) <= 0 || Excess(t, r) <= Excess(t.Plus(u), r)
  {
    SumBetween(t, u);
    ExcessPlus(t, u, r);
    ExcessTransfer(u, t, r);
  }

  /** A set that takes a closed part of every tight group is nowhere above the groups. */
  lemma {:induction false} TightBound(f: Fees, dep: Deps, gs: seq<seq<nat>>, s: set<nat>, r: FeeFrac)
    requires r.size > 0 && Distinct(gs) && s <= Elems(Flatten(gs))
    requires forall c | c in gs :: Sized(f, c) && Tight(f, dep, Elems(c)) && ClosedIn(dep, Elems(c), Elems(c) * s)
    ensures Excess(SetTotal(f, s), r) <= Gains(f, gs, r)
  {
    if gs == [] {
      assert s == {};
    } else {
      var c, t := gs[0], gs[1..];
      ElemsConcat(c, Flatten(t));
      hide SetTotal, Total, Tight;
      assert c in gs;
      TightPart(f, dep, c, Elems(c) * s, r);
      SetTotalSplit(f, s, Elems(c));
      assert s * Elems(c) == Elems(c) * s;
      ExcessPlus(SetTotal(f, s * Elems(c)), SetTotal(f, s - Elems(c)), r);
      forall d | d in t ensures Elems(d) * (s - Elems(c)) == Elems(d) * s && d in gs {
        var i :| 0 <= i < |t| && t[i] == d;
        assert d == gs[i + 1];
      }
      TightBound(f, dep, t, s - Elems(c), r);
    }
  }

  /** Tight groups with non-increasing feerates: no order that respects dep is anywhere above. */
  lemma TightOptimal(f: Fees, dep: Deps, gs: seq<seq<nat>>, other: seq<nat>)
    requires Descend(f, gs) && NoDup(Flatten(gs)) && forall c | c in gs :: Tight(f, dep, Elems(c))
    requires NoDup(other) && Ordered(dep, other) && Elems(other) == Elems(Flatten(gs))
    ensures AtLeast(f, Flatten(gs), other)
  {
    forall r: FeeFrac | r.size > 0 ensures Peak(f, Flatten(gs), r) >= Peak(f, other, r) {
      hide Tight, Peak, Total, SetTotal, Solid;
      var k := PeakIsMaximum(f, other, r);
      var s := Elems(other[..k]);
      TotalIsSetTotal(f, other[..k]);
      DistinctGroups(gs);
      GainsArePeak(f, gs, r);
      forall c | c in gs ensures ClosedIn(dep, Elems(c), Elems(c) * s) {
        var i :| 0 <= i < |gs| && gs[i] == c;
        ElementInFlatten(gs, i);
        PrefixClosedIn(dep, other, k, Elems(c));
      }
      TightBound(f, dep, gs, s, r);
    }
  }

  lemma PrefixClosedIn(dep: Deps, s: seq<nat>, k: nat, c: set<nat>)
    requires Ordered(dep, s) && k <= |s| && c <= Elems(s)
    ensures ClosedIn(dep, c, c * Elems(s[..k]))
  {
    forall x, d | x in c * Elems(s[..k]) && d in dep(x) * c ensures d in Elems(s[..k]) {
      var i :| 0 <= i < k && s[i] == x;
      var j :| 0 <= j < |s| && s[j] == d;
      assert j <= i;
      assert s[..k][j] == d;
    }
  }

  // ---- Trees

  /** Dependencies are reflexive and transitive, and what depends on the same transaction is
      comparable: every transaction heads a single chain of dependents. */
  ghost predicate Chained(dep: Deps, all: set<nat>) {
    && (forall x | x in all :: x in dep(x))
    && (forall x, y | x in all && y in dep(x) :: y in all && dep(y) <= dep(x))
    && (forall x, y, z | x in all && y in all && z in dep(x) * dep(y) :: x in dep(y) || y in dep(x))
  }

  /** The last transaction of the group depends on all of it. */
  ghost predicate Rooted(dep: Deps, c: seq<nat>) {
    c != [] && forall x | x in Elems(c) :: x in dep(c[|c|-1])
  }

  /** No closed part of the group that lacks its last transaction has a higher feerate than r. */
  ghost predicate Capped(f: Fees, dep: Deps, c: seq<nat>, r: FeeFrac) {
    c != [] && forall t | ClosedIn(dep, Elems(c), t) && c[|c|-1] !in t :: !Higher(SetTotal(f, t), r)
  }

  lemma RootedTight(f: Fees, dep: Deps, c: seq<nat>)
    requires Rooted(dep, c) && NoDup(c) && Capped(f, dep, c, Total(f, c))
    ensures Tight(f, dep, Elems(c))
  {
    hide SetTotal, Total;
    TotalIsSetTotal(f, c);
    forall t | ClosedIn(dep, Elems(c), t) ensures !Higher(SetTotal(f, t), SetTotal(f, Elems(c))) {
      if c[|c|-1] in t { assert t == Elems(c); }
    }
  }

  /** In a chained order, a group that another depends on hangs below that group's root. */
  lemma MergedRooted(dep: Deps, all: set<nat>, p: seq<nat>, c: seq<nat>)
    requires Chained(dep, all) && Elems(p) <= all && Elems(c) <= all && Rooted(dep, p) && Rooted(dep, c)
    requires DepsOf(dep, Elems(c)) * Elems(p) != {} && forall x, y | x in Elems(p) && y in Elems(c) :: y !in dep(x)
    ensures Rooted(dep, p + c)
  {
    var d :| d in DepsOf(dep, Elems(c)) * Elems(p);
    var e :| e in Elems(c) && d in dep(e);
    var root, top := p[|p|-1], c[|c|-1];
    assert root in Elems(p) && top in Elems(c);
    assert d in dep(root) * dep(e);
    assert root in dep(e);
    assert dep(root) <= dep(e) <= dep(top);
    ElemsConcat(p, c);
    assert (p + c)[|p + c|-1] == top;
  }

  lemma MergedCapped(f: Fees, dep: Deps, p: seq<nat>, c: seq<nat>, r: FeeFrac)
    requires Sized(f, p) && Sized(f, c) && NoDup(p) && Elems(p) !! Elems(c)
    requires Rooted(dep, p) && Capped(f, dep, p, Total(f, p)) && Capped(f, dep, c, Total(f, p))
    requires r.size > 0 && !Higher(Total(f, p), r) && Total(f, p).size > 0
    ensures Capped(f, dep, p + c, r)
  {
    hide SetTotal, Total, Tight;
    ElemsConcat(p, c);
    assert (p + c)[|p + c|-1] == c[|c|-1];
    forall t | ClosedIn(dep, Elems(p + c), t) && c[|c|-1] !in t ensures !Higher(SetTotal(f, t), r) {
      MergedPart(f, dep, p, c, t);
      CapRaised(f, Elems(p) + Elems(c), t, Total(f, p), r);
    }
  }

  lemma MergedPart(f: Fees, dep: Deps, p: seq<nat>, c: seq<nat>, t: set<nat>)
    requires NoDup(p) && Elems(p) !! Elems(c) && ClosedIn(dep, Elems(p) + Elems(c), t)
    requires Rooted(dep, p) && Capped(f, dep, p, Total(f, p)) && Capped(f, dep, c, Total(f, p)) && c[|c|-1] !in t
    ensures !Higher(SetTotal(f, t), Total(f, p))
  {
    hide SetTotal, Total;
    var a, b := t * Elems(p), t - Elems(p);
    RootedTight(f, dep, p);
    TotalIsSetTotal(f, p);
    SetTotalSplit(f, t, Elems(p));
    assert ClosedIn(dep, Elems(p), a) && ClosedIn(dep, Elems(c), b);
    ExcessPlus(SetTotal(f, a), SetTotal(f, b), Total(f, p));
  }

  /** A part not above one rate is not above a rate that is at least as high. */
  lemma CapRaised(f: Fees, all: set<nat>, t: set<nat>, q: FeeFrac, r: FeeFrac)
    requires SizedSet(f, all) && t <= all && q.size > 0 && r.size > 0
    requires !Higher(SetTotal(f, t), q) && !Higher(q, r)
    ensures !Higher(SetTotal(f, t), r)
  {
    hide SetTotal;
    if t == {} {
      EmptyTotal(f);
    } else {
      SetTotalPositive(f, t);
      ExcessTransfer(r, q, SetTotal(f, t));
    }
  }

  lemma CappedRaised(f: Fees, dep: Deps, c: seq<nat>, q: FeeFrac, r: FeeFrac)
    requires Sized(f, c) && Capped(f, dep, c, q) && q.size > 0 && r.size > 0 && !Higher(q, r)
    ensures Capped(f, dep, c, r)
  {
    hide SetTotal;
    forall t | ClosedIn(dep, Elems(c), t) && c[|c|-1] !in t ensures !Higher(SetTotal(f, t), r) {
      CapRaised(f, Elems(c), t, q, r);
    }
  }

  /** State of a pass over a chained order: in every group the parts without the root are not
      above the group; in the group at k, which is on the move, neither are they above the one
      before it. */
  ghost predicate TreeGroups(f: Fees, dep: Deps, gs: seq<seq<nat>>, k: nat) {
    && (forall c | c in gs :: Rooted(dep, c) && Capped(f, dep, c, Total(f, c)))
    && (0 < k < |gs| ==> Capped(f, dep, gs[k], Total(f, gs[k-1])))
  }

  lemma TreeMerge(f: Fees, dep: Deps, gs: seq<seq<nat>>, k: nat, rest: seq<nat>, start: seq<nat>)
    requires Chained(dep, Elems(start)) && Good(f, dep, gs, rest, start) && 0 < k < |gs| && DescendingBut(f, gs, k)
    requires Higher(Total(f, gs[k]), Total(f, gs[k-1])) && DepsOf(dep, Elems(gs[k])) * Elems(gs[k-1]) != {}
    requires TreeGroups(f, dep, gs, k)
    ensures k - 1 < |Merged(gs, k)| && TreeGroups(f, dep, Merged(gs, k), k - 1)
  {
    hide Total, SetTotal, Flatten, Rooted, Capped, Chained, DepsOf, Merged;
    var p, c, ms := gs[k-1], gs[k], Merged(gs, k);
    assert p in gs && c in gs;
    PairFacts(f, dep, gs, k, rest, start);
    MergedIndex(gs, k);
    MergedRooted(dep, Elems(start), p, c);
    TotalConcat(f, p, c);
    SumBetween(Total(f, p), Total(f, c));
    MergedCapped(f, dep, p, c, Total(f, p + c));
    if k > 1 {
      assert gs[k-2] in gs;
      MergedCapped(f, dep, p, c, Total(f, gs[k-2]));
    }
    forall x | x in ms ensures x in gs || x == p + c { MergedMember(gs, k, x); }
  }

  lemma MergedMember(gs: seq<seq<nat>>, k: nat, x: seq<nat>)
    requires 0 < k < |gs| && x in Merged(gs, k)
    ensures x in gs || x == gs[k-1] + gs[k]
  {
  }

  /** What is known of two adjacent groups. */
  lemma PairFacts(f: Fees, dep: Deps, gs: seq<seq<nat>>, k: nat, rest: seq<nat>, start: seq<nat>)
    requires Good(f, dep, gs, rest, start) && 0 < k < |gs|
    ensures forall c | c in gs :: Sized(f, c) && Total(f, c).size > 0
    ensures NoDup(gs[k-1]) && NoDup(gs[k]) && Elems(gs[k-1]) !! Elems(gs[k])
    ensures Elems(gs[k-1]) <= Elems(start) && Elems(gs[k]) <= Elems(start)
    ensures forall x, y | x in Elems(gs[k-1]) && y in Elems(gs[k]) :: y !in dep(x)
  {
    hide Total, Flatten, AtLeast, Solid, Connected;
    GoodGroups(f, dep, gs, rest, start);
    DistinctGroups(gs);
    DistinctPair(gs, k);
    SplitGroups(gs, k);
    InStart(gs, k - 1, rest, start);
    InStart(gs, k, rest, start);
    ConcatAssoc(Flatten(gs[..k-1]) + (gs[k-1] + gs[k]), Flatten(gs[k+1..]), rest);
    OrderedPair(dep, Flatten(gs[..k-1]), gs[k-1], gs[k], Flatten(gs[k+1..]) + rest);
  }

  lemma InStart(gs: seq<seq<nat>>, i: nat, rest: seq<nat>, start: seq<nat>)
    requires i < |gs| && Elems(Flatten(gs) + rest) == Elems(start)
    ensures Elems(gs[i]) <= Elems(start)
  {
    ElementInFlatten(gs, i);
    ElemsConcat(Flatten(gs), rest);
  }

  lemma OrderedPair(dep: Deps, a: seq<nat>, p: seq<nat>, c: seq<nat>, b: seq<nat>)
    requires Ordered(dep, a + (p + c) + b)
    ensures forall x, y | x in Elems(p) && y in Elems(c) :: y !in dep(x)
  {
    var s := a + (p + c) + b;
    forall x, y | x in Elems(p) && y in Elems(c) ensures y !in dep(x) {
      var i :| 0 <= i < |p| && p[i] == x;
      var j :| 0 <= j < |c| && c[j] == y;
      assert s[|a| + i] == x && s[|a| + |p| + j] == y;
    }
  }

  lemma TreeSwap(f: Fees, dep: Deps, gs: seq<seq<nat>>, k: nat)
    requires 0 < k < |gs| && DescendingBut(f, gs, k) && TreeGroups(f, dep, gs, k)
    requires forall c | c in gs :: Sized(f, c) && Total(f, c).size > 0
    ensures TreeGroups(f, dep, Swapped(gs, k), k - 1)
  {
    hide Total, SetTotal, Rooted, Capped;
    var ms := Swapped(gs, k);
    assert ms[k-1] == gs[k] && ms[k] == gs[k-1];
    assert forall i | 0 <= i < |ms| && i != k && i != k - 1 :: ms[i] == gs[i];
    forall c | c in ms ensures c in gs {
      var i :| 0 <= i < |ms| && ms[i] == c;
      assert gs[k] in gs && gs[k-1] in gs && gs[i] in gs;
    }
    if k > 1 {
      assert gs[k-2] in gs && gs[k-1] in gs && gs[k] in gs;
      CappedRaised(f, dep, gs[k], Total(f, gs[k-1]), Total(f, gs[k-2]));
    }
  }

  lemma {:induction false} SettledTrees(f: Fees, dep: Deps, gs: seq<seq<nat>>, k: nat, rest: seq<nat>, start: seq<nat>)
    requires Chained(dep, Elems(start)) && Good(f, dep, gs, rest, start) && k < |gs| && DescendingBut(f, gs, k)
    requires TreeGroups(f, dep, gs, k)
    ensures var ms := Settled(f, dep, gs, k); TreeGroups(f, dep, ms, |ms|)
    decreases k
  {
    hide Good, DescendingBut, Total, Settled, Merged, Swapped, DepsOf, Elems, Higher, Rooted, Capped, Chained;
    SettledStep(f, dep, gs, k);
    if k == 0 || !Higher(Total(f, gs[k]), Total(f, gs[k-1])) {
    } else if DepsOf(dep, Elems(gs[k])) * Elems(gs[k-1]) != {} {
      TreeMerge(f, dep, gs, k, rest, start);
      GoodMerge(f, dep, gs, k, rest, start);
      SettledTrees(f, dep, Merged(gs, k), k - 1, rest, start);
    } else {
      GoodGroups(f, dep, gs, rest, start);
      TreeSwap(f, dep, gs, k);
      GoodSwap(f, dep, gs, k, rest, start);
      SettledTrees(f, dep, Swapped(gs, k), k - 1, rest, start);
    }
  }

  lemma {:induction false} GroupedTrees(f: Fees, dep: Deps, s: seq<nat>, rest: seq<nat>, start: seq<nat>)
    requires Chained(dep, Elems(start))
    requires var gs := Grouped(f, dep, s);
      Good(f, dep, gs, rest, start) && DescendingBut(f, gs, |gs|) && TreeGroups(f, dep, gs, |gs|)
    ensures var ms := Grouped(f, dep, s + rest); TreeGroups(f, dep, ms, |ms|)
    decreases |rest|
  {
    hide Good, DescendingBut, Grouped, Settled, TreeGroups, Chained;
    if rest == [] {
      assert s + rest == s;
    } else {
      var x, more := rest[0], rest[1..];
      assert rest == [x] + more && s + rest == s + [x] + more;
      var gs := Grouped(f, dep, s);
      GoodAppend(f, dep, gs, x, more, start);
      TreeAppend(f, dep, gs, x, more, start);
      SettledTrees(f, dep, gs + [[x]], |gs|, more, start);
      SettledGood(f, dep, gs + [[x]], |gs|, more, start);
      GroupedAppend(f, dep, s, x);
      GroupedTrees(f, dep, s + [x], more, start);
    }
  }

  lemma TreeAppend(f: Fees, dep: Deps, gs: seq<seq<nat>>, x: nat, more: seq<nat>, start: seq<nat>)
    requires Chained(dep, Elems(start)) && Good(f, dep, gs, [x] + more, start) && TreeGroups(f, dep, gs, |gs|)
    ensures TreeGroups(f, dep, gs + [[x]], |gs|)
  {
    hide Good, SetTotal, Total;
    assert x in Elems(start) by { NextInStart(f, dep, gs, x, more, start); }
    assert Elems([x]) == {x};
    assert Rooted(dep, [x]);
    forall t | ClosedIn(dep, {x}, t) && x !in t ensures t == {} {}
    EmptyTotal(f);
    assert forall r: FeeFrac :: !Higher(EMPTY, r);
    assert forall r: FeeFrac :: Capped(f, dep, [x], r);
  }

  lemma NextInStart(f: Fees, dep: Deps, gs: seq<seq<nat>>, x: nat, more: seq<nat>, start: seq<nat>)
    requires Good(f, dep, gs, [x] + more, start)
    ensures x in Elems(start)
  {
    ElemsConcat(Flatten(gs), [x] + more);
    ElemsConcat([x], more);
    assert x in Elems([x]);
  }

  /** A pass over a chained order leaves nothing to improve: whatever order it starts from, its
      result is at least as good as every other order that respects the dependencies. */
  lemma PassOptimal(f: Fees, dep: Deps, s: seq<nat>, other: seq<nat>)
    requires Sized(f, s) && NoDup(s) && Ordered(dep, s) && Chained(dep, Elems(s))
    requires NoDup(other) && Ordered(dep, other) && Elems(other) == Elems(s)
    ensures AtLeast(f, Flatten(Grouped(f, dep, s)), other)
  {
    hide Chained, Grouped, TreeGroups, Good, DescendingBut, Tight, Ordered;
    StartGood(f, dep, s);
    GroupedGood(f, dep, [], s, s);
    GroupedTrees(f, dep, [], s, s);
    assert [] + s == s;
    var gs := Grouped(f, dep, s);
    GoodDescend(f, dep, gs, [], s);
    TreesTight(f, dep, gs);
    SameElements(f, dep, gs, s);
    TightOptimal(f, dep, gs, other);
  }

  lemma StartGood(f: Fees, dep: Deps, s: seq<nat>)
    requires Sized(f, s) && NoDup(s) && Ordered(dep, s)
    ensures Grouped(f, dep, []) == [] && Good(f, dep, [], s, s) && DescendingBut(f, [], 0) && TreeGroups(f, dep, [], 0)
  {
    assert Flatten([]) + s == s;
  }

  lemma SameElements(f: Fees, dep: Deps, gs: seq<seq<nat>>, s: seq<nat>)
    requires Good(f, dep, gs, [], s)
    ensures Elems(Flatten(gs)) == Elems(s)
  {
    assert Flatten(gs) + [] == Flatten(gs);
  }

  lemma TreesTight(f: Fees, dep: Deps, gs: seq<seq<nat>>)
    requires TreeGroups(f, dep, gs, |gs|) && NoDup(Flatten(gs))
    ensures forall c | c in gs :: Tight(f, dep, Elems(c))
  {
    hide Tight, Rooted, Capped;
    DistinctGroups(gs);
    forall c | c in gs ensures Tight(f, dep, Elems(c)) { RootedTight(f, dep, c); }
  }

  /** p is a parent of c: an ancestor with nothing in between. */
  ghost predicate DirectParent(g: Graph, p: nat, c: nat) {
    && p in g.used && c in g.used && p != c && p in g.Anc(c)
    && forall q | q in g.Anc(c) && p in g.Anc(q) :: q == p || q == c
  }

  /** Those are the parents GetReducedParents finds. */
  lemma ReducedAreDirect(g: Graph, i: nat, parents: set<nat>)
    requires g.Valid() && g.Acyclic() && i in g.used
    requires parents <= g.Anc(i) - {i} && CoveredBy(g, g.Anc(i) - {i}, parents) && ApartBut(g, parents, {})
    ensures forall p :: p in parents <==> DirectParent(g, p, i)
  {
    forall p ensures p in parents <==> DirectParent(g, p, i) {
      if p in parents {
        ReducedIsDirect(g, i, parents, p);
      } else if DirectParent(g, p, i) {
        var q := Cover(g, g.Anc(i) - {i}, parents, p);
      }
    }
  }

  lemma Cover(g: Graph, all: set<nat>, parents: set<nat>, a: nat) returns (p: nat)
    requires CoveredBy(g, all, parents) && a in all
    ensures p in parents && a in g.Anc(p)
  {
    p :| p in parents && a in g.Anc(p);
  }

  lemma ReducedIsDirect(g: Graph, i: nat, parents: set<nat>, p: nat)
    requires g.Valid() && g.Acyclic() && i in g.used && p in parents
    requires parents <= g.Anc(i) - {i} && CoveredBy(g, g.Anc(i) - {i}, parents) && ApartBut(g, parents, {})
    ensures DirectParent(g, p, i)
  {
    assert g.Anc(i) <= g.used;
    forall q | q in g.Anc(i) && p in g.Anc(q) && q != i ensures q == p {
      var r := Cover(g, g.Anc(i) - {i}, parents, q);
      assert p in g.Anc(r);
      assert r == p;
      assert q in g.Anc(p) * g.Desc(p);
    }
  }

  ghost predicate AtMostOneChild(g: Graph) {
    forall p, c, d | DirectParent(g, p, c) && DirectParent(g, p, d) :: c == d
  }

  ghost predicate AtMostOneParent(g: Graph) {
    forall c, p, q | DirectParent(g, p, c) && DirectParent(g, q, c) :: p == q
  }

  ghost predicate PartialOrder(dep: Deps, all: set<nat>) {
    && (forall x | x in all :: x in dep(x))
    && (forall x, y | x in all && y in dep(x) :: y in all && dep(y) <= dep(x))
    && (forall x, y | x in all && y in dep(x) && x in dep(y) :: x == y)
  }

  /** x depends on z with nothing in between. */
  ghost predicate Direct(dep: Deps, x: nat, z: nat) {
    z != x && z in dep(x) && forall q | q in dep(x) && z in dep(q) :: q == x || q == z
  }

  ghost predicate OneDirect(dep: Deps, all: set<nat>) {
    forall x, y, z | x in all && y in all && z in all && Direct(dep, x, z) && Direct(dep, y, z) :: x == y
  }

  lemma FewerBelow(dep: Deps, all: set<nat>, x: nat, q: nat)
    requires PartialOrder(dep, all) && x in all && q in dep(x) && q != x
    ensures |dep(q)| < |dep(x)| <= |all|
  {
    SubsetCard(dep(q), dep(x) - {x});
    SubsetCard(dep(x), all);
  }

  lemma {:induction false} DirectBetween(dep: Deps, all: set<nat>, x: nat, z: nat) returns (u: nat)
    requires PartialOrder(dep, all) && x in all && z in dep(x) && z != x
    ensures u in dep(x) && Direct(dep, u, z)
    decreases |dep(x)|
  {
    if Direct(dep, x, z) {
      u := x;
    } else {
      var q :| q in dep(x) && z in dep(q) && q != x && q != z;
      FewerBelow(dep, all, x, q);
      u := DirectBetween(dep, all, q, z);
    }
  }

  /** With one direct dependent at most, all dependents form a chain. */
  lemma {:induction false} Comparable(dep: Deps, all: set<nat>, x: nat, y: nat, z: nat)
    requires PartialOrder(dep, all) && OneDirect(dep, all) && x in all && y in all && z in dep(x) * dep(y)
    ensures x in dep(y) || y in dep(x)
    decreases |all| - |dep(z)|
  {
    if z != x && z != y {
      var u := DirectBetween(dep, all, x, z);
      var v := DirectBetween(dep, all, y, z);
      assert u == v;
      FewerBelow(dep, all, u, z);
      Comparable(dep, all, x, y, u);
    }
  }

  lemma OneDirectChains(dep: Deps, all: set<nat>)
    requires PartialOrder(dep, all) && OneDirect(dep, all)
    ensures Chained(dep, all)
  {
    forall x, y, z | x in all && y in all && z in dep(x) * dep(y) ensures x in dep(y) || y in dep(x) {
      Comparable(dep, all, x, y, z);
    }
  }

  lemma GraphOrder(g: Graph, rev: bool)
    requires g.Valid() && g.Acyclic()
    ensures PartialOrder(PassDeps(g, rev), g.used)
  {
    var dep := PassDeps(g, rev);
    forall x, y | x in g.used && y in dep(x) ensures y in g.used && dep(y) <= dep(x) && (x in dep(y) ==> x == y) {
      if rev {
        assert x in g.Anc(y);
        forall z | z in g.Desc(y) ensures z in g.Desc(x) { assert y in g.Anc(z) && x in g.Anc(z); }
        if x in g.Desc(y) { assert x in g.Anc(y) * g.Desc(y); }
      } else if x in g.Anc(y) {
        assert y in g.Anc(x) * g.Desc(x);
      }
    }
  }

  lemma GraphOneDirect(g: Graph, rev: bool)
    requires g.Valid() && g.Acyclic() && if rev then AtMostOneParent(g) else AtMostOneChild(g)
    ensures OneDirect(PassDeps(g, rev), g.used)
  {
    hide AtMostOneChild, AtMostOneParent;
    var dep := PassDeps(g, rev);
    forall x, z | x in g.used && z in g.used && Direct(dep, x, z)
      ensures if rev then DirectParent(g, x, z) else DirectParent(g, z, x)
    {
      GraphDirect(g, rev, x, z);
    }
    SingleDirect(g, rev);
  }

  lemma GraphDirect(g: Graph, rev: bool, x: nat, z: nat)
    requires g.Valid() && x in g.used && z in g.used && Direct(PassDeps(g, rev), x, z)
    ensures if rev then DirectParent(g, x, z) else DirectParent(g, z, x)
  {
    var dep := PassDeps(g, rev);
    if rev {
      forall q | q in g.Anc(z) && x in g.Anc(q) ensures q == x || q == z {
        assert q in dep(x) && z in dep(q);
      }
    }
  }

  lemma SingleDirect(g: Graph, rev: bool)
    requires if rev then AtMostOneParent(g) else AtMostOneChild(g)
    requires forall x, z | x in g.used && z in g.used && Direct(PassDeps(g, rev), x, z) ::
               if rev then DirectParent(g, x, z) else DirectParent(g, z, x)
    ensures OneDirect(PassDeps(g, rev), g.used)
  {
  }

  /** What a pass makes of a topological linearization is one, and is nowhere worse. */
  lemma PassImproves(g: Graph, lin: seq<nat>, rev: bool)
    requires g.Valid() && SizedGraph(g) && IsLinearization(g, lin) && Topological(g, lin)
    ensures Improved(g, Passed(g, lin, rev), lin)
  {
    hide *;
    var f, dep, start := PassFees(g, rev), PassDeps(g, rev), PassOrder(lin, rev);
    PassStart(g, lin, rev);
    GroupedEmpty(f, dep);
    GroupedGood(f, dep, [], start, start);
    NothingBefore(start);
    PassResult(g, lin, Grouped(f, dep, start), rev);
    PassedIs(g, lin, rev);
  }

  lemma GroupedEmpty(f: Fees, dep: Deps)
    ensures Grouped(f, dep, []) == [] && DescendingBut(f, [], 0)
  {
  }

  lemma NothingBefore(s: seq<nat>)
    ensures [] + s == s
  {
  }

  /** A pass in whose direction every transaction is directly needed by one other at most gives an
      optimal linearization: a forward pass with one child each, a backward pass with one parent. */
  lemma PassTreeOptimal(g: Graph, lin: seq<nat>, rev: bool)
    requires g.Valid() && SizedGraph(g) && IsLinearization(g, lin) && Topological(g, lin)
    requires if rev then AtMostOneParent(g) else AtMostOneChild(g)
    ensures IsOptimal(g, Passed(g, lin, rev))
  {
    hide AtMostOneChild, AtMostOneParent, Graph.Valid, Graph.Acyclic, Grouped, Passed, Flatten, SizedGraph;
    var f, dep := PassFees(g, rev), PassDeps(g, rev);
    TopologicalIsAcyclic(g, lin);
    GraphOrder(g, rev);
    GraphOneDirect(g, rev);
    OneDirectChains(dep, g.used);
    forall other | IsLinearization(g, other) && Topological(g, other)
      ensures AtLeast(FeesOf(g), Passed(g, lin, rev), other)
    {
      hide *;
      PassedBest(g, lin, other, rev);
    }
  }

  lemma PassedBest(g: Graph, lin: seq<nat>, other: seq<nat>, rev: bool)
    requires g.Valid() && SizedGraph(g) && IsLinearization(g, lin) && Topological(g, lin)
    requires IsLinearization(g, other) && Topological(g, other) && Chained(PassDeps(g, rev), g.used)
    ensures AtLeast(FeesOf(g), Passed(g, lin, rev), other)
  {
    hide Graph.Valid, Chained, Total, Peak, Flatten, Grouped, Passed, AtLeast, SizedGraph;
    var f, dep := PassFees(g, rev), PassDeps(g, rev);
    PassOrderFacts(g, lin, rev);
    PassOrderFacts(g, other, rev);
    PassOptimal(f, dep, PassOrder(lin, rev), PassOrder(other, rev));
    PassedIs(g, lin, rev);
    if rev {
      PassImproves(g, lin, true);
      var m := Flatten(Grouped(f, dep, Reverse(lin)));
      SameTotal(g, Reverse(m), other);
      ReverseAtLeast(FeesOf(g), m, other);
    }
  }

  lemma SameTotal(g: Graph, a: seq<nat>, b: seq<nat>)
    requires IsLinearization(g, a) && IsLinearization(g, b)
    ensures Total(FeesOf(g), a) == Total(FeesOf(g), b)
  {
    TotalIsSetTotal(FeesOf(g), a);
    TotalIsSetTotal(FeesOf(g), b);
  }

  lemma PassOrderFacts(g: Graph, s: seq<nat>, rev: bool)
    requires g.Valid() && SizedGraph(g) && IsLinearization(g, s) && Topological(g, s)
    ensures var t := PassOrder(s, rev);
            Sized(PassFees(g, rev), t) && NoDup(t) && Elems(t) == g.used && Ordered(PassDeps(g, rev), t)
  {
    hide AtLeast;
    PassStart(g, s, rev);
    ReverseElems(s);
    ReverseOrdered(g, s);
  }

  /** If every transaction has at most one child, or every one at most one parent, the result is
      optimal: its diagram is nowhere below that of any topological linearization. */
  lemma TreeOptimal(g: Graph, lin: seq<nat>)
    requires g.Valid() && SizedGraph(g) && IsLinearization(g, lin) && Topological(g, lin)
    requires AtMostOneChild(g) || AtMostOneParent(g)
    ensures IsOptimal(g, PostLinearized(g, lin))
  {
    hide AtMostOneChild, AtMostOneParent, Graph.Valid, AtLeast, Passed, SizedGraph;
    var mid := Passed(g, lin, true);
    PassImproves(g, lin, true);
    PassImproves(g, mid, false);
    if AtMostOneChild(g) {
      PassTreeOptimal(g, mid, false);
    } else {
      PassTreeOptimal(g, lin, true);
      forall other | IsLinearization(g, other) && Topological(g, other)
        ensures AtLeast(FeesOf(g), Passed(g, mid, false), other)
      {
        AtLeastTrans(FeesOf(g), Passed(g, mid, false), mid, other);
      }
    }
  }

  // ---- A leaf moved to the end

  /** State of a pass over t and then b, when b does not depend on t: t stays in a group of its own,
      and the rest of the order is at least as good as b. */
  ghost predicate Aside(f: Fees, gs: seq<seq<nat>>, rest: seq<nat>, t: nat, b: seq<nat>) {
    && (forall c | c in gs :: c == [t] || Elems(c) <= Elems(b))
    && AtLeast(f, Keep(Flatten(gs) + rest, Elems(b)), b)
  }

  lemma AsideMerge(f: Fees, dep: Deps, gs: seq<seq<nat>>, k: nat, rest: seq<nat>, t: nat, b: seq<nat>)
    requires Aside(f, gs, rest, t, b) && 0 < k < |gs| && Elems(gs[k]) <= Elems(b)
    requires DepsOf(dep, Elems(gs[k])) * Elems(gs[k-1]) != {} && forall x | x in Elems(b) :: t !in dep(x)
    ensures k <= |Merged(gs, k)| && Aside(f, Merged(gs, k), rest, t, b) && Elems(Merged(gs, k)[k-1]) <= Elems(b)
  {
    hide Flatten, AtLeast, Keep, Merged;
    SplitGroups(gs, k);
    MergedIndex(gs, k);
    var p, c := gs[k-1], gs[k];
    assert p in gs;
    NeededIsNotAlone(dep, Elems(c), p, t);
    ElemsConcat(p, c);
    forall x | x in Merged(gs, k) ensures x == [t] || Elems(x) <= Elems(b) { MergedMember(gs, k, x); }
  }

  lemma NeededIsNotAlone(dep: Deps, c: set<nat>, p: seq<nat>, t: nat)
    requires DepsOf(dep, c) * Elems(p) != {} && forall x | x in c :: t !in dep(x)
    ensures p != [t]
  {
    var d :| d in DepsOf(dep, c) * Elems(p);
    assert p == [t] ==> d == t;
  }

  lemma AsideSwap(f: Fees, gs: seq<seq<nat>>, k: nat, rest: seq<nat>, t: nat, b: seq<nat>)
    requires Aside(f, gs, rest, t, b) && 0 < k < |gs| && Elems(gs[k]) <= Elems(b) && t !in Elems(b)
    requires forall c | c in gs :: Sized(f, c) && Solid(f, c)
    requires Higher(Total(f, gs[k]), Total(f, gs[k-1]))
    ensures Aside(f, Swapped(gs, k), rest, t, b) && Swapped(gs, k)[k-1] == gs[k]
  {
    hide Flatten, AtLeast, Keep, Total, Solid, Elems, Sized;
    SplitGroups(gs, k);
    var p, c, ms := gs[k-1], gs[k], Swapped(gs, k);
    assert p in gs && c in gs;
    forall x | x in ms ensures x in gs { SwappedMember(gs, k, x); }
    var l, m := Flatten(gs[..k-1]), Flatten(gs[k+1..]);
    ConcatAssoc(l + (p + c), m, rest);
    ConcatAssoc(l + (c + p), m, rest);
    KeepSwap(f, l, p, c, m + rest, t, Elems(b));
    AtLeastTrans(f, Keep(Flatten(ms) + rest, Elems(b)), Keep(Flatten(gs) + rest, Elems(b)), b);
  }

  lemma SwappedMember(gs: seq<seq<nat>>, k: nat, x: seq<nat>)
    requires 0 < k < |gs| && x in Swapped(gs, k)
    ensures x in gs
  {
  }

  lemma KeepSwap(f: Fees, l: seq<nat>, p: seq<nat>, c: seq<nat>, m: seq<nat>, t: nat, all: set<nat>)
    requires Sized(f, p) && Sized(f, c) && Solid(f, p) && Solid(f, c) && Higher(Total(f, c), Total(f, p))
    requires t !in all && Elems(c) <= all && (p == [t] || Elems(p) <= all)
    ensures AtLeast(f, Keep(l + (c + p) + m, all), Keep(l + (p + c) + m, all))
  {
    hide Keep, Total, Solid, Sized, Peak, Higher;
    KeepFour(l, p, c, m, all);
    KeepFour(l, c, p, m, all);
    KeepAll(c, all);
    if p == [t] {
      assert Elems(p) == {t};
      KeepNone(p, all);
      assert c + [] == c == [] + c;
      SameAtLeast(f, Keep(l, all) + c + Keep(m, all));
    } else {
      KeepAll(p, all);
      SwapAround(f, Keep(l, all), p, c, Keep(m, all));
    }
  }

  lemma KeepFour(l: seq<nat>, p: seq<nat>, c: seq<nat>, m: seq<nat>, all: set<nat>)
    ensures Keep(l + (p + c) + m, all) == Keep(l, all) + (Keep(p, all) + Keep(c, all)) + Keep(m, all)
  {
    hide Keep;
    KeepConcat(l + (p + c), m, all);
    KeepConcat(l, p + c, all);
    KeepConcat(p, c, all);
  }

  lemma SameAtLeast(f: Fees, s: seq<nat>)
    ensures AtLeast(f, s, s)
  {
  }

  lemma {:induction false} SettledAside(f: Fees, dep: Deps, gs: seq<seq<nat>>, k: nat, rest: seq<nat>, more: seq<nat>,
                                       start: seq<nat>, t: nat, b: seq<nat>)
    requires Good(f, dep, gs, more, start) && k < |gs| && DescendingBut(f, gs, k) && Aside(f, gs, rest, t, b)
    requires Elems(gs[k]) <= Elems(b) && t !in Elems(b) && forall x | x in Elems(b) :: t !in dep(x)
    ensures Aside(f, Settled(f, dep, gs, k), rest, t, b)
    decreases k
  {
    hide Good, DescendingBut, Total, Settled, Merged, Swapped, DepsOf, Higher, Aside;
    SettledStep(f, dep, gs, k);
    if k == 0 || !Higher(Total(f, gs[k]), Total(f, gs[k-1])) {
    } else if DepsOf(dep, Elems(gs[k])) * Elems(gs[k-1]) != {} {
      AsideMerge(f, dep, gs, k, rest, t, b);
      GoodMerge(f, dep, gs, k, more, start);
      SettledAside(f, dep, Merged(gs, k), k - 1, rest, more, start, t, b);
    } else {
      GoodGroups(f, dep, gs, more, start);
      AsideSwap(f, gs, k, rest, t, b);
      GoodSwap(f, dep, gs, k, more, start);
      SettledAside(f, dep, Swapped(gs, k), k - 1, rest, more, start, t, b);
    }
  }

  lemma {:induction false} GroupedAside(f: Fees, dep: Deps, s: seq<nat>, rest: seq<nat>, a: seq<nat>,
                                       start: seq<nat>, t: nat, b: seq<nat>)
    requires t !in Elems(b) && Elems(rest) <= Elems(b) && forall x | x in Elems(b) :: t !in dep(x)
    requires var gs := Grouped(f, dep, s);
             Good(f, dep, gs, rest + a, start) && DescendingBut(f, gs, |gs|) && Aside(f, gs, rest, t, b)
    ensures var ms := Grouped(f, dep, s + rest);
            Good(f, dep, ms, a, start) && DescendingBut(f, ms, |ms|) && Aside(f, ms, [], t, b)
    decreases |rest|
  {
    hide Good, DescendingBut, Grouped, Settled, Aside, Flatten;
    if rest == [] {
      assert s + rest == s && rest + a == a;
    } else {
      var x, more := rest[0], rest[1..];
      FirstAndRest(s, rest, a);
      var gs := Grouped(f, dep, s);
      GoodAppend(f, dep, gs, x, more + a, start);
      AsideAppend(f, gs, x, more, t, b);
      assert (gs + [[x]])[|gs|] == [x] && Elems([x]) == {x};
      SettledAside(f, dep, gs + [[x]], |gs|, more, more + a, start, t, b);
      SettledGood(f, dep, gs + [[x]], |gs|, more + a, start);
      GroupedAppend(f, dep, s, x);
      GroupedAside(f, dep, s + [x], more, a, start, t, b);
    }
  }

  lemma FirstAndRest(s: seq<nat>, rest: seq<nat>, a: seq<nat>)
    requires rest != []
    ensures var x, more := rest[0], rest[1..];
            && rest == [x] + more && rest + a == [x] + (more + a) && s + rest == s + [x] + more
            && x in Elems(rest) && Elems(more) <= Elems(rest)
  {
  }

  lemma AsideAppend(f: Fees, gs: seq<seq<nat>>, x: nat, more: seq<nat>, t: nat, b: seq<nat>)
    requires Aside(f, gs, [x] + more, t, b) && x in Elems(b)
    ensures Aside(f, gs + [[x]], more, t, b)
  {
    hide AtLeast, Keep, Flatten;
    FlattenConcat(gs, [[x]]);
    FlattenOne([x]);
    ConcatAssoc(Flatten(gs), [x], more);
    assert Elems([x]) == {x};
  }

  lemma {:induction false} KeptGains(f: Fees, gs: seq<seq<nat>>, t: nat, all: set<nat>, r: FeeFrac)
    requires Descend(f, gs) && Distinct(gs) && t !in all && r.size > 0
    requires forall c | c in gs :: c == [t] || Elems(c) <= all
    ensures Peak(f, Keep(Flatten(gs), all), r) + (if [t] in gs then Gain(f, [t], r) else 0) <= Gains(f, gs, r)
  {
    if gs != [] {
      hide Peak, Total, Keep, Solid;
      var c, more := gs[0], gs[1..];
      assert c in gs;
      DescendTail(f, gs);
      DistinctTail(gs);
      KeptGains(f, more, t, all, r);
      KeepConcat(c, Flatten(more), all);
      if c == [t] {
        assert Elems(c) == {t};
        KeepNone(c, all);
        assert [] + Keep(Flatten(more), all) == Keep(Flatten(more), all);
      } else {
        KeepAll(c, all);
        SolidPeak(f, c, r);
        PeakConcat(f, c, Keep(Flatten(more), all), r);
        PeakNonNegative(f, Keep(Flatten(more), all), r);
      }
    }
  }

  lemma DistinctTail(gs: seq<seq<nat>>)
    requires Distinct(gs) && gs != []
    ensures Distinct(gs[1..]) && (gs[0] != [] ==> gs[0] !in gs[1..])
  {
    if gs[0] != [] {
      assert gs[0][0] in Elems(gs[0]);
      assert forall i | 0 < i < |gs| :: gs[0][0] !in Elems(gs[i]);
    }
  }

  lemma {:induction false} InSomeGroup(gs: seq<seq<nat>>, x: nat)
    requires x in Flatten(gs)
    ensures exists c :: c in gs && x in c
  {
    if x in gs[0] {
      assert gs[0] in gs;
    } else {
      InSomeGroup(gs[1..], x);
      var c :| c in gs[1..] && x in c;
      assert c in gs;
    }
  }

  lemma AsideEnd(f: Fees, gs: seq<seq<nat>>, t: nat, b: seq<nat>)
    requires Descend(f, gs) && NoDup(Flatten(gs)) && Aside(f, gs, [], t, b) && t !in Elems(b) && t in Flatten(gs)
    ensures AtLeast(f, Flatten(gs), b + [t])
  {
    InSomeGroup(gs, t);
    var c :| c in gs && t in c;
    assert t in Elems(c) && c == [t];
    DistinctGroups(gs);
    assert Flatten(gs) + [] == Flatten(gs);
    forall r: FeeFrac | r.size > 0 ensures Peak(f, Flatten(gs), r) >= Peak(f, b + [t], r) {
      hide Peak, Keep, Flatten, Total, Solid, Distinct, Gains, Descend;
      KeptGains(f, gs, t, Elems(b), r);
      GainsArePeak(f, gs, r);
      assert Peak(f, Keep(Flatten(gs), Elems(b)), r) >= Peak(f, b, r);
      PeakConcat(f, b, [t], r);
      TotalOne(f, t);
      PeakOne(f, t, r);
    }
  }

  /** A pass that meets t before b, where no order between them is called for, does at least as
      well as if t came after b. */
  lemma MovedPass(f: Fees, dep: Deps, t: nat, b: seq<nat>, a: seq<nat>)
    requires Sized(f, [t] + b + a) && NoDup([t] + b + a)
    requires Ordered(dep, [t] + b + a) && Ordered(dep, b + [t] + a)
    ensures AtLeast(f, Flatten(Grouped(f, dep, [t] + b + a)), b + [t] + a)
  {
    var start := [t] + b + a;
    MovedFacts(dep, t, b, a);
    FirstAside(f, dep, t, b, a);
    hide Good, DescendingBut, Grouped, Aside, Flatten, AtLeast, Ordered, NoDup, Elems;
    GroupedAside(f, dep, [t], b, a, start, t, b);
    var gs := Grouped(f, dep, [t] + b);
    GoodDescend(f, dep, gs, a, start);
    BackAgain(f, dep, gs, a, t, b);
    GroupedGood(f, dep, [t] + b, a, b + [t] + a);
    GoodAtLeast(f, dep, Grouped(f, dep, [t] + b + a), b + [t] + a);
  }

  lemma GoodAtLeast(f: Fees, dep: Deps, gs: seq<seq<nat>>, s: seq<nat>)
    requires Good(f, dep, gs, [], s)
    ensures AtLeast(f, Flatten(gs), s)
  {
    assert Flatten(gs) + [] == Flatten(gs);
  }

  lemma MovedFacts(dep: Deps, t: nat, b: seq<nat>, a: seq<nat>)
    requires NoDup([t] + b + a) && Ordered(dep, b + [t] + a)
    ensures t !in Elems(b) && t !in Elems(a) && forall x | x in Elems(b) :: t !in dep(x)
  {
    var s, u := [t] + b + a, b + [t] + a;
    forall i | 0 <= i < |b| ensures b[i] != t && t !in dep(b[i]) {
      assert s[0] == t && s[1 + i] == b[i] && u[i] == b[i] && u[|b|] == t;
    }
    forall i | 0 <= i < |a| ensures a[i] != t { assert s[0] == t && s[1 + |b| + i] == a[i]; }
  }

  lemma FirstAside(f: Fees, dep: Deps, t: nat, b: seq<nat>, a: seq<nat>)
    requires Sized(f, [t] + b + a) && NoDup([t] + b + a) && Ordered(dep, [t] + b + a) && t !in Elems(b)
    ensures var gs := Grouped(f, dep, [t]);
            Good(f, dep, gs, b + a, [t] + b + a) && DescendingBut(f, gs, |gs|) && Aside(f, gs, b, t, b)
  {
    hide AtLeast, Sized, NoDup, Ordered, Keep, Total;
    var start := [t] + b + a;
    StartGood(f, dep, start);
    ConcatAssoc([t], b, a);
    GoodAppend(f, dep, [], t, b + a, start);
    assert [] + [[t]] == [[t]] && [] + [t] == [t];
    GroupedAppend(f, dep, [], t);
    assert Grouped(f, dep, [t]) == [[t]];
    FlattenOne([t]);
    assert Elems([t]) == {t};
    KeepConcat([t], b, Elems(b));
    KeepNone([t], Elems(b));
    KeepAll(b, Elems(b));
    assert [] + b == b;
    SameAtLeast(f, b);
    assert DescendingBut(f, [[t]], 1);
  }

  /** At the end of b, the order so far is at least as good as b followed by t. */
  lemma BackAgain(f: Fees, dep: Deps, gs: seq<seq<nat>>, a: seq<nat>, t: nat, b: seq<nat>)
    requires Good(f, dep, gs, a, [t] + b + a) && Descend(f, gs) && NoDup(Flatten(gs)) && Aside(f, gs, [], t, b)
    requires t !in Elems(b) && t !in Elems(a) && NoDup([t] + b + a)
    ensures Good(f, dep, gs, a, b + [t] + a)
  {
    hide Flatten, Aside, Descend, AtLeast, Total, Ordered, Solid, Connected;
    var m, start, other := Flatten(gs), [t] + b + a, b + [t] + a;
    ElemsConcat(m, a);
    ElemsConcat([t] + b, a); ElemsConcat([t], b);
    ElemsConcat(b + [t], a); ElemsConcat(b, [t]);
    assert t in Elems([t]);
    assert t in m;
    AsideEnd(f, gs, t, b);
    RestTotal(f, m, [t] + b, a);
    TotalConcat(f, b, [t]);
    TotalConcat(f, [t], b);
    AtLeastSuffix(f, m, b + [t], a);
    assert Sized(f, other) by {
      forall x | x in other ensures f(x).size > 0 { assert x in Elems(other) && x in Elems(start) && x in start; }
    }
  }

  lemma RestTotal(f: Fees, m: seq<nat>, n: seq<nat>, a: seq<nat>)
    requires NoDup(m + a) && NoDup(n + a) && Elems(m + a) == Elems(n + a)
    ensures Total(f, m) == Total(f, n)
  {
    TotalIsSetTotal(f, m + a);
    TotalIsSetTotal(f, n + a);
    TotalConcat(f, m, a);
    TotalConcat(f, n, a);
  }

  /** h is g with the fee of t increased, or left as it is. */
  ghost predicate FeeRaised(g: Graph, h: Graph, t: nat) {
    && h.used == g.used && (forall i | i in g.used :: h.Anc(i) == g.Anc(i) && h.Desc(i) == g.Desc(i))
    && (forall i | i in g.used && i != t :: h.Fee(i) == g.Fee(i))
    && h.Fee(t).size == g.Fee(t).size && h.Fee(t).fee >= g.Fee(t).fee
  }

  lemma {:induction false} RaisedPeak(g: Graph, h: Graph, t: nat, s: seq<nat>, r: FeeFrac)
    requires FeeRaised(g, h, t) && Elems(s) <= g.used && r.size > 0
    ensures Peak(FeesOf(h), s, r) >= Peak(FeesOf(g), s, r)
    ensures Total(FeesOf(h), s).size == Total(FeesOf(g), s).size
  {
    if s != [] {
      RaisedPeak(g, h, t, s[1..], r);
      assert s[0] in Elems(s);
      hide Excess;
      ExcessRaised(h.Fee(s[0]), g.Fee(s[0]), r);
    }
  }

  lemma ExcessRaised(x: FeeFrac, y: FeeFrac, r: FeeFrac)
    requires x.size == y.size && x.fee >= y.fee && r.size > 0
    ensures Excess(x, r) >= Excess(y, r)
  {
    assert (x.fee - y.fee) * r.size >= 0;
  }

  lemma RaisedLinearization(g: Graph, h: Graph, t: nat, lin: seq<nat>)
    requires FeeRaised(g, h, t) && g.Valid() && h.Valid() && SizedGraph(g)
    requires IsLinearization(g, lin) && Topological(g, lin)
    ensures SizedGraph(h) && IsLinearization(h, lin) && Topological(h, lin)
  {
    forall i, j | 0 <= i < j < |lin| ensures lin[j] !in h.Anc(lin[i]) { assert lin[i] in Elems(lin); }
    forall i | i in h.used ensures h.Fee(i).size > 0 { assert g.Fee(i).size > 0; }
  }

  /** Moving a leaf to the end is allowed. */
  lemma LeafLast(g: Graph, a: seq<nat>, t: nat, b: seq<nat>)
    requires g.Valid() && IsLinearization(g, a + [t] + b) && Topological(g, a + [t] + b) && g.Desc(t) == {t}
    ensures IsLinearization(g, a + b + [t]) && Topological(g, a + b + [t])
  {
    var s, u := a + [t] + b, a + b + [t];
    forall i, j | 0 <= i < j < |u| ensures u[i] != u[j] && u[j] !in g.Anc(u[i]) {
      var i', j' := Origin(|a|, |u| - 1, i), Origin(|a|, |u| - 1, j);
      assert u[i] == s[i'] && u[j] == s[j'] && i' != j';
      assert u[i] in Elems(s) && u[j] in Elems(s);
      if j == |u| - 1 { LeafNotAncestor(g, t, u[i]); }
    }
    assert Elems(u) == Elems(s) by {
      ElemsConcat(a + [t], b); ElemsConcat(a, [t]);
      ElemsConcat(a + b, [t]); ElemsConcat(a, b);
    }
  }

  lemma LeafNotAncestor(g: Graph, t: nat, y: nat)
    requires g.Valid() && t in g.used && y in g.used && y != t && g.Desc(t) == {t}
    ensures t !in g.Anc(y)
  {
  }

  /** Where position i of a + b + [t] comes from in a + [t] + b. */
  function Origin(a: nat, last: nat, i: nat): nat { if i == last then a else if i < a then i else i + 1 }

  lemma MovedBackward(g: Graph, a: seq<nat>, t: nat, b: seq<nat>)
    requires g.Valid() && SizedGraph(g) && IsLinearization(g, a + [t] + b) && Topological(g, a + [t] + b)
    requires IsLinearization(g, a + b + [t]) && Topological(g, a + b + [t])
    ensures AtLeast(FeesOf(g), Passed(g, a + b + [t], true), a + [t] + b)
  {
    hide Graph.Valid, SizedGraph, AtLeast, Passed, Grouped, Flatten, IsLinearization, Topological;
    var f, dep := PassFees(g, true), PassDeps(g, true);
    var lin, moved := a + [t] + b, a + b + [t];
    PassOrderFacts(g, lin, true);
    PassOrderFacts(g, moved, true);
    ReverseParts(a, t, b);
    MovedPass(f, dep, t, Reverse(b), Reverse(a));
    var m := Flatten(Grouped(f, dep, Reverse(moved)));
    PassedIs(g, moved, true);
    PassImproves(g, moved, true);
    ImprovedFacts(g, Reverse(m), moved);
    SameTotal(g, Reverse(m), lin);
    ReverseAtLeast(FeesOf(g), m, lin);
  }

  lemma ReverseParts(a: seq<nat>, t: nat, b: seq<nat>)
    ensures Reverse(a + b + [t]) == [t] + Reverse(b) + Reverse(a)
    ensures Reverse(a + [t] + b) == Reverse(b) + [t] + Reverse(a)
  {
  }

  /** Take a linearization, move a leaf t to its end, possibly increase the fee of t, and
      post-linearize: the diagram of the result is nowhere below that of the linearization before
      any of this. */
  lemma MovedLeaf(g: Graph, h: Graph, a: seq<nat>, t: nat, b: seq<nat>, x: real)
    requires g.Valid() && h.Valid() && SizedGraph(g) && FeeRaised(g, h, t) && g.Desc(t) == {t}
    requires IsLinearization(g, a + [t] + b) && Topological(g, a + [t] + b)
    requires 0.0 <= x <= Total(FeesOf(g), a + [t] + b).size as real
    ensures Height(ChunkRates(FeesOf(h), PostLinearized(h, a + b + [t])),
      x) >= Height(ChunkRates(FeesOf(g), a + [t] + b), x)
  {
    hide Graph.Valid, FeeRaised, Total, Peak, Height, ChunkRates, Passed, Topological;
    var lin, moved, f := a + [t] + b, a + b + [t], FeesOf(h);
    LeafLast(g, a, t, b);
    RaisedLinearization(g, h, t, lin);
    RaisedLinearization(g, h, t, moved);
    MovedBackward(h, a, t, b);
    var mid := Passed(h, moved, true);
    PassImproves(h, moved, true);
    PassImproves(h, mid, false);
    var m := Passed(h, mid, false);
    AtLeastTrans(f, m, mid, lin);
    forall r: FeeFrac | r.size > 0 ensures Peak(f, m, r) >= Peak(FeesOf(g), lin, r) {
      RaisedPeak(g, h, t, lin, r);
    }
    RaisedPeak(g, h, t, lin, FeeFrac(0, 1));
    SameTotal(h, m, lin);
    SizedLinearization(g, lin);
    SizedLinearization(h, m);
    PeaksGiveHeight(f, m, FeesOf(g), lin, x);
  }

  lemma SizedLinearization(g: Graph, lin: seq<nat>)
    requires SizedGraph(g) && IsLinearization(g, lin)
    ensures Sized(FeesOf(g), lin)
  {
    forall x | x in lin ensures g.Fee(x).size > 0 { assert x in Elems(lin); }
  }
}

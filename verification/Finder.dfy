/** The two candidate finders of src/cluster_linearize.h: the search on a copy of the graph sorted
    by feerate, and the best remaining ancestor set. */
module Finders {
  import opened FeeFracs
  import opened TxSets
  import opened DepGraphs
  import opened Linearizations
  import opened Chunkings
  import opened Searching
  import opened Integers

  // ---- A set and its renaming have the same feerate and the same closed subsets

  lemma {:induction false} ImageRate(g: Graph, h: Graph, m: seq<nat>, s: set<nat>)
    requires g.Valid() && IsRemap(g, h, m) && OneToOne(m, g.used) && s <= g.used
    ensures RateOf(h, Image(m, s)) == RateOf(g, s)
  {
    if s != {} {
      var x := First(s);
      ImageRate(g, h, m, s - {x});
      assert x < |m| && m[x] in Image(m, s);
      assert Image(m, s) - {m[x]} == Image(m, s - {x});
      SetTotalTake(FeesOf(h), Image(m, s), m[x]);
    }
  }

  lemma ImageSubset(m: seq<nat>, used: set<nat>, s: set<nat>, t: set<nat>)
    requires OneToOne(m, used) && s <= used && t <= used && forall i | i in used :: i < |m|
    ensures Image(m, s) <= Image(m, t) <==> s <= t
    ensures s == {} <==> Image(m, s) == {}
  {
    if Image(m, s) <= Image(m, t) {
      forall x | x in s ensures x in t { assert m[x] in Image(m, t); }
    }
    if s != {} {
      var x :| x in s;
      assert m[x] in Image(m, s);
    }
  }

  lemma ImageClosed(g: Graph, h: Graph, m: seq<nat>, todo: set<nat>, s: set<nat>)
    requires g.Valid() && IsRemap(g, h, m) && OneToOne(m, g.used) && s <= g.used && todo <= g.used
    ensures Closed(g, todo, s) <==> Closed(h, Image(m, todo), Image(m, s))
  {
    GraphBounds(g);
    ImageSubset(m, g.used, s, todo);
    if Closed(g, todo, s) {
      forall y, b | y in Image(m, s) && b in h.Anc(y) * Image(m, todo) ensures b in Image(m, s) {
        var x :| x in s && x < |m| && m[x] == y;
        assert b in Image(m, g.Anc(x));
      }
    }
    if Closed(h, Image(m, todo), Image(m, s)) {
      forall x, a | x in s && a in g.Anc(x) * todo ensures a in s {
        assert m[x] in Image(m, s) && m[a] in Image(m, g.Anc(x)) && m[a] in Image(m, todo);
        assert m[a] in h.Anc(m[x]) * Image(m, todo);
      }
    }
  }

  // ---- Sorting by feerate

  /** Better individual feerate first, then lower index. */
  predicate FeeBefore(g: Graph, a: nat, b: nat) {
    Better(g.Fee(a), g.Fee(b)) || (g.Fee(a) == g.Fee(b) && a < b)
  }

  lemma FeeBeforeTotal(g: Graph, a: nat, b: nat, c: nat)
    requires g.Fee(a).size > 0 && g.Fee(b).size > 0 && g.Fee(c).size > 0
    ensures a != b ==> FeeBefore(g, a, b) || FeeBefore(g, b, a)
    ensures FeeBefore(g, a, b) && FeeBefore(g, b, c) ==> FeeBefore(g, a, c)
    ensures FeeBefore(g, a, b) ==> !Higher(g.Fee(b), g.Fee(a))
  {
    BetterNotLower(g.Fee(a), g.Fee(b), g.Fee(c));
    var x, y := g.Fee(a), g.Fee(b);
    if x.fee * y.size == y.fee * x.size && x.size == y.size {
      assert (x.fee - y.fee) * x.size == 0;
    }
  }

  /** The positions of g in the order of FeeBefore (std::sort is taken as selecting the first of what
      is left; the order is total, so the result is the same). */
  method SortByFeerate(g: Graph) returns (order: seq<nat>)
    requires SizedGraph(g)
    ensures NoDup(order) && Elems(order) == g.used
      && forall i, j | 0 <= i < j < |order| :: FeeBefore(g, order[i], order[j])
    ensures forall i, j | 0 <= i < j < |order| && g.Fee(order[i]) == g.Fee(order[j]) :: order[i] < order[j]
  {
    order := [];
    var todo := g.used;
    while todo != {}
      invariant todo <= g.used && NoDup(order) && Elems(order) == g.used - todo
      invariant forall i, j | 0 <= i < j < |order| :: FeeBefore(g, order[i], order[j])
      invariant forall i, y | 0 <= i < |order| && y in todo :: FeeBefore(g, order[i], y)
    {
      hide FeeBefore, SizedGraph;
      var m := FirstByFeerate(g, todo);
      assert forall i | 0 <= i < |order| :: order[i] in Elems(order);
      assert Elems(order + [m]) == Elems(order) + {m};
      order, todo := order + [m], todo - {m};
    }
  }

  method FirstByFeerate(g: Graph, s: set<nat>) returns (m: nat)
    requires SizedGraph(g) && s <= g.used && s != {}
    ensures m in s && forall y | y in s && y != m :: FeeBefore(g, m, y)
  {
    m := First(s);
    var todo := s - {m};
    while todo != {}
      invariant m in s && todo <= s && m !in todo
      invariant forall y | y in s && y !in todo && y != m :: FeeBefore(g, m, y)
    {
      var x := First(todo);
      FeeBeforeTotal(g, m, x, x);
      forall y | y in s ensures FeeBefore(g, x, m) && FeeBefore(g, m, y) ==> FeeBefore(g, x, y) {
        FeeBeforeTotal(g, x, m, y);
      }
      hide FeeBefore;
      if FeeBefore(g, x, m) { m := x; }
      todo := todo - {x};
    }
  }

  /** order lists used without repetition; back gives each member its place in it. */
  ghost predicate Inverse(order: seq<nat>, back: seq<nat>, used: set<nat>) {
    && NoDup(order) && Elems(order) == used
    && (forall i | 0 <= i < |order| :: order[i] < |back| && back[order[i]] == i)
  }

  method Invert(order: seq<nat>, n: nat) returns (back: seq<nat>)
    requires NoDup(order) && forall i | 0 <= i < |order| :: order[i] < n
    ensures |back| == n && Inverse(order, back, Elems(order))
  {
    back := seq(n, _ => 0);
    for i := 0 to |order|
      invariant |back| == n && forall k | 0 <= k < i :: back[order[k]] == k
    {
      back := back[order[i] := i];
    }
  }

  lemma InverseFacts(order: seq<nat>, back: seq<nat>, used: set<nat>)
    requires Inverse(order, back, used)
    ensures OneToOne(back, used) && forall x | x in used :: x < |back| && back[x] < |order| && order[back[x]] == x
  {
    forall x | x in used ensures x < |back| && back[x] < |order| && order[back[x]] == x {
      assert x in Elems(order);
      var i :| 0 <= i < |order| && order[i] == x;
    }
  }

  /** Renaming there and back. */
  lemma ThereAndBack(order: seq<nat>, back: seq<nat>, used: set<nat>, s: set<nat>)
    requires Inverse(order, back, used)
    ensures s <= Image(back, used) ==> Image(order, s) <= used && Image(back, Image(order, s)) == s
    ensures s <= used ==> Image(order, Image(back, s)) == s
  {
    InverseFacts(order, back, used);
    if s <= Image(back, used) {
      forall p | p in s ensures p < |order| && order[p] in used && back[order[p]] == p {
        var x :| x in used && x < |back| && back[x] == p;
      }
      forall p | p in s ensures p in Image(back, Image(order, s)) {
        assert order[p] in Image(order, s);
      }
    }
    if s <= used {
      forall x | x in s ensures x in Image(order, Image(back, s)) {
        assert back[x] in Image(back, s);
      }
    }
  }

  /** A one-to-one mapping keeps the number of elements. */
  lemma {:induction false} ImageSize(m: seq<nat>, used: set<nat>, s: set<nat>)
    requires OneToOne(m, used) && s <= used && (forall i | i in s :: i < |m|)
    ensures |Image(m, s)| == |s|
    decreases |s|
  {
    if s == {} {
      assert Image(m, s) == {};
    } else {
      var i :| i in s;
      ImageSize(m, used, s - {i});
      assert Image(m, s) == Image(m, s - {i}) + {m[i]};
      assert m[i] !in Image(m, s - {i});
    }
  }

  class SearchCandidateFinder {
    ghost const depgraph: Graph
    const sortedToOriginal: seq<nat>
    const originalToSorted: seq<nat>
    const sortedDepgraph: Graph
    var todo: set<nat>  // what is left to do, in sorted positions

    /** What is left to do, in the positions of the original graph. */
    ghost function Remaining(): set<nat> reads this { Image(sortedToOriginal, todo) }

    ghost predicate Valid() reads this {
      && depgraph.Valid() && SizedGraph(depgraph) && sortedDepgraph.Valid() && Sorted(sortedDepgraph)
      && Inverse(sortedToOriginal, originalToSorted, depgraph.used)
      && IsRemap(depgraph, sortedDepgraph, originalToSorted) && todo <= sortedDepgraph.used
    }

    constructor (depgraph: Graph)
      requires depgraph.Valid() && SizedGraph(depgraph) && depgraph.Acyclic()
      ensures Valid() && this.depgraph == depgraph && Remaining() == depgraph.used
    {
      var order := SortByFeerate(depgraph);
      ElemsBounded(depgraph, order);
      var back := Invert(order, |depgraph.entries|);
      InverseFacts(order, back, depgraph.used);
      var g := new DepGraph.Remap(depgraph, back, |order|, |order|);
      SortedRemap(depgraph, g.View(), order, back);
      ThereAndBack(order, back, depgraph.used, depgraph.used);
      this.depgraph := depgraph;
      sortedToOriginal, originalToSorted := order, back;
      sortedDepgraph := g.View();
      todo := g.used;
    }

    predicate AllDone() reads this { todo == {} }

    /** Bounded search among the closed subsets of what remains, in original positions. */
    method FindCandidateSet(maxIterations: nat, best0: SetInfo) returns (best: SetInfo, iterations: nat)
      requires Valid() && !AllDone()
      requires best0 == SetInfo({}, EMPTY) || BestOk(depgraph, Remaining(), best0)
      ensures BestOk(depgraph, Remaining(), best) && (best0.transactions != {} ==> NoWorse(best, best0))
      ensures iterations <= maxIterations
      ensures iterations < maxIterations ==> Optimal(depgraph, Remaining(), best.transactions)
      ensures iterations < Pow2(|Remaining()|)
    {
      hide *;
      ValidFacts();
      ImageSize(originalToSorted, depgraph.used, Remaining());
      ghost var rem := Remaining();
      var start := best0.(transactions := Image(originalToSorted, best0.transactions));
      StartOk(depgraph, sortedDepgraph, originalToSorted, rem, todo, best0);
      var found;
      ghost var queues;
      found, iterations, queues := FindSorted(sortedDepgraph, todo, maxIterations, start);
      best := found.(transactions := Image(sortedToOriginal, found.transactions));
      ResultOk(depgraph, sortedDepgraph, sortedToOriginal, originalToSorted, rem, todo, start, found, best0);
    }

    /** Remove a subset of what remains, given in original positions. */
    method MarkDone(done: set<nat>)
      requires Valid() && done <= Remaining()
      modifies this
      ensures Valid() && Remaining() == old(Remaining()) - done
    {
      ghost var rem := Remaining();
      ThereAndBack(sortedToOriginal, originalToSorted, depgraph.used, todo);
      InverseFacts(sortedToOriginal, originalToSorted, depgraph.used);
      ImageMinus(originalToSorted, depgraph.used, rem, done);
      ThereAndBack(sortedToOriginal, originalToSorted, depgraph.used, rem - done);
      todo := todo - Image(originalToSorted, done);
    }

    lemma DoneWhenNothingLeft()
      requires Valid()
      ensures AllDone() <==> Remaining() == {}
    {
      ThereAndBack(sortedToOriginal, originalToSorted, depgraph.used, todo);
      assert todo == {} ==> Image(sortedToOriginal, todo) == {};
    }

    lemma ValidFacts()
      requires Valid()
      ensures depgraph.Valid() && OneToOne(originalToSorted, depgraph.used)
        && Inverse(sortedToOriginal, originalToSorted, depgraph.used)
      ensures IsRemap(depgraph, sortedDepgraph, originalToSorted) && Remaining() <= depgraph.used
      ensures Image(originalToSorted, Remaining()) == todo && (!AllDone() ==> Searchable(sortedDepgraph, todo))
      ensures forall i | i in depgraph.used :: i < |originalToSorted|
    {
      InverseFacts(sortedToOriginal, originalToSorted, depgraph.used);
      ThereAndBack(sortedToOriginal, originalToSorted, depgraph.used, todo);
      RemapSized(depgraph, sortedDepgraph, originalToSorted);
    }
  }

  lemma ElemsBounded(g: Graph, order: seq<nat>)
    requires g.Valid() && Elems(order) == g.used
    ensures forall i | 0 <= i < |order| :: order[i] < |g.entries|
  {
    forall i | 0 <= i < |order| ensures order[i] < |g.entries| { assert order[i] in Elems(order); }
  }

  lemma RemapSized(g: Graph, h: Graph, m: seq<nat>)
    requires SizedGraph(g) && IsRemap(g, h, m)
    ensures SizedGraph(h)
  {
    forall y | y in h.used ensures h.Fee(y).size > 0 {
      var x :| x in g.used && x < |m| && m[x] == y;
    }
  }

  lemma SortedRemap(g: Graph, h: Graph, order: seq<nat>, back: seq<nat>)
    requires g.Valid() && SizedGraph(g) && IsRemap(g, h, back) && Inverse(order, back, g.used)
    requires forall i, j | 0 <= i < j < |order| :: FeeBefore(g, order[i], order[j])
    ensures Sorted(h)
  {
    InverseFacts(order, back, g.used);
    forall p, q | p in h.used && q in h.used && p < q ensures !Higher(h.Fee(q), h.Fee(p)) {
      var x :| x in g.used && x < |back| && back[x] == p;
      var y :| y in g.used && y < |back| && back[y] == q;
      FeeBeforeTotal(g, x, y, y);
    }
  }

  lemma ImageMinus(m: seq<nat>, used: set<nat>, a: set<nat>, b: set<nat>)
    requires OneToOne(m, used) && a <= used && b <= a && forall i | i in used :: i < |m|
    ensures Image(m, a) - Image(m, b) == Image(m, a - b)
  {
  }

  lemma StartOk(g: Graph, h: Graph, m: seq<nat>, rem: set<nat>, todo: set<nat>, best0: SetInfo)
    requires g.Valid() && IsRemap(g, h, m) && OneToOne(m, g.used) && rem <= g.used && todo == Image(m, rem)
    requires best0 == SetInfo({}, EMPTY) || BestOk(g, rem, best0)
    ensures var start := best0.(transactions := Image(m, best0.transactions));
            && (start == SetInfo({}, EMPTY) || BestOk(h, todo, start))
            && (best0.transactions != {} ==> start.transactions != {}) && best0.transactions <= g.used
  {
    GraphBounds(g);
    if best0 != SetInfo({}, EMPTY) {
      ImageRate(g, h, m, best0.transactions);
      ImageSubset(m, g.used, best0.transactions, rem);
      ImageClosed(g, h, m, rem, best0.transactions);
    }
  }

  lemma ResultOk(g: Graph, h: Graph, order: seq<nat>, m: seq<nat>, rem: set<nat>, todo: set<nat>, start: SetInfo,
                 found: SetInfo, best0: SetInfo)
    requires g.Valid() && IsRemap(g, h, m) && OneToOne(m, g.used) && Inverse(order, m, g.used)
    requires rem <= g.used && todo == Image(m, rem) && BestOk(h, todo, found)
    requires start == best0.(transactions := Image(m, best0.transactions)) && best0.transactions <= g.used
    requires best0.transactions != {} ==> NoWorse(found, start)
    ensures var best := found.(transactions := Image(order, found.transactions));
            && BestOk(g, rem, best) && (best0.transactions != {} ==> NoWorse(best, best0))
            && (Optimal(h, todo, found.transactions) ==> Optimal(g, rem, best.transactions))
  {
    GraphBounds(g);
    var s := Image(order, found.transactions);
    ImageSubset(m, g.used, rem, g.used);
    ThereAndBack(order, m, g.used, found.transactions);
    ThereAndBack(order, m, g.used, best0.transactions);
    ImageRate(g, h, m, s);
    ImageSubset(m, g.used, s, rem);
    ImageClosed(g, h, m, rem, s);
    if Optimal(h, todo, found.transactions) {
      forall x: set<nat> | x != {} && Closed(g, rem, x) ensures !Higher(RateOf(g, x), RateOf(g, s)) {
        ImageRate(g, h, m, x);
        ImageSubset(m, g.used, x, rem);
        ImageClosed(g, h, m, rem, x);
      }
    }
  }

  // ---- Ancestor sets

  class AncestorCandidateFinder {
    const depgraph: Graph
    var todo: set<nat>
    var feerates: seq<FeeFrac>  // of the remaining ancestor set of every transaction left to do

    ghost predicate Valid() reads this {
      && depgraph.Valid() && SizedGraph(depgraph) && todo <= depgraph.used && |feerates| == |depgraph.entries|
      && forall i | i in todo && i < |feerates| :: feerates[i] == RateOf(depgraph, AncTodo(depgraph, todo, i))
    }

    constructor (depgraph: Graph)
      requires depgraph.Valid() && SizedGraph(depgraph)
      ensures Valid() && this.depgraph == depgraph && todo == depgraph.used
    {
      var rates := AncestorRates(depgraph);
      forall i | i in depgraph.used && i < |rates|
        ensures rates[i] == RateOf(depgraph, AncTodo(depgraph, depgraph.used, i)) {
        AllAncestors(depgraph, i);
      }
      this.depgraph := depgraph;
      todo := depgraph.used;
      feerates := rates;
    }

    /** Take transactions out: every remaining descendant loses their feerate. */
    method MarkDone(select: set<nat>)
      requires Valid() && select <= todo
      modifies this
      ensures Valid() && todo == old(todo) - select
    {
      ghost var before := todo;
      todo := todo - select;
      var rest := select;
      assert todo + rest == before;
      while rest != {}
        invariant rest <= select && todo == before - select && |feerates| == |depgraph.entries|
        invariant forall j | j in todo && j < |feerates| ::
          feerates[j] == RateOf(depgraph, AncTodo(depgraph, todo + rest, j))
      {
        var i := First(rest);
        feerates := SubtractFrom(depgraph, feerates, i, depgraph.Desc(i) * todo);
        forall j | j in todo && j < |feerates|
          ensures feerates[j] == RateOf(depgraph, AncTodo(depgraph, todo + (rest - {i}), j)) {
          LoseAncestor(depgraph, todo, rest, i, j);
        }
        rest := rest - {i};
      }
      assert todo + rest == todo;
    }

    /** The remaining ancestor set of highest feerate, the smallest of those in case of a tie. */
    method FindCandidateSet() returns (best: SetInfo)
      requires Valid() && todo != {}
      ensures BestOk(depgraph, todo, best)
      ensures exists t :: t in todo && best.transactions == AncTodo(depgraph, todo, t)
      ensures forall t | t in todo :: !Better(RateOf(depgraph, AncTodo(depgraph, todo, t)), best.feerate)
    {
      GraphBounds(depgraph);
      forall t | t in todo ensures feerates[t].size > 0 { AncestorSetSized(depgraph, todo, t); }
      var b := BestAncestor(depgraph, todo, feerates);
      AncTodoClosed(depgraph, todo, b);
      best := SetInfo(AncTodo(depgraph, todo, b), feerates[b]);
    }
  }

  /** The first of todo with the best feerate. */
  method BestAncestor(g: Graph, todo: set<nat>, feerates: seq<FeeFrac>) returns (b: nat)
    requires todo != {} && forall t | t in todo :: t < |feerates| && feerates[t].size > 0
    ensures b in todo && forall t | t in todo :: !Better(feerates[t], feerates[b])
  {
    b := First(todo);
    var rest := todo - {b};
    NotBetterThanItself(feerates[b]);
    while rest != {}
      invariant rest <= todo && b in todo
      invariant forall t | t in todo && t !in rest :: !Better(feerates[t], feerates[b])
    {
      var i := First(rest);
      if Better(feerates[i], feerates[b]) {
        NotBetterThanItself(feerates[i]);
        forall t | t in todo && t !in rest ensures !Better(feerates[t], feerates[i]) {
          BetterNotLower(feerates[t], feerates[i], feerates[b]);
        }
        b := i;
      }
      rest := rest - {i};
    }
  }

  /** The feerates of all ancestor sets. */
  method AncestorRates(g: Graph) returns (feerates: seq<FeeFrac>)
    requires g.Valid()
    ensures |feerates| == |g.entries| && forall j | j in g.used && j < |feerates| :: feerates[j] == RateOf(g, g.Anc(j))
  {
    feerates := seq(|g.entries|, _ => EMPTY);
    var rest := g.used;
    GraphBounds(g);
    hide RateOf;
    while rest != {}
      invariant rest <= g.used && |feerates| == |g.entries|
      invariant forall j | j in g.used && j !in rest && j < |feerates| :: feerates[j] == RateOf(g, g.Anc(j))
    {
      var i := First(rest);
      var rate := AncestorRate(g, feerates, i, rest);
      feerates := feerates[i := rate];
      rest := rest - {i};
    }
  }

  lemma NotBetterThanItself(a: FeeFrac)
    ensures !Better(a, a)
  {
  }

  lemma AncestorSetSized(g: Graph, todo: set<nat>, t: nat)
    requires g.Valid() && SizedGraph(g) && todo <= g.used && t in todo
    ensures RateOf(g, AncTodo(g, todo, t)).size > 0
  {
    AncTodoClosed(g, todo, t);
    RatePositive(g, AncTodo(g, todo, t));
  }

  lemma AllAncestors(g: Graph, i: nat)
    requires g.Valid() && i in g.used
    ensures AncTodo(g, g.used, i) == g.Anc(i)
  {
  }

  /** The aggregate feerate of the ancestors of i, reusing that of its first ancestor. */
  method AncestorRate(g: Graph, feerates: seq<FeeFrac>, i: nat, ghost rest: set<nat>) returns (rate: FeeFrac)
    requires g.Valid() && |feerates| == |g.entries| && i in rest && rest <= g.used
    requires forall j | j in g.used && j !in rest && j < |feerates| :: feerates[j] == RateOf(g, g.Anc(j))
    requires forall k | k in rest :: i <= k
    ensures rate == RateOf(g, g.Anc(i))
  {
    GraphBounds(g);
    var toAdd := g.Anc(i);
    rate := EMPTY;
    var first := First(toAdd);
    if first < i {
      rate := feerates[first];
      toAdd := toAdd - g.Anc(first);
      AncestorTransitive(g, i, first);
      SetTotalUnion(FeesOf(g), g.Anc(first), toAdd);
      assert g.Anc(first) + toAdd == g.Anc(i);
    }
    rate := rate.Plus(RateOf(g, toAdd));
  }

  method SubtractFrom(g: Graph, feerates: seq<FeeFrac>, i: nat, from: set<nat>) returns (out: seq<FeeFrac>)
    requires forall j | j in from :: j < |feerates|
    ensures |out| == |feerates|
    ensures forall j | 0 <= j < |out| :: out[j] == if j in from then feerates[j].Minus(g.Fee(i)) else feerates[j]
  {
    out := feerates;
    var rest := from;
    while rest != {}
      invariant rest <= from && |out| == |feerates|
      invariant forall j | 0 <= j < |out| ::
        out[j] == if j in from && j !in rest then feerates[j].Minus(g.Fee(i)) else feerates[j]
    {
      var j := First(rest);
      out := out[j := out[j].Minus(g.Fee(i))];
      rest := rest - {j};
    }
  }

  lemma LoseAncestor(g: Graph, todo: set<nat>, rest: set<nat>, i: nat, j: nat)
    requires g.Valid() && todo <= g.used && rest <= g.used && todo !! rest && i in rest && j in todo
    ensures RateOf(g, AncTodo(g, todo + (rest - {i}), j)) ==
            (var r := RateOf(g, AncTodo(g, todo + rest, j)); if j in g.Desc(i) then r.Minus(g.Fee(i)) else r)
  {
    var a, b := AncTodo(g, todo + rest, j), AncTodo(g, todo + (rest - {i}), j);
    if j in g.Desc(i) {
      assert i in a && a - {i} == b;
      SetTotalTake(FeesOf(g), a, i);
    } else {
      assert i !in g.Anc(j);
      assert a == b;
    }
  }
}

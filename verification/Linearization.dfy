/** Linearizations of a dependency graph, topological validity, and the step every improvement
    relies on: moving a subset to the front. */
module Linearizations {
  import opened FeeFracs
  import opened Diagram
  import opened TxSets
  import opened DepGraphs

  function FeesOf(g: Graph): Fees { (i: nat) => g.Fee(i) }

  /** Every transaction has positive size (an empty FeeFrac stands for "no transactions"). */
  ghost predicate SizedGraph(g: Graph) { forall i | i in g.used :: g.Fee(i).size > 0 }

  ghost predicate IsLinearization(g: Graph, s: seq<nat>) { NoDup(s) && Elems(s) == g.used }

  /** Nothing precedes one of its ancestors. */
  ghost predicate Topological(g: Graph, s: seq<nat>) {
    forall i, j | 0 <= i < j < |s| :: s[j] !in g.Anc(s[i])
  }

  /** The diagram of the linearization is nowhere below that of any topological linearization. */
  ghost predicate IsOptimal(g: Graph, lin: seq<nat>) {
    forall other | IsLinearization(g, other) && Topological(g, other) :: AtLeast(FeesOf(g), lin, other)
  }

  /** s is topologically closed within todo. */
  ghost predicate Closed(g: Graph, todo: set<nat>, s: set<nat>) {
    s <= todo && forall x | x in s :: g.Anc(x) * todo <= s
  }

  type Deps = nat -> set<nat>

  /** Some dependency crosses every cut of s. */
  ghost predicate Connected(dep: Deps, s: set<nat>) {
    forall a: set<nat> | a < s && a != {} :: Crosses(dep, a, s - a)
  }

  ghost predicate Crosses(dep: Deps, a: set<nat>, b: set<nat>) {
    exists x, y :: x in a && y in b && (x in dep(y) || y in dep(x))
  }

  lemma TopologicalIsAcyclic(g: Graph, s: seq<nat>)
    requires g.Valid() && IsLinearization(g, s) && Topological(g, s)
    ensures g.Acyclic()
  {
    forall i | i in g.used ensures g.Anc(i) * g.Desc(i) == {i} {
      forall j | j in g.Anc(i) * g.Desc(i) ensures j == i {
        assert j in g.used && i in g.Anc(j);
        assert i in Elems(s) && j in Elems(s);
        var a :| 0 <= a < |s| && s[a] == i;
        var b :| 0 <= b < |s| && s[b] == j;
        assert a == b;
      }
    }
  }

  lemma PrefixClosed(g: Graph, s: seq<nat>, k: nat)
    requires Topological(g, s) && k <= |s|
    ensures Closed(g, Elems(s), Elems(s[..k]))
  {
    forall x, a | x in Elems(s[..k]) && a in g.Anc(x) * Elems(s) ensures a in Elems(s[..k]) {
      var i :| 0 <= i < k && s[i] == x;
      var j :| 0 <= j < |s| && s[j] == a;
      assert j <= i;
    }
  }

  lemma ClosedIntersection(g: Graph, todo: set<nat>, a: set<nat>, b: set<nat>)
    requires Closed(g, todo, a) && Closed(g, todo, b)
    ensures Closed(g, todo, a * b)
  {
  }

  /** A closed set in topological order, followed by the rest in topological order. */
  lemma ClosedThenRest(g: Graph, a: seq<nat>, b: seq<nat>)
    requires NoDup(a) && Topological(g, a) && NoDup(b) && Topological(g, b) && Elems(a) !! Elems(b)
    requires Closed(g, Elems(a) + Elems(b), Elems(a))
    ensures NoDup(a + b) && Elems(a + b) == Elems(a) + Elems(b) && Topological(g, a + b)
  {
    forall i, j | 0 <= i < j < |a + b|
      ensures (a + b)[i] != (a + b)[j] && (a + b)[j] !in g.Anc((a + b)[i])
    {
      var x, y := (a + b)[i], (a + b)[j];
      if j < |a| {
      } else if |a| <= i {
        assert x == b[i - |a|] && y == b[j - |a|];
      } else {
        assert x in Elems(a) && y in Elems(b);
      }
    }
  }

  // ---- Restricting an order to what remains

  /** The elements of s that are in todo, in order. */
  function Keep(s: seq<nat>, todo: set<nat>): seq<nat> {
    if s == [] then [] else (if s[0] in todo then [s[0]] else []) + Keep(s[1..], todo)
  }

  lemma {:induction false} KeepConcat(a: seq<nat>, b: seq<nat>, todo: set<nat>)
    ensures Keep(a + b, todo) == Keep(a, todo) + Keep(b, todo)
  {
    if a == [] {
      assert a + b == b;
    } else {
      assert (a + b)[0] == a[0] && (a + b)[1..] == a[1..] + b;
      KeepConcat(a[1..], b, todo);
      var head := if a[0] in todo then [a[0]] else [];
      assert Keep(a + b, todo) == head + Keep(a[1..] + b, todo);
      hide Keep;
      assert head + (Keep(a[1..], todo) + Keep(b, todo)) == head + Keep(a[1..], todo) + Keep(b, todo);
    }
  }

  lemma {:induction false} KeepElems(s: seq<nat>, todo: set<nat>)
    ensures Elems(Keep(s, todo)) == Elems(s) * todo
    ensures |Keep(s, todo)| <= |s|
  {
    if s != [] {
      KeepElems(s[1..], todo);
      var k := Keep(s[1..], todo);
      assert Elems(Keep(s, todo)) == (if s[0] in todo then {s[0]} else {}) + Elems(k);
      assert Elems(s) == {s[0]} + Elems(s[1..]);
    }
  }

  lemma {:induction false} KeepNoDup(s: seq<nat>, todo: set<nat>)
    requires NoDup(s)
    ensures NoDup(Keep(s, todo))
  {
    if s != [] {
      KeepNoDup(s[1..], todo);
      KeepElems(s[1..], todo);
      var k := Keep(s[1..], todo);
      forall j | 0 <= j < |k| ensures k[j] != s[0] {
        assert k[j] in Elems(k);
        assert k[j] in s[1..];
      }
    }
  }

  lemma {:induction false} KeepTopological(g: Graph, s: seq<nat>, todo: set<nat>)
    requires Topological(g, s)
    ensures Topological(g, Keep(s, todo))
  {
    if s != [] {
      KeepTopological(g, s[1..], todo);
      KeepElems(s[1..], todo);
      var k := Keep(s[1..], todo);
      forall j | 0 <= j < |k| ensures k[j] !in g.Anc(s[0]) {
        assert k[j] in Elems(k);
        var i :| 0 <= i < |s[1..]| && s[1..][i] == k[j];
        assert s[i + 1] == k[j];
      }
    }
  }

  lemma {:induction false} KeepAll(s: seq<nat>, todo: set<nat>)
    requires Elems(s) <= todo
    ensures Keep(s, todo) == s
  {
    if s != [] {
      assert s[0] in Elems(s);
      KeepAll(s[1..], todo);
    }
  }

  lemma {:induction false} KeepNone(s: seq<nat>, todo: set<nat>)
    requires Elems(s) !! todo
    ensures Keep(s, todo) == []
  {
    if s != [] {
      assert s[0] in Elems(s);
      KeepNone(s[1..], todo);
    }
  }

  lemma {:induction false} KeepKeep(s: seq<nat>, a: set<nat>, b: set<nat>)
    requires b <= a
    ensures Keep(Keep(s, a), b) == Keep(s, b)
  {
    if s != [] {
      KeepKeep(s[1..], a, b);
      KeepConcat(if s[0] in a then [s[0]] else [], Keep(s[1..], a), b);
    }
  }

  // ---- Moving a subset to the front

  /** The transactions of the first j pieces. */
  function FirstPieces(pieces: seq<seq<nat>>, j: nat): set<nat>
    requires j <= |pieces|
  {
    Elems(Flatten(pieces[..j]))
  }

  /** Whatever of s the first j chunks leave out has at least the feerate of t. */
  ghost predicate MayLead(f: Fees, pieces: seq<seq<nat>>, s: set<nat>, t: FeeFrac) {
    forall j | 0 <= j <= |pieces| ::
      var rest := s - FirstPieces(pieces, j);
      rest == {} || !Lower(SetTotal(f, rest), t)
  }

  /** The improvement guarantee: moving such a subset to the front of a linearization, in any
      order a, lowers its diagram nowhere. */
  lemma MoveToFront(f: Fees, l: seq<nat>, s: set<nat>, a: seq<nat>)
    requires NoDup(l) && Sized(f, l) && NoDup(a) && Elems(a) == s && s <= Elems(l)
    requires Chunking(f, l) != [] ==> MayLead(f, Chunking(f, l), s, Total(f, Chunking(f, l)[0]))
    ensures AtLeast(f, a + Keep(l, Elems(l) - s), l)
  {
    forall r: FeeFrac | r.size > 0 ensures Peak(f, a + Keep(l, Elems(l) - s), r) >= Peak(f, l, r) {
      MoveToFrontAt(f, l, s, a, r);
    }
  }

  lemma MayLeadLower(f: Fees, pieces: seq<seq<nat>>, s: set<nat>, t: FeeFrac, u: FeeFrac)
    requires SizedSet(f, s) && t.size > 0 && u.size > 0 && !Lower(t, u) && MayLead(f, pieces, s, t)
    ensures MayLead(f, pieces, s, u)
  {
    forall j | 0 <= j <= |pieces| && s - FirstPieces(pieces, j) != {}
      ensures !Lower(SetTotal(f, s - FirstPieces(pieces, j)), u)
    {
      var rest := s - FirstPieces(pieces, j);
      SetTotalPositive(f, rest);
      ExcessTransfer(SetTotal(f, rest), t, u);
    }
  }

  lemma FirstPiecesNext(pieces: seq<seq<nat>>, j: nat)
    requires j < |pieces|
    ensures FirstPieces(pieces, j + 1) == FirstPieces(pieces, j) + Elems(pieces[j])
  {
    assert pieces[..j+1] == pieces[..j] + [pieces[j]];
    FlattenConcat(pieces[..j], [pieces[j]]);
    FlattenOne(pieces[j]);
    ElemsConcat(Flatten(pieces[..j]), pieces[j]);
  }

  lemma FirstPiecesPrefix(pieces: seq<seq<nat>>, j: nat)
    requires j <= |pieces|
    ensures Flatten(pieces[..j]) <= Flatten(pieces)
    ensures j == |pieces| ==> FirstPieces(pieces, j) == Elems(Flatten(pieces))
  {
    assert pieces == pieces[..j] + pieces[j..];
    FlattenConcat(pieces[..j], pieces[j..]);
  }

  lemma PiecesDisjoint(pieces: seq<seq<nat>>, j: nat)
    requires j < |pieces| && NoDup(Flatten(pieces))
    ensures FirstPieces(pieces, j) !! Elems(pieces[j])
  {
    var a, b := Flatten(pieces[..j]), pieces[j];
    assert pieces == pieces[..j] + pieces[j..] && pieces[j..] == [pieces[j]] + pieces[j+1..];
    FlattenConcat(pieces[..j], pieces[j..]);
    var c := Flatten(pieces[j+1..]);
    assert Flatten(pieces) == a + (b + c);
    assert forall m | 0 <= m < |a| :: Flatten(pieces)[m] == a[m];
    assert forall n | 0 <= n < |b| :: Flatten(pieces)[|a| + n] == b[n];
  }

  /** What s keeps outside p, when the part inside p has a lower feerate than t and s has not. */
  lemma RestNotLower(f: Fees, s: set<nat>, p: set<nat>, t: FeeFrac)
    requires s * p == {} || Lower(SetTotal(f, s * p), t)
    requires !Lower(SetTotal(f, s), t)
    ensures s - p == {} || !Lower(SetTotal(f, s - p), t)
    ensures s * p != {} ==> s - p != {}
  {
    SetTotalSplit(f, s, p);
    if s * p == {} {
      assert forall x | x in s :: x !in s * p ==> x in s - p;
      assert s - p == s;
    } else {
      ExcessPlus(SetTotal(f, s * p), SetTotal(f, s - p), t);
    }
  }

  lemma MoveToFrontAt(f: Fees, l: seq<nat>, s: set<nat>, a: seq<nat>, r: FeeFrac)
    requires NoDup(l) && Sized(f, l) && NoDup(a) && Elems(a) == s && s <= Elems(l)
    requires Chunking(f, l) != [] ==> MayLead(f, Chunking(f, l), s, Total(f, Chunking(f, l)[0]))
    requires r.size > 0
    ensures Peak(f, a + Keep(l, Elems(l) - s), r) >= Peak(f, l, r)
  {
    var b := Keep(l, Elems(l) - s);
    PeakNonNegative(f, a + b, r);
    if Peak(f, l, r) > 0 {
      var head, tail := PeakPrefix(f, l, s, r);
      KeepConcat(head, tail, Elems(l) - s);
      var m := Keep(head, Elems(l) - s);
      LeadingPrefix(f, l, s, a, head, m);
      ExcessPlus(Total(f, head), SetTotal(f, s - Elems(head)), r);
      assert (a + b)[..|a + m|] == a + m;
      var _ := PeakIsMaximum(f, a + b, r);
    }
  }

  /** The prefix of l that reaches its peak leaves out a part of s that does not lower it. */
  lemma PeakPrefix(f: Fees, l: seq<nat>, s: set<nat>, r: FeeFrac) returns (head: seq<nat>, tail: seq<nat>)
    requires Sized(f, l) && s <= Elems(l) && r.size > 0 && Peak(f, l, r) > 0
    requires Chunking(f, l) != [] ==> MayLead(f, Chunking(f, l), s, Total(f, Chunking(f, l)[0]))
    ensures l == head + tail && Excess(Total(f, head), r) == Peak(f, l, r)
    ensures Excess(SetTotal(f, s - Elems(head)), r) >= 0
  {
    hide Total, Peak, SetTotal, Chunking, Solid, NonIncreasing, Excess, Elems;
    var p := Chunking(f, l);
    ChunkingIsChunking(f, l);
    SizedPieces(f, p);
    SomePiece(f, l, p, r);
    var j := PeakAtChunk(f, p, r);
    head, tail := Flatten(p[..j]), Flatten(p[j..]);
    assert p == p[..j] + p[j..];
    FlattenConcat(p[..j], p[j..]);
    RestAbove(f, l, p, s, j, r);
  }

  lemma SomePiece(f: Fees, l: seq<nat>, p: seq<seq<nat>>, r: FeeFrac)
    requires IsChunking(f, p, l) && Peak(f, l, r) > 0
    ensures p != [] && p[0] != []
  {
    if p != [] {
      assert Solid(f, p[0]);
    }
  }

  /** What the first j pieces leave of a set that may lead: it does not lower the diagram if they do not. */
  lemma RestAbove(f: Fees, l: seq<nat>, p: seq<seq<nat>>, s: set<nat>, j: nat, r: FeeFrac)
    requires Sized(f, l) && s <= Elems(l) && r.size > 0 && 0 < j <= |p| && Sized(f, p[0]) && p[0] != []
    requires MayLead(f, p, s, Total(f, p[0])) && Excess(Total(f, p[0]), r) >= 0
    ensures Excess(SetTotal(f, s - FirstPieces(p, j)), r) >= 0
  {
    var rest := s - FirstPieces(p, j);
    if rest == {} {
      assert SetTotal(f, rest) == EMPTY;
    } else {
      SetTotalPositive(f, rest);
      TotalPositive(f, p[0]);
      assert !Lower(SetTotal(f, rest), Total(f, p[0]));
      hide Total, SetTotal, FirstPieces;
      ExcessTransfer(SetTotal(f, rest), Total(f, p[0]), r);
    }
  }

  /** s followed by the rest of a prefix of l: the prefix plus what of s it leaves out. */
  lemma LeadingPrefix(f: Fees, l: seq<nat>, s: set<nat>, a: seq<nat>, head: seq<nat>, m: seq<nat>)
    requires NoDup(l) && NoDup(a) && Elems(a) == s && head <= l && m == Keep(head, Elems(l) - s)
    ensures Total(f, a + m) == Total(f, head).Plus(SetTotal(f, s - Elems(head)))
  {
    var h := Elems(head);
    PrefixElems(l, head, s);
    hide Total, SetTotal, Keep, Elems, NoDup;
    TotalConcat(f, a, m);
    TotalIsSetTotal(f, a);
    TotalIsSetTotal(f, head);
    KeptTotal(f, head, Elems(l) - s);
    SetTotalExchange(f, s, h);
  }

  lemma PrefixElems(l: seq<nat>, head: seq<nat>, s: set<nat>)
    requires NoDup(l) && head <= l
    ensures NoDup(head) && Elems(head) * (Elems(l) - s) == Elems(head) - s
  {
    assert forall x | x in head :: x in l;
  }

  lemma KeptTotal(f: Fees, l: seq<nat>, todo: set<nat>)
    requires NoDup(l)
    ensures Total(f, Keep(l, todo)) == SetTotal(f, Elems(l) * todo)
  {
    KeepNoDup(l, todo);
    KeepElems(l, todo);
    TotalIsSetTotal(f, Keep(l, todo));
  }

  // ---- AppendTopo

  /** Fewer ancestors first, then lower index. */
  predicate TopoLess(g: Graph, a: nat, b: nat) {
    |g.Anc(a)| < |g.Anc(b)| || (|g.Anc(a)| == |g.Anc(b)| && a < b)
  }

  /** Append the transactions of select to list, sorted by TopoLess (std::sort is taken as
      selecting the least of what is left; the order is total, so the result is the same). */
  method AppendTopo(g: Graph, list: seq<nat>, select: set<nat>) returns (out: seq<nat>, ghost order: seq<nat>)
    requires g.Valid() && g.Acyclic() && select <= g.used
    ensures out == list + order && NoDup(order) && Elems(order) == select && Topological(g, order)
    ensures forall i, j | 0 <= i < j < |order| :: TopoLess(g, order[i], order[j])
    ensures forall i, j | 0 <= i < j < |order| && |g.Anc(order[i])| == |g.Anc(order[j])| :: order[i] < order[j]
  {
    hide Graph.Valid, Graph.Acyclic, Topological;
    out := list;
    order := [];
    var todo := select;
    while todo != {}
      invariant todo <= select && out == list + order && Elems(order) == select - todo && NoDup(order)
      invariant forall i, j | 0 <= i < j < |order| :: TopoLess(g, order[i], order[j])
      invariant forall i, y | 0 <= i < |order| && y in todo :: TopoLess(g, order[i], y)
    {
      var m := LeastTopo(g, todo);
      assert forall i | 0 <= i < |order| :: order[i] in Elems(order);
      assert Elems(order + [m]) == Elems(order) + {m};
      out, order, todo := out + [m], order + [m], todo - {m};
    }
    assert todo == {} && Elems(order) == select;
    SortedIsTopological(g, order);
  }

  lemma SortedIsTopological(g: Graph, order: seq<nat>)
    requires g.Valid() && g.Acyclic() && Elems(order) <= g.used && NoDup(order)
    requires forall i, j | 0 <= i < j < |order| :: TopoLess(g, order[i], order[j])
    ensures Topological(g, order)
  {
    forall i, j | 0 <= i < j < |order| ensures order[j] !in g.Anc(order[i]) {
      assert order[i] in Elems(order) && order[j] in Elems(order);
      if order[j] in g.Anc(order[i]) { AncestorsLess(g, order[j], order[i]); }
    }
  }

  method LeastTopo(g: Graph, s: set<nat>) returns (m: nat)
    requires s != {}
    ensures m in s && forall y | y in s && y != m :: TopoLess(g, m, y)
  {
    m := First(s);
    var todo := s - {m};
    while todo != {}
      invariant m in s && todo <= s
      invariant forall y | y in s && y !in todo && y != m :: TopoLess(g, m, y)
    {
      var x := First(todo);
      if TopoLess(g, x, m) { m := x; }
      todo := todo - {x};
    }
  }
}

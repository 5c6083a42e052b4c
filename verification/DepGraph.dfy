/** Transaction dependency graphs: fee, size, ancestors and descendants of every transaction
    (DepGraph in src/cluster_linearize.h). Only ancestor and descendant sets are stored. */
module DepGraphs {
  import opened FeeFracs
  import opened TxSets

  datatype Entry = Entry(feerate: FeeFrac, ancestors: set<nat>, descendants: set<nat>)

  /** The value of a DepGraph. Positions outside used hold leftovers that nothing reads. */
  datatype Graph = Graph(entries: seq<Entry>, used: set<nat>) {
    function Anc(i: nat): set<nat> { if i < |entries| then entries[i].ancestors else {} }
    function Desc(i: nat): set<nat> { if i < |entries| then entries[i].descendants else {} }
    function Fee(i: nat): FeeFrac { if i < |entries| then entries[i].feerate else EMPTY }

    /** Ancestors form a reflexive and transitive relation on the used positions, and
        descendants its inverse. */
    ghost predicate Valid() {
      && (forall i | i in used :: i < |entries| && i in Anc(i) && Anc(i) <= used && Desc(i) <= used)
      && (forall i, j | i in used && j in used :: j in Anc(i) <==> i in Desc(j))
      && (forall i, j | i in used && j in Anc(i) :: Anc(j) <= Anc(i))
    }

    predicate Acyclic() { forall i | i in used :: Anc(i) * Desc(i) == {i} }
  }

  /** Ancestors of any of the transactions in s. */
  function AncOf(g: Graph, s: set<nat>): set<nat> { set p, a | p in s && a in g.Anc(p) :: a }

  /** The dependencies parents -> child added to those of g. */
  ghost predicate WithDependencies(g: Graph, h: Graph, parents: set<nat>, child: nat) {
    && h.used == g.used && |h.entries| == |g.entries|
    && (forall i | i in g.used :: h.Fee(i) == g.Fee(i))
    && (forall i | i in g.used ::
          h.Anc(i) == if child in g.Anc(i) then g.Anc(i) + AncOf(g, parents) else g.Anc(i))
  }

  /** Adding dependencies yields the least reflexive-transitive relation holding the old
      dependencies and the new ones: it is contained in every other such relation. */
  lemma WithDependenciesLeast(g: Graph, h: Graph, parents: set<nat>, child: nat, rel: set<(nat, nat)>)
    requires g.Valid() && child in g.used && parents <= g.used && WithDependencies(g, h, parents, child)
    requires forall i, a | i in g.used && a in g.Anc(i) :: (a, i) in rel
    requires forall p | p in parents :: (p, child) in rel
    requires forall a, b, c | (a, b) in rel && (b, c) in rel :: (a, c) in rel
    ensures forall i, a | i in g.used && a in h.Anc(i) :: (a, i) in rel
    ensures forall i, a | i in g.used && a in g.Anc(i) :: a in h.Anc(i)
    ensures forall p | p in parents :: p in h.Anc(child)
    ensures forall i, a | i in g.used && a in h.Anc(i) :: h.Anc(a) <= h.Anc(i)
  {
    forall i, a | i in g.used && a in h.Anc(i) ensures (a, i) in rel {
      if a !in g.Anc(i) {
        var p :| p in parents && a in g.Anc(p);
        assert (a, p) in rel && (p, child) in rel && (child, i) in rel;
      }
    }
    forall p | p in parents ensures p in h.Anc(child) { assert p in g.Anc(p); }
    forall i, a | i in g.used && a in h.Anc(i) ensures h.Anc(a) <= h.Anc(i) {
      forall b | b in h.Anc(a) ensures b in h.Anc(i) {
        if a in g.Anc(i) {
          assert g.Anc(a) <= g.Anc(i);
        } else {
          assert a in g.used;
        }
      }
    }
  }

  /** In an acyclic graph a proper ancestor has strictly fewer ancestors. */
  lemma AncestorsLess(g: Graph, a: nat, d: nat)
    requires g.Valid() && g.Acyclic() && a in g.used && d in g.used && a != d && a in g.Anc(d)
    ensures |g.Anc(a)| < |g.Anc(d)|
  {
    assert g.Anc(a) <= g.Anc(d);
    assert d in g.Anc(a) ==> a in g.Anc(d) * g.Desc(d);
    SubsetCard(g.Anc(a), g.Anc(d) - {d});
  }

  /** Everything in all is an ancestor of some member of parents. */
  ghost predicate CoveredBy(g: Graph, all: set<nat>, parents: set<nat>) {
    forall a | a in all :: exists p :: p in parents && a in g.Anc(p)
  }

  /** No member of parents is an ancestor of another one that is not in todo. */
  ghost predicate ApartBut(g: Graph, parents: set<nat>, todo: set<nat>) {
    forall p, q | p in parents && q in parents && q !in todo && p != q :: p !in g.Anc(q)
  }

  /** The minimal parents of i: none is an ancestor of another, and every other ancestor of i is an
      ancestor of one of them. */
  method GetReducedParents(g: Graph, i: nat) returns (parents: set<nat>)
    requires g.Valid() && i in g.used
    ensures parents <= g.Anc(i) - {i} && CoveredBy(g, g.Anc(i) - {i}, parents) && ApartBut(g, parents, {})
  {
    hide Graph.Valid, Graph.Anc, CoveredBy, ApartBut;
    var all := g.Anc(i) - {i};
    parents := all;
    SelfCovered(g, i, all);
    var todo := parents;
    while todo != {}
      invariant todo <= all && parents <= all && CoveredBy(g, all, parents) && ApartBut(g, parents, todo)
      decreases |todo|
    {
      var parent := First(todo);
      parents := ReduceOne(g, all, parents, todo, parent);
      todo := todo - {parent};
    }
  }

  method ReduceOne(g: Graph, all: set<nat>, parents: set<nat>, ghost todo: set<nat>, parent: nat)
    returns (fewer: set<nat>)
    requires g.Valid() && all <= g.used && parents <= all && CoveredBy(g, all, parents) && ApartBut(g, parents, todo)
    ensures fewer <= all && CoveredBy(g, all, fewer) && ApartBut(g, fewer, todo - {parent})
  {
    hide Graph.Valid, CoveredBy, ApartBut, Reduced;
    fewer := parents;
    ReduceApart(g, parents, todo, parent);
    if parent in parents {
      ReduceKeepsCover(g, all, parents, parent);
      fewer := Reduced(g, parents, parent);
    }
  }

  /** parents without the proper ancestors of parent. */
  function Reduced(g: Graph, parents: set<nat>, parent: nat): set<nat> { parents - g.Anc(parent) + {parent} }

  lemma ReduceApart(g: Graph, parents: set<nat>, todo: set<nat>, parent: nat)
    requires ApartBut(g, parents, todo)
    ensures ApartBut(g, if parent in parents then Reduced(g, parents, parent) else parents, todo - {parent})
  {
  }

  lemma SelfCovered(g: Graph, i: nat, s: set<nat>)
    requires g.Valid() && i in g.used && s == g.Anc(i) - {i}
    ensures s <= g.used && CoveredBy(g, s, s) && ApartBut(g, s, s)
  {
    forall a | a in s ensures exists p :: p in s && a in g.Anc(p) { assert a in g.Anc(a); }
  }

  lemma ReduceKeepsCover(g: Graph, all: set<nat>, parents: set<nat>, parent: nat)
    requires g.Valid() && parents <= g.used && parent in parents && CoveredBy(g, all, parents)
    ensures CoveredBy(g, all, Reduced(g, parents, parent)) && Reduced(g, parents, parent) <= parents
  {
    var fewer := Reduced(g, parents, parent);
    forall a | a in all ensures exists p :: p in fewer && a in g.Anc(p) {
      var p :| p in parents && a in g.Anc(p);
      if p in g.Anc(parent) {
        assert g.Anc(p) <= g.Anc(parent);
        assert parent in fewer && a in g.Anc(parent);
      } else {
        assert p in fewer && a in g.Anc(p);
      }
    }
  }

  // ---- Graphs with their positions renamed

  function Image(mapping: seq<nat>, s: set<nat>): set<nat> { set i | i in s && i < |mapping| :: mapping[i] }

  ghost predicate OneToOne(mapping: seq<nat>, s: set<nat>) {
    forall i, j | i in s && j in s && i < |mapping| && j < |mapping| && i != j :: mapping[i] != mapping[j]
  }

  /** h is g with each position i renamed to mapping[i]. */
  ghost predicate IsRemap(g: Graph, h: Graph, mapping: seq<nat>) {
    && |mapping| == |g.entries| && h.used == Image(mapping, g.used)
    && (forall i | i in g.used && i < |mapping| ::
          h.Fee(mapping[i]) == g.Fee(i) && h.Anc(mapping[i]) == Image(mapping, g.Anc(i)))
  }

  /** The renamed transactions, with no dependency that g does not have. */
  ghost predicate Within(g: Graph, h: Graph, mapping: seq<nat>) {
    && |mapping| == |g.entries| && h.used == Image(mapping, g.used)
    && (forall i | i in g.used && i < |mapping| ::
          h.Fee(mapping[i]) == g.Fee(i) && h.Anc(mapping[i]) <= Image(mapping, g.Anc(i)))
  }

  /** The dependencies of every member of done on some parents that cover its ancestors. */
  ghost predicate ParentsIn(g: Graph, h: Graph, mapping: seq<nat>, done: set<nat>) {
    forall i, a | i in done && a in g.Anc(i) && a != i :: HasParent(g, h, mapping, i, a)
  }

  ghost predicate HasParent(g: Graph, h: Graph, mapping: seq<nat>, i: nat, a: nat) {
    exists p ::
      p in g.Anc(i) && p != i && p < |mapping| && i < |mapping| && a in g.Anc(p) && mapping[p] in h.Anc(mapping[i])
  }

  lemma ImageAdd(mapping: seq<nat>, s: set<nat>, i: nat)
    requires i < |mapping|
    ensures Image(mapping, s + {i}) == Image(mapping, s) + {mapping[i]}
  {
  }

  lemma Isolated(g: Graph, h: Graph, mapping: seq<nat>)
    requires g.Valid() && |mapping| == |g.entries| && OneToOne(mapping, g.used) && h.used == Image(mapping, g.used)
    requires forall i | i in g.used ::
               mapping[i] < |h.entries| && h.entries[mapping[i]] == Entry(g.Fee(i), {mapping[i]}, {mapping[i]})
    ensures h.Valid() && Within(g, h, mapping) && ParentsIn(g, h, mapping, {})
  {
    assert forall x | x in h.used :: h.Anc(x) == {x} == h.Desc(x) && x < |h.entries|;
    forall i | i in g.used ensures h.Anc(mapping[i]) <= Image(mapping, g.Anc(i)) {
      assert i in g.Anc(i) && mapping[i] in Image(mapping, g.Anc(i));
    }
  }

  lemma ImageUsed(g: Graph, h: Graph, mapping: seq<nat>, s: set<nat>, i: nat)
    requires g.Valid() && |mapping| == |g.entries| && i in g.used && s <= g.Anc(i) && Within(g, h, mapping)
    ensures Image(mapping, s) <= h.used && mapping[i] in h.used
  {
    assert mapping[i] in Image(mapping, g.used);
  }

  lemma WithinAdded(g: Graph, h: Graph, h': Graph, mapping: seq<nat>, i: nat, reduced: set<nat>)
    requires g.Valid() && |mapping| == |g.entries| && OneToOne(mapping, g.used) && i in g.used
    requires h.Valid() && Within(g, h, mapping) && reduced <= g.Anc(i)
    requires WithDependencies(h, h', Image(mapping, reduced), mapping[i])
    ensures Within(g, h', mapping)
    ensures forall d | d in g.used && d < |mapping| :: h.Anc(mapping[d]) <= h'.Anc(mapping[d])
  {
    hide Graph.Valid;
    GraphBounds(g);
    forall d | d in g.used
      ensures h'.Anc(mapping[d]) <= Image(mapping, g.Anc(d)) && h.Anc(mapping[d]) <= h'.Anc(mapping[d])
        && h'.Fee(mapping[d]) == g.Fee(d)
    {
      NewAncestorsWithin(g, h, h', mapping, i, reduced, d);
      assert mapping[d] in h.used;
    }
  }

  lemma ParentsAdded(g: Graph, h: Graph, h': Graph, mapping: seq<nat>, i: nat, reduced: set<nat>, done: set<nat>)
    requires g.Valid() && |mapping| == |g.entries| && OneToOne(mapping, g.used) && i in g.used && done <= g.used
    requires h.Valid() && Within(g, h, mapping) && ParentsIn(g, h, mapping, done)
    requires reduced <= g.Anc(i) - {i} && CoveredBy(g, g.Anc(i) - {i}, reduced)
    requires WithDependencies(h, h', Image(mapping, reduced), mapping[i])
    ensures Within(g, h', mapping) && ParentsIn(g, h', mapping, done + {i})
  {
    hide Graph.Valid, Within, WithDependencies, Image, OneToOne;
    WithinAdded(g, h, h', mapping, i, reduced);
    ParentsKept(g, h, h', mapping, done);
    GraphBounds(g);
    forall a | a in g.Anc(i) && a != i ensures HasParent(g, h', mapping, i, a) {
      assert a in g.Anc(i) - {i};
      var p :| p in reduced && a in g.Anc(p);
      ParentAdded(g, h, h', mapping, i, reduced, p);
    }
  }

  lemma ParentsKept(g: Graph, h: Graph, h': Graph, mapping: seq<nat>, done: set<nat>)
    requires done <= g.used && ParentsIn(g, h, mapping, done)
    requires forall d | d in g.used && d < |mapping| :: h.Anc(mapping[d]) <= h'.Anc(mapping[d])
    ensures ParentsIn(g, h', mapping, done)
  {
    forall i, a | i in done && a in g.Anc(i) && a != i ensures HasParent(g, h', mapping, i, a) {
      assert HasParent(g, h, mapping, i, a);
    }
  }

  lemma ParentAdded(g: Graph, h: Graph, h': Graph, mapping: seq<nat>, i: nat, reduced: set<nat>, p: nat)
    requires g.Valid() && |mapping| == |g.entries| && i in g.used && h.Valid() && Within(g, h, mapping)
    requires p in reduced && reduced <= g.Anc(i) && WithDependencies(h, h', Image(mapping, reduced), mapping[i])
    ensures p < |mapping| && mapping[p] in h'.Anc(mapping[i])
  {
    assert p in g.used && mapping[p] in Image(mapping, reduced) && mapping[p] in h.used && mapping[i] in h.used;
    assert mapping[p] in h.Anc(mapping[p]);
    assert mapping[p] in AncOf(h, Image(mapping, reduced));
    assert mapping[i] in h.Anc(mapping[i]);
  }

  lemma NewAncestorsWithin(g: Graph, h: Graph, h': Graph, mapping: seq<nat>, i: nat, reduced: set<nat>, d: nat)
    requires g.Valid() && |mapping| == |g.entries| && OneToOne(mapping, g.used) && i in g.used && d in g.used
    requires h.Valid() && Within(g, h, mapping) && reduced <= g.Anc(i)
    requires WithDependencies(h, h', Image(mapping, reduced), mapping[i])
    ensures h'.Anc(mapping[d]) <= Image(mapping, g.Anc(d))
  {
    assert mapping[d] in h.used;
    if mapping[i] in h.Anc(mapping[d]) {
      assert mapping[i] in Image(mapping, g.Anc(d));
      assert i in g.Anc(d);
      forall x | x in AncOf(h, Image(mapping, reduced)) ensures x in Image(mapping, g.Anc(d)) {
        var y :| y in Image(mapping, reduced) && x in h.Anc(y);
        var p :| p in reduced && p < |mapping| && mapping[p] == y;
        assert x in Image(mapping, g.Anc(p));
        assert g.Anc(p) <= g.Anc(i) <= g.Anc(d);
      }
    }
  }

  /** Dependencies on covering parents bring all ancestors, by induction on their number. */
  lemma {:induction false} AncestorIn(g: Graph, h: Graph, mapping: seq<nat>, i: nat, a: nat)
    requires g.Valid() && g.Acyclic() && |mapping| == |g.entries| && h.Valid() && Within(g, h, mapping)
    requires ParentsIn(g, h, mapping, g.used) && i in g.used && a in g.Anc(i)
    ensures a < |mapping| && i < |mapping| && mapping[a] in h.Anc(mapping[i])
    decreases |g.Anc(i)|
  {
    hide Graph.Valid, Graph.Acyclic;
    GraphBounds(g);
    assert mapping[i] in Image(mapping, g.used);
    if a == i {
      GraphBounds(h);
    } else {
      assert HasParent(g, h, mapping, i, a);
      var p :| p in g.Anc(i) && p != i && p < |mapping| && a in g.Anc(p) && mapping[p] in h.Anc(mapping[i]);
      AncestorsLess(g, p, i);
      AncestorIn(g, h, mapping, p, a);
      AncestorTransitive(h, mapping[i], mapping[p]);
    }
  }

  lemma GraphBounds(g: Graph)
    requires g.Valid()
    ensures forall i | i in g.used :: i < |g.entries| && i in g.Anc(i) && g.Anc(i) <= g.used
  {
  }

  lemma AncestorTransitive(g: Graph, i: nat, p: nat)
    requires g.Valid() && i in g.used && p in g.Anc(i)
    ensures g.Anc(p) <= g.Anc(i)
  {
  }

  lemma AllAncestorsIn(g: Graph, h: Graph, mapping: seq<nat>)
    requires g.Valid() && g.Acyclic() && |mapping| == |g.entries| && h.Valid() && Within(g, h, mapping)
    requires ParentsIn(g, h, mapping, g.used)
    ensures IsRemap(g, h, mapping)
  {
    hide Graph.Valid, Graph.Acyclic, ParentsIn, Image;
    forall i | i in g.used && i < |mapping| ensures h.Anc(mapping[i]) == Image(mapping, g.Anc(i)) {
      AncestorsImage(g, h, mapping, i);
    }
  }

  lemma AncestorsImage(g: Graph, h: Graph, mapping: seq<nat>, i: nat)
    requires g.Valid() && g.Acyclic() && |mapping| == |g.entries| && h.Valid() && Within(g, h, mapping)
    requires ParentsIn(g, h, mapping, g.used) && i in g.used && i < |mapping|
    ensures h.Anc(mapping[i]) == Image(mapping, g.Anc(i))
  {
    hide Graph.Valid, Graph.Acyclic, ParentsIn;
    forall x | x in Image(mapping, g.Anc(i)) ensures x in h.Anc(mapping[i]) {
      var a :| a in g.Anc(i) && a < |mapping| && mapping[a] == x;
      AncestorIn(g, h, mapping, i, a);
    }
  }

  class DepGraph {
    var entries: seq<Entry>
    var used: set<nat>
    const capacity: nat  // SetType::Size()

    function View(): Graph reads this { Graph(entries, used) }

    ghost predicate Valid() reads this {
      View().Valid() && forall i | i in used :: i < capacity
    }

    constructor (capacity: nat)
      ensures Valid() && used == {} && this.capacity == capacity
    {
      entries, used := [], {};
      this.capacity := capacity;
    }

    /** The graph g with position i moved to mapping[i]: transactions first, then the dependencies
        on the reduced parents. */
    constructor Remap(g: Graph, mapping: seq<nat>, posRange: nat, capacity: nat)
      requires g.Valid() && g.Acyclic() && |mapping| == |g.entries| && posRange <= capacity
      requires OneToOne(mapping, g.used) && forall i | i in g.used :: mapping[i] < posRange
      ensures Valid() && this.capacity == capacity && IsRemap(g, View(), mapping)
    {
      entries := seq(posRange, _ => Entry(EMPTY, {}, {}));
      used := {};
      this.capacity := capacity;
      new;
      var todo := g.used;
      while todo != {}
        invariant todo <= g.used && |entries| == posRange && used == Image(mapping, g.used - todo)
        invariant forall i | i in g.used - todo :: entries[mapping[i]] == Entry(g.Fee(i), {mapping[i]}, {mapping[i]})
      {
        var i := First(todo);
        var idx := mapping[i];
        entries := entries[idx := Entry(g.Fee(i), {idx}, {idx})];
        ImageAdd(mapping, g.used - todo, i);
        assert g.used - (todo - {i}) == g.used - todo + {i};
        used := used + {idx};
        todo := todo - {i};
      }
      assert g.used - todo == g.used;
      Isolated(g, View(), mapping);
      todo := g.used;
      while todo != {}
        invariant todo <= g.used && Valid() && Within(g, View(), mapping)
          && ParentsIn(g, View(), mapping, g.used - todo)
      {
        var i := First(todo);
        AddParents(g, mapping, i, g.used - todo);
        assert g.used - (todo - {i}) == g.used - todo + {i};
        todo := todo - {i};
      }
      assert g.used - todo == g.used;
      AllAncestorsIn(g, View(), mapping);
    }

    method AddParents(g: Graph, mapping: seq<nat>, i: nat, ghost done: set<nat>)
      requires g.Valid() && |mapping| == |g.entries| && OneToOne(mapping, g.used) && i in g.used && done <= g.used
      requires Valid() && Within(g, View(), mapping) && ParentsIn(g, View(), mapping, done)
      modifies this
      ensures Valid() && Within(g, View(), mapping) && ParentsIn(g, View(), mapping, done + {i})
    {
      ghost var h := View();
      var reduced := GetReducedParents(g, i);
      var parents := Image(mapping, reduced);
      ImageUsed(g, h, mapping, reduced, i);
      AddDependencies(parents, mapping[i]);
      ParentsAdded(g, h, View(), mapping, i, reduced, done);
    }

    /** Add an unconnected transaction in the first free position. */
    method AddTransaction(feerate: FeeFrac) returns (idx: nat)
      requires Valid() && |used| < capacity
      modifies this
      ensures Valid() && used == old(used) + {idx}
      ensures idx !in old(used) && forall j: nat | j < idx :: j in old(used)
      ensures View().Anc(idx) == {idx} == View().Desc(idx) && View().Fee(idx) == feerate
      ensures forall i | i in old(used) ::
                View().Anc(i) == old(View()).Anc(i) && View().Desc(i) == old(View()).Desc(i)
                  && View().Fee(i) == old(View()).Fee(i)
    {
      ghost var g := View();
      var available := set i: nat | 0 <= i < capacity && i !in used;
      FirstAvailable(g, capacity, available);
      idx := First(available);
      var e := Entry(feerate, {idx}, {idx});
      if idx == |entries| { entries := entries + [e]; } else { entries := entries[idx := e]; }
      used := used + {idx};
      Unconnected(g, View(), idx);
    }

    /** Drop transactions, and the dependencies on them; what remains keeps its ancestors among
        what remains, even through removed transactions. */
    method RemoveTransactions(del: set<nat>)
      requires Valid()
      modifies this
      ensures Valid() && used == old(used) - del
      ensures forall i | i in used ::
                && View().Anc(i) == old(View()).Anc(i) * used && View().Desc(i) == old(View()).Desc(i) * used
                && View().Fee(i) == old(View()).Fee(i)
      ensures entries != [] ==> |entries| - 1 in used
    {
      ghost var g := View();
      used := used - del;
      while entries != [] && |entries| - 1 !in used
        invariant entries == g.entries[..|entries|] && |entries| <= |g.entries|
        invariant used == g.used - del && forall i | i in used :: i < |entries|
        decreases |entries|
      {
        entries := entries[..|entries| - 1];
      }
      var n := 0;
      ghost var trimmed := entries;
      while n < |entries|
        invariant n <= |entries| == |trimmed| && used == g.used - del
        invariant forall i | n <= i < |entries| :: entries[i] == trimmed[i]
        invariant forall i | 0 <= i < n ::
                    entries[i] == trimmed[i].(ancestors := trimmed[i].ancestors * used,
                      descendants := trimmed[i].descendants * used)
      {
        var e := entries[n];
        entries := entries[n := e.(ancestors := e.ancestors * used, descendants := e.descendants * used)];
        n := n + 1;
      }
      Restricted(g, View());
    }

    method CollectAncestors(of: set<nat>) returns (anc: set<nat>)
      ensures anc == AncOf(View(), of)
    {
      anc := {};
      var todo := of;
      while todo != {}
        invariant todo <= of && anc == AncOf(View(), of - todo)
      {
        var par := First(todo);
        AncOfAdd(View(), of - todo, par);
        anc := anc + View().Anc(par);
        assert of - (todo - {par}) == of - todo + {par};
        todo := todo - {par};
      }
      assert of - todo == of;
    }

    /** To each position of at, add des as descendants. */
    method AddDescendants(at: set<nat>, des: set<nat>)
      requires forall i | i in at :: i < |entries|
      modifies this`entries
      ensures |entries| == |old(entries)|
      ensures forall i | 0 <= i < |entries| ::
                entries[i] == if i in at then old(entries)[i].(descendants := old(entries)[i].descendants + des)
                  else old(entries)[i]
    {
      ghost var before := entries;
      var todo := at;
      while todo != {}
        invariant todo <= at && |entries| == |before|
        invariant forall i | 0 <= i < |entries| ::
          entries[i] ==
            if i in at && i !in todo then before[i].(descendants := before[i].descendants + des) else before[i]
      {
        var a := First(todo);
        entries := entries[a := entries[a].(descendants := entries[a].descendants + des)];
        todo := todo - {a};
      }
    }

    /** To each position of at, add anc as ancestors. */
    method AddAncestors(at: set<nat>, anc: set<nat>)
      requires forall i | i in at :: i < |entries|
      modifies this`entries
      ensures |entries| == |old(entries)|
      ensures forall i | 0 <= i < |entries| ::
                entries[i] == if i in at then old(entries)[i].(ancestors := old(entries)[i].ancestors + anc)
                  else old(entries)[i]
    {
      ghost var before := entries;
      var todo := at;
      while todo != {}
        invariant todo <= at && |entries| == |before|
        invariant forall i | 0 <= i < |entries| ::
          entries[i] == if i in at && i !in todo then before[i].(ancestors := before[i].ancestors + anc) else before[i]
      {
        var d := First(todo);
        entries := entries[d := entries[d].(ancestors := entries[d].ancestors + anc)];
        todo := todo - {d};
      }
    }

    /** Add dependencies of child on parents, keeping the relation transitive. */
    method AddDependencies(parents: set<nat>, child: nat)
      requires Valid() && child in used && parents <= used
      modifies this
      ensures Valid() && WithDependencies(old(View()), View(), parents, child)
    {
      ghost var g := View();
      var parAnc := CollectAncestors(parents - View().Anc(child));
      parAnc := parAnc - View().Anc(child);
      NewAncestors(g, parents, child);
      if parAnc == {} {
        NothingNew(g, parents, child);
      } else {
        AddDependenciesOf(parents, child, parAnc);
      }
    }

    method AddDependenciesOf(ghost parents: set<nat>, child: nat, parAnc: set<nat>)
      requires Valid() && child in used && parents <= used
      requires parAnc == AncOf(View(), parents) - View().Anc(child)
      modifies this
      ensures Valid() && WithDependencies(old(View()), View(), parents, child)
    {
      ghost var g := View();
      var chlDes := entries[child].descendants;
      assert parAnc <= used;
      AddDescendants(parAnc, chlDes);
      AddAncestors(View().Desc(child), parAnc);
      DependenciesAdded(g, View(), parents, child, parAnc);
    }
  }

  lemma {:induction false} CapacityFull(s: set<nat>, n: nat)
    requires forall i: nat | i < n :: i in s
    ensures |s| >= n
  {
    if n > 0 { CapacityFull(s - {n - 1}, n - 1); }
  }

  lemma FirstAvailable(g: Graph, capacity: nat, available: set<nat>)
    requires g.Valid() && |g.used| < capacity
    requires available == set i: nat | 0 <= i < capacity && i !in g.used
    ensures available != {} && First(available) <= |g.entries|
    ensures forall j: nat | j < First(available) :: j in g.used
  {
    if available == {} {
      assert forall i: nat | i < capacity :: i !in available ==> i in g.used;
      CapacityFull(g.used, capacity);
    }
    var m := First(available);
    forall j: nat | j < m ensures j in g.used { assert j !in available; }
    assert |g.entries| !in g.used;
  }

  lemma Unconnected(g: Graph, h: Graph, idx: nat)
    requires g.Valid() && idx !in g.used && h.used == g.used + {idx}
    requires idx < |h.entries| && |g.entries| <= |h.entries| && h.Anc(idx) == {idx} == h.Desc(idx)
    requires forall i | 0 <= i < |g.entries| && i != idx :: h.entries[i] == g.entries[i]
    ensures h.Valid()
  {
    assert forall i | i in g.used :: h.Anc(i) == g.Anc(i) && h.Desc(i) == g.Desc(i);
  }

  lemma Restricted(g: Graph, h: Graph)
    requires g.Valid() && h.used <= g.used
    requires forall i | i in h.used ::
      i < |h.entries| && h.Anc(i) == g.Anc(i) * h.used && h.Desc(i) == g.Desc(i) * h.used
    ensures h.Valid()
  {
  }

  lemma AncOfAdd(g: Graph, s: set<nat>, p: nat)
    ensures AncOf(g, s + {p}) == AncOf(g, s) + g.Anc(p)
  {
  }

  /** The ancestors the parents bring are those of parents that child does not have yet. */
  lemma NewAncestors(g: Graph, parents: set<nat>, child: nat)
    requires g.Valid() && child in g.used && parents <= g.used
    ensures AncOf(g, parents - g.Anc(child)) - g.Anc(child) == AncOf(g, parents) - g.Anc(child)
  {
    var parAnc := AncOf(g, parents - g.Anc(child)) - g.Anc(child);
    forall a | a in AncOf(g, parents) - g.Anc(child) ensures a in parAnc {
      var p :| p in parents && a in g.Anc(p);
      if p in g.Anc(child) { assert g.Anc(p) <= g.Anc(child); }
    }
  }

  lemma NothingNew(g: Graph, parents: set<nat>, child: nat)
    requires g.Valid() && child in g.used && AncOf(g, parents) - g.Anc(child) == {}
    ensures WithDependencies(g, g, parents, child)
  {
    forall i | i in g.used && child in g.Anc(i) ensures g.Anc(i) == g.Anc(i) + AncOf(g, parents) {
      assert g.Anc(child) <= g.Anc(i);
      assert forall a | a in AncOf(g, parents) :: a !in AncOf(g, parents) - g.Anc(child) ==> a in g.Anc(child);
    }
  }

  lemma DependenciesAdded(g: Graph, h: Graph, parents: set<nat>, child: nat, parAnc: set<nat>)
    requires g.Valid() && child in g.used && parents <= g.used
    requires parAnc == AncOf(g, parents) - g.Anc(child) && parAnc <= g.used
    requires h.used == g.used && |h.entries| == |g.entries|
    requires forall i | 0 <= i < |g.entries| :: h.entries[i].feerate == g.entries[i].feerate
    requires forall i | 0 <= i < |g.entries| ::
               h.entries[i].ancestors == if i in g.Desc(child) then g.entries[i].ancestors + parAnc
                 else g.entries[i].ancestors
    requires forall i | 0 <= i < |g.entries| ::
               h.entries[i].descendants == if i in parAnc then g.entries[i].descendants + g.Desc(child)
                 else g.entries[i].descendants
    ensures h.Valid() && WithDependencies(g, h, parents, child)
  {
    forall i | i in g.used && child in g.Anc(i) ensures h.Anc(i) == g.Anc(i) + AncOf(g, parents) {
      assert g.Anc(child) <= g.Anc(i) && i in g.Desc(child);
    }
    forall i, j | i in h.used && j in h.Anc(i) ensures h.Anc(j) <= h.Anc(i) {
      assert j in g.used;
      forall b | b in h.Anc(j) ensures b in h.Anc(i) {
        if b in g.Anc(j) {
          if j in parAnc && j !in g.Anc(i) {
            var p :| p in parents && j in g.Anc(p);
            assert b in g.Anc(p);
            assert b in AncOf(g, parents);
          }
        } else {
          assert child in g.Anc(j) && b in parAnc;
        }
      }
    }
  }
}

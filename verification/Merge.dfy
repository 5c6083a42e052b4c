/** MergeLinearizations: one linearization as good as both given ones. */
module Merging {
  import opened FeeFracs
  import opened Diagram
  import opened TxSets
  import opened DepGraphs
  import opened Linearizations
  import opened Chunkings

  /** The first j chunks of a topological order form a closed set. */
  lemma FirstPiecesClosed(g: Graph, pieces: seq<seq<nat>>, l: seq<nat>, j: nat)
    requires Topological(g, l) && Flatten(pieces) == l && j <= |pieces|
    ensures Closed(g, Elems(l), FirstPieces(pieces, j))
  {
    FirstPiecesPrefix(pieces, j);
    var n := |Flatten(pieces[..j])|;
    assert Flatten(pieces[..j]) == l[..n];
    PrefixClosed(g, l, n);
  }

  /** Output so far, then the rest of lin, still is at least as good as lin after another set. */
  lemma StepKeepsDiagram(f: Fees, lin: seq<nat>, ret: seq<nat>, todo: set<nat>, s: set<nat>, order: seq<nat>)
    requires NoDup(lin) && Sized(f, lin) && todo <= Elems(lin) && s <= todo
    requires NoDup(order) && Elems(order) == s
    requires var p := Chunking(f, Keep(lin, todo)); p != [] ==> MayLead(f, p, s, Total(f, p[0]))
    requires AtLeast(f, ret + Keep(lin, todo), lin)
    ensures AtLeast(f, (ret + order) + Keep(lin, todo - s), lin)
  {
    var rem := Keep(lin, todo);
    KeepElems(lin, todo);
    KeepNoDup(lin, todo);
    KeepSized(f, lin, todo);
    KeepKeep(lin, todo, todo - s);
    assert Elems(rem) == todo;
    MoveToFront(f, rem, s, order);
    AtLeastPrefix(f, ret, order + Keep(lin, todo - s), rem);
    assert ret + (order + Keep(lin, todo - s)) == (ret + order) + Keep(lin, todo - s);
    AtLeastTrans(f, (ret + order) + Keep(lin, todo - s), ret + rem, lin);
  }

  /** Appending a closed subset of what remains, in topological order. */
  lemma StepKeepsTopology(g: Graph, ret: seq<nat>, todo: set<nat>, order: seq<nat>)
    requires g.Valid() && NoDup(ret) && Topological(g, ret) && Elems(ret) == g.used - todo && todo <= g.used
    requires Closed(g, g.used, g.used - todo)
    requires NoDup(order) && Topological(g, order) && Closed(g, todo, Elems(order))
    ensures NoDup(ret + order) && Topological(g, ret + order) && Elems(ret + order) == g.used - (todo - Elems(order))
    ensures Closed(g, g.used, g.used - (todo - Elems(order)))
  {
    assert Closed(g, Elems(ret) + Elems(order), Elems(ret));
    ClosedThenRest(g, ret, order);
    assert g.used - (todo - Elems(order)) == g.used - todo + Elems(order);
  }

  /** A subset of the first chunk with at least its feerate may lead the order it comes from. */
  lemma OwnChunkLeads(f: Fees, pieces: seq<seq<nat>>, s: set<nat>)
    requires pieces != [] && s <= Elems(pieces[0]) && !Lower(SetTotal(f, s), Total(f, pieces[0]))
    ensures MayLead(f, pieces, s, Total(f, pieces[0]))
  {
    FirstPiecesNext(pieces, 0);
    assert s - FirstPieces(pieces, 0) == s;
    forall j | 1 <= j <= |pieces| ensures s - FirstPieces(pieces, j) == {} {
      FirstPiecesMonotone(pieces, 1, j);
    }
  }

  /** What the chosen set must be, seen from one of the two remaining orders. */
  ghost predicate GoodStep(g: Graph, rem: seq<nat>, s: set<nat>) {
    var p := Chunking(FeesOf(g), rem);
    p != [] && MayLead(FeesOf(g), p, s, Total(FeesOf(g), p[0]))
  }

  /** Intersect the first chunk of one chunking, whose feerate is not below the other's first
      chunk, with prefixes of the other: good for both. */
  method BestStep(own: LinearizationChunking, other: LinearizationChunking) returns (best: SetInfo)
    requires own.Valid() && other.Valid() && own.depgraph == other.depgraph && own.todo == other.todo != {}
    requires own.NumChunksLeft() > 0 && other.NumChunksLeft() > 0
    requires !Lower(own.GetChunk(0).feerate, other.GetChunk(0).feerate)
    requires Topological(own.depgraph, own.Remaining()) && Topological(own.depgraph, other.Remaining())
    ensures best.transactions != {} && Closed(own.depgraph, own.todo, best.transactions)
    ensures GoodStep(own.depgraph, own.Remaining(), best.transactions)
    ensures GoodStep(own.depgraph, other.Remaining(), best.transactions)
  {
    ghost var g, f := own.depgraph, FeesOf(own.depgraph);
    ghost var po, px := own.Pieces(), other.Pieces();
    own.PiecesOfRemaining();
    other.PiecesOfRemaining();
    var c := own.GetChunk(0);
    FirstChunkFacts(g, own.Remaining(), po, c, own.chunks[own.chunksSkip..]);
    FirstChunkFacts(g, other.Remaining(), px, other.GetChunk(0), other.chunks[other.chunksSkip..]);
    best := other.IntersectPrefixes(c);
    assert Closed(g, own.todo, best.transactions) by {
      if best.transactions != c.transactions {
        var j :| 0 <= j <= |px| && best.transactions == c.transactions * FirstPieces(px, j);
        FirstPiecesClosed(g, px, other.Remaining(), j);
        ClosedIntersection(g, own.todo, c.transactions, FirstPieces(px, j));
      }
    }
    OwnChunkLeads(f, po, best.transactions);
    MayLeadLower(f, px, best.transactions, c.feerate, other.GetChunk(0).feerate);
  }

  lemma FirstChunkFacts(g: Graph, rem: seq<nat>, pieces: seq<seq<nat>>, c: SetInfo, chunks: seq<SetInfo>)
    requires Topological(g, rem) && NoDup(rem) && Sized(FeesOf(g), rem) && IsChunking(FeesOf(g), pieces, rem)
    requires chunks == Infos(FeesOf(g), pieces) && chunks != [] && c == chunks[0]
    ensures c == InfoOf(FeesOf(g), pieces[0]) && c.feerate == SetTotal(FeesOf(g), c.transactions) && c.feerate.size > 0
    ensures c.transactions != {} && Closed(g, Elems(rem), c.transactions) && SizedSet(FeesOf(g), Elems(rem))
  {
    var p := pieces[0];
    assert p in pieces;
    assert p[0] in Elems(p);
    TailChunking(FeesOf(g), pieces, rem);
    TotalIsSetTotal(FeesOf(g), p);
    TotalPositive(FeesOf(g), p);
    PrefixClosed(g, rem, |p|);
  }

  /** A topological linearization that the output so far can still match. */
  ghost predicate Matches(g: Graph, lin: seq<nat>, ret: seq<nat>, todo: set<nat>) {
    && IsLinearization(g, lin) && Topological(g, lin) && Sized(FeesOf(g), lin)
    && AtLeast(FeesOf(g), ret + Keep(lin, todo), lin)
  }

  /** ret lists, in topological order, exactly what is no longer to do. */
  ghost predicate Output(g: Graph, ret: seq<nat>, todo: set<nat>) {
    && todo <= g.used && NoDup(ret) && Topological(g, ret) && Elems(ret) == g.used - todo
    && Closed(g, g.used, g.used - todo)
  }

  lemma StepMatches(g: Graph, lin: seq<nat>, ret: seq<nat>, todo: set<nat>, order: seq<nat>)
    requires Matches(g, lin, ret, todo) && todo <= g.used && NoDup(order) && Elems(order) <= todo
    requires GoodStep(g, Keep(lin, todo), Elems(order))
    ensures Matches(g, lin, ret + order, todo - Elems(order))
  {
    StepKeepsDiagram(FeesOf(g), lin, ret, todo, Elems(order), order);
  }

  lemma AllDone(g: Graph, lin: seq<nat>, ret: seq<nat>)
    requires Matches(g, lin, ret, {}) && Output(g, ret, {})
    ensures IsLinearization(g, ret) && Topological(g, ret) && AtLeast(FeesOf(g), ret, lin)
  {
    KeepNone(lin, {});
    assert ret + [] == ret;
  }

  /** The chunking of what is still to do of lin. */
  ghost predicate Follows(c: LinearizationChunking, g: Graph, lin: seq<nat>, todo: set<nat>)
    reads c
  {
    c.Valid() && c.depgraph == g && c.todo == todo && c.Remaining() == Keep(lin, todo)
  }

  /** The result is a topological linearization whose diagram is nowhere below either input's. */
  method MergeLinearizations(g: Graph, lin1: seq<nat>, lin2: seq<nat>) returns (ret: seq<nat>)
    requires g.Valid() && SizedGraph(g)
    requires IsLinearization(g, lin1) && Topological(g, lin1)
    requires IsLinearization(g, lin2) && Topological(g, lin2)
    ensures IsLinearization(g, ret) && Topological(g, ret)
    ensures AtLeast(FeesOf(g), ret, lin1) && AtLeast(FeesOf(g), ret, lin2)
  {
    hide *;
    TopologicalIsAcyclic(g, lin1);
    var chunking1 := StartChunking(g, lin1);
    var chunking2 := StartChunking(g, lin2);
    ret := [];
    ghost var todo := g.used;
    if g.used == {} {
      AllDone(g, lin1, ret);
      AllDone(g, lin2, ret);
      return;
    }
    while true
      invariant Follows(chunking1, g, lin1, todo) && Follows(chunking2, g, lin2, todo)
      invariant todo != {} && Output(g, ret, todo) && Matches(g, lin1, ret, todo) && Matches(g, lin2, ret, todo)
      decreases todo
    {
      var best;
      best, ret := AppendStep(chunking1, chunking2, g, lin1, lin2, ret, todo);
      TakeOut(chunking1, g, lin1, todo, best.transactions);
      ghost var before := todo;
      todo := todo - best.transactions;
      if chunking1.NumChunksLeft() == 0 {
        AllDone(g, lin1, ret);
        AllDone(g, lin2, ret);
        break;
      }
      TakeOut(chunking2, g, lin2, before, best.transactions);
    }
  }

  method StartChunking(g: Graph, lin: seq<nat>) returns (c: LinearizationChunking)
    requires SizedGraph(g) && IsLinearization(g, lin) && Topological(g, lin)
    ensures fresh(c) && Follows(c, g, lin, g.used)
    ensures Matches(g, lin, [], g.used) && Output(g, [], g.used)
  {
    GraphSized(g, lin);
    c := new LinearizationChunking(g, lin);
    KeepAll(lin, g.used);
    assert [] + lin == lin;
  }

  /** MarkDone, seen from the whole linearization. */
  method TakeOut(c: LinearizationChunking, ghost g: Graph, ghost lin: seq<nat>, ghost todo: set<nat>, subset: set<nat>)
    requires Follows(c, g, lin, todo) && subset != {} && subset <= todo
    modifies c
    ensures Follows(c, g, lin, todo - subset)
    ensures c.NumChunksLeft() == 0 <==> todo - subset == {}
  {
    KeepKeep(lin, todo, todo - subset);
    c.MarkDone(subset);
    c.HasChunk();
  }

  /** Choose the set to output and append it in topological order. */
  method AppendStep(chunking1: LinearizationChunking, chunking2: LinearizationChunking, g: Graph,
                    ghost lin1: seq<nat>, ghost lin2: seq<nat>, ret: seq<nat>, ghost todo: set<nat>)
    returns (best: SetInfo, ret': seq<nat>)
    requires g.Valid() && g.Acyclic()
    requires Follows(chunking1, g, lin1, todo) && Follows(chunking2, g, lin2, todo)
    requires todo != {} && Output(g, ret, todo) && Matches(g, lin1, ret, todo) && Matches(g, lin2, ret, todo)
    ensures best.transactions != {} && best.transactions <= todo && Output(g, ret', todo - best.transactions)
    ensures Matches(g, lin1, ret', todo - best.transactions) && Matches(g, lin2, ret', todo - best.transactions)
  {
    best := ChooseStep(chunking1, chunking2, lin1, lin2, todo);
    ghost var order;
    ret', order := AppendTopo(g, ret, best.transactions);
    StepMatches(g, lin1, ret, todo, order);
    StepMatches(g, lin2, ret, todo, order);
    StepKeepsTopology(g, ret, todo, order);
  }

  /** Take the best remaining chunk, intersected with prefixes of the other linearization. */
  method ChooseStep(chunking1: LinearizationChunking, chunking2: LinearizationChunking,
                    ghost lin1: seq<nat>, ghost lin2: seq<nat>, ghost todo: set<nat>) returns (best: SetInfo)
    requires Follows(chunking1, chunking1.depgraph, lin1, todo) && Follows(chunking2, chunking1.depgraph, lin2, todo)
    requires todo != {} && Topological(chunking1.depgraph, lin1) && Topological(chunking1.depgraph, lin2)
    ensures best.transactions != {} && Closed(chunking1.depgraph, todo, best.transactions)
    ensures GoodStep(chunking1.depgraph, Keep(lin1, todo), best.transactions)
    ensures GoodStep(chunking1.depgraph, Keep(lin2, todo), best.transactions)
  {
    chunking1.HasChunk();
    chunking2.HasChunk();
    KeepTopological(chunking1.depgraph, lin1, todo);
    KeepTopological(chunking1.depgraph, lin2, todo);
    if Higher(chunking2.GetChunk(0).feerate, chunking1.GetChunk(0).feerate) {
      best := BestStep(chunking2, chunking1);
    } else {
      best := BestStep(chunking1, chunking2);
    }
  }

  lemma GraphSized(g: Graph, lin: seq<nat>)
    requires SizedGraph(g) && Elems(lin) <= g.used
    ensures Sized(FeesOf(g), lin)
  {
    forall x | x in lin ensures FeesOf(g)(x).size > 0 { assert x in Elems(lin); }
  }
}

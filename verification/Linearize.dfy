/** Linearize: find or improve a linearization by repeatedly taking the best candidate set found
    (src/cluster_linearize.h). */
module Linearizing {
  import opened FeeFracs
  import opened Diagram
  import opened TxSets
  import opened DepGraphs
  import opened Linearizations
  import opened Chunkings
  import opened Merging
  import opened Searching
  import opened Finders
  import opened Integers

  // ---- Taking optimal sets gives an optimal linearization

  /** The excess of x at the rate of r is reached by what has been output, or can still be reached
      by outputting a closed part of todo next. */
  ghost predicate Reaches(g: Graph, lin: seq<nat>, todo: set<nat>, x: set<nat>, r: FeeFrac) {
    || Excess(RateOf(g, x), r) <= Peak(FeesOf(g), lin, r)
    || exists y: set<nat> :: Closed(g, todo, y) &&
         Excess(RateOf(g, x), r) <= Excess(Total(FeesOf(g), lin), r) + Excess(RateOf(g, y), r)
  }

  /** No closed set lies above what the linearization begun can reach. */
  ghost predicate OnTrack(g: Graph, lin: seq<nat>, todo: set<nat>) {
    forall x: set<nat>, r: FeeFrac | Closed(g, g.used, x) && r.size > 0 :: Reaches(g, lin, todo, x, r)
  }

  lemma StartOnTrack(g: Graph)
    ensures OnTrack(g, [], g.used)
  {
    forall x: set<nat>, r: FeeFrac | Closed(g, g.used, x) && r.size > 0 ensures Reaches(g, [], g.used, x, r) {
      assert Excess(Total(FeesOf(g), []), r) == 0;
    }
  }

  lemma StepOnTrack(g: Graph, lin: seq<nat>, todo: set<nat>, order: seq<nat>)
    requires g.Valid() && SizedGraph(g) && todo <= g.used && OnTrack(g, lin, todo)
    requires NoDup(order) && Optimal(g, todo, Elems(order))
    ensures OnTrack(g, lin + order, todo - Elems(order))
  {
    forall x: set<nat>, r: FeeFrac | Closed(g, g.used, x) && r.size > 0
      ensures Reaches(g, lin + order, todo - Elems(order), x, r)
    {
      StepReaches(g, lin, todo, order, x, r);
    }
  }

  lemma StepReaches(g: Graph, lin: seq<nat>, todo: set<nat>, order: seq<nat>, x: set<nat>, r: FeeFrac)
    requires g.Valid() && SizedGraph(g) && todo <= g.used && Reaches(g, lin, todo, x, r) && r.size > 0
    requires NoDup(order) && Optimal(g, todo, Elems(order))
    ensures Reaches(g, lin + order, todo - Elems(order), x, r)
  {
    hide Graph.Valid, Total, Peak, SetTotal, SizedGraph, NoDup, Elems;
    var f, s, e := FeesOf(g), Elems(order), Excess(RateOf(g, x), r);
    PeakConcat(f, lin, order, r);
    TotalConcat(f, lin, order);
    TotalIsSetTotal(f, order);
    ExcessPlus(Total(f, lin), Total(f, order), r);
    PeakNonNegative(f, order, r);
    if e > Peak(f, lin, r) {
      var y: set<nat> :| Closed(g, todo, y) && e <= Excess(Total(f, lin), r) + Excess(RateOf(g, y), r);
      if Excess(RateOf(g, s), r) >= 0 {
        BestFirst(g, todo, s, y, r);
        assert Closed(g, todo - s, y - s);
      } else {
        NothingAbove(g, todo, s, y, r);
      }
    }
  }

  /** At rates not above that of an optimal set, starting with it loses nothing. */
  lemma BestFirst(g: Graph, todo: set<nat>, s: set<nat>, y: set<nat>, r: FeeFrac)
    requires SizedGraph(g) && todo <= g.used && Optimal(g, todo, s) && Closed(g, todo, y) && r.size > 0
    requires Excess(RateOf(g, s), r) >= 0
    ensures Excess(RateOf(g, y), r) <= Excess(RateOf(g, s), r) + Excess(RateOf(g, y - s), r)
  {
    var f, a, b := FeesOf(g), s * y, s - y;
    SetTotalExchange(f, s, y);
    ExcessPlus(SetTotal(f, s), SetTotal(f, y - s), r);
    ExcessPlus(SetTotal(f, y), SetTotal(f, b), r);
    RestNotBelow(g, todo, s, y);
    if b != {} {
      RatePositive(g, s); RatePositive(g, b);
      ExcessTransfer(RateOf(g, b), RateOf(g, s), r);
    }
  }

  /** What a closed set leaves of an optimal one has at least its feerate. */
  lemma RestNotBelow(g: Graph, todo: set<nat>, s: set<nat>, y: set<nat>)
    requires SizedGraph(g) && todo <= g.used && Optimal(g, todo, s) && Closed(g, todo, y)
    ensures s - y == {} || !Lower(RateOf(g, s - y), RateOf(g, s))
  {
    var f, a, b, r := FeesOf(g), s * y, s - y, RateOf(g, s);
    if b != {} {
      ExcessParts(f, a, b, r);
      assert a + b == s;
      assert Excess(r, r) == 0;
      if a == {} { assert b == s; } else { ClosedIntersection(g, todo, s, y); }
    }
  }

  lemma NothingAbove(g: Graph, todo: set<nat>, s: set<nat>, y: set<nat>, r: FeeFrac)
    requires SizedGraph(g) && todo <= g.used && Optimal(g, todo, s) && Closed(g, todo, y) && r.size > 0
    requires Excess(RateOf(g, s), r) < 0
    ensures Excess(RateOf(g, y), r) <= 0
  {
    RatePositive(g, s); RatePositive(g, y);
    if y != {} { ExcessTransfer(RateOf(g, s), RateOf(g, y), r); }
  }

  lemma OnTrackIsOptimal(g: Graph, lin: seq<nat>)
    requires OnTrack(g, lin, {})
    ensures IsOptimal(g, lin)
  {
    forall other | IsLinearization(g, other) && Topological(g, other) ensures AtLeast(FeesOf(g), lin, other) {
      forall r: FeeFrac | r.size > 0 ensures Peak(FeesOf(g), lin, r) >= Peak(FeesOf(g), other, r) {
        hide *;
        OnTrackAt(g, lin, other, r);
      }
    }
  }

  lemma OnTrackAt(g: Graph, lin: seq<nat>, other: seq<nat>, r: FeeFrac)
    requires OnTrack(g, lin, {}) && IsLinearization(g, other) && Topological(g, other) && r.size > 0
    ensures Peak(FeesOf(g), lin, r) >= Peak(FeesOf(g), other, r)
  {
    hide Peak, Total, SetTotal, Topological;
    var f := FeesOf(g);
    var k := PeakIsMaximum(f, other, r);
    PrefixClosed(g, other, k);
    var x := Elems(other[..k]);
    TotalIsSetTotal(f, other[..k]);
    assert Reaches(g, lin, {}, x, r);
    ReachedAtEnd(g, lin, x, r);
  }

  lemma ReachedAtEnd(g: Graph, lin: seq<nat>, x: set<nat>, r: FeeFrac)
    requires Reaches(g, lin, {}, x, r)
    ensures Excess(RateOf(g, x), r) <= Peak(FeesOf(g), lin, r)
  {
    hide Peak, Total, SetTotal, Excess, RateOf, FeesOf;
    var f, e := FeesOf(g), Excess(RateOf(g, x), r);
    PeakConcat(f, lin, [], r);
    if e > Peak(f, lin, r) {
      var y: set<nat> :| Closed(g, {}, y) && e <= Excess(Total(f, lin), r) + Excess(RateOf(g, y), r);
      NothingGained(g, y, r);
    }
  }

  lemma NothingGained(g: Graph, y: set<nat>, r: FeeFrac)
    requires y <= {}
    ensures Excess(RateOf(g, y), r) == 0
  {
    assert RateOf(g, y) == EMPTY;
  }

  // ---- Not falling behind the old linearization

  /** An optimal set may lead any topological order of what remains. */
  lemma OptimalLeads(g: Graph, rem: seq<nat>, s: set<nat>)
    requires SizedGraph(g) && Elems(rem) <= g.used && rem != [] && NoDup(rem) && Topological(g, rem)
    requires Optimal(g, Elems(rem), s)
    ensures GoodStep(g, rem, s)
  {
    var f, p, r := FeesOf(g), Chunking(FeesOf(g), rem), RateOf(g, s);
    GraphSized(g, rem);
    ChunkingIsChunking(f, rem);
    FirstChunkFacts(g, rem, p, Infos(f, p)[0], Infos(f, p));
    forall j | 0 <= j <= |p| && s - FirstPieces(p, j) != {} ensures !Lower(SetTotal(f, s - FirstPieces(p, j)), r) {
      FirstPiecesClosed(g, p, rem, j);
      RestNotBelow(g, Elems(rem), s, FirstPieces(p, j));
    }
    RatePositive(g, s);
    MayLeadLower(f, p, s, r, Total(f, p[0]));
  }

  /** The state of the loop: what is still to do, as each of its helpers sees it. */
  ghost predicate InStep(g: Graph, old_: seq<nat>, todo: set<nat>, anc: AncestorCandidateFinder,
                         src: SearchCandidateFinder?,
                         chunking: LinearizationChunking)
    reads anc, chunking, if src == null then {} else {src}
  {
    && anc.Valid() && anc.depgraph == g && anc.todo == todo
    && (src != null ==> src.Valid() && src.depgraph == g && src.Remaining() == todo)
    && (if old_ == [] then chunking.Valid() && chunking.todo == {} else Follows(chunking, g, old_, todo))
  }

  /** best is at least as good as the first chunk of what remains of the old linearization. */
  ghost predicate BeatsPrefix(g: Graph, old_: seq<nat>, todo: set<nat>, best: FeeFrac) {
    var p := Chunking(FeesOf(g), Keep(old_, todo));
    old_ != [] ==> p != [] && Total(FeesOf(g), p[0]).size > 0 && !Lower(best, Total(FeesOf(g), p[0]))
  }

  /** The better of the best remaining ancestor set and the first chunk of the old linearization. */
  method InitialCandidate(g: Graph, ghost old_: seq<nat>, ghost todo: set<nat>, anc: AncestorCandidateFinder,
                          chunking: LinearizationChunking) returns (best: SetInfo)
    requires todo != {} && todo <= g.used && InStep(g, old_, todo, anc, null, chunking)
    requires old_ != [] ==> IsLinearization(g, old_) && Topological(g, old_)
    ensures BestOk(g, todo, best) && BeatsPrefix(g, old_, todo, best.feerate)
  {
    best := anc.FindCandidateSet();
    chunking.HasChunk();
    if chunking.NumChunksLeft() > 0 {
      var prefix := chunking.GetChunk(0);
      chunking.PiecesOfRemaining();
      KeepTopological(g, old_, todo);
      FirstChunkFacts(g, chunking.Remaining(), chunking.Pieces(), prefix, chunking.chunks[chunking.chunksSkip..]);
      RatePositive(g, best.transactions);
      BetterNotLower(best.feerate, prefix.feerate, prefix.feerate);
      NotBetterOrder(best.feerate, prefix.feerate);
      if !prefix.feerate.IsEmpty() && !Better(best.feerate, prefix.feerate) { best := prefix; }
    }
  }

  lemma NotBetterOrder(a: FeeFrac, b: FeeFrac)
    ensures !Lower(b, b) && (Better(a, b) ==> !Lower(a, b))
  {
  }

  /** One candidate: search with up to half of the remaining iterations, and if the result is not
      known to be optimal, intersect it with prefixes of the old linearization. */
  method Candidate(g: Graph, ghost old_: seq<nat>, ghost todo: set<nat>, anc: AncestorCandidateFinder,
                   src: SearchCandidateFinder?,
                   chunking: LinearizationChunking, iterationsLeft: nat)
                     returns (best: SetInfo, left: nat, isOptimal: bool)
    requires SizedGraph(g) && todo != {} && todo <= g.used && InStep(g, old_, todo, anc, src, chunking)
    requires old_ != [] ==> IsLinearization(g, old_) && Topological(g, old_)
    ensures best.transactions != {} && best.transactions <= todo && Closed(g, todo, best.transactions)
      && left <= iterationsLeft
    ensures isOptimal ==> Optimal(g, todo, best.transactions)
    ensures src != null && iterationsLeft >= Needed(|todo|) ==> isOptimal && left >= Needed(|todo| - 1)
    ensures src != null && !isOptimal ==> 2 * left <= iterationsLeft || left <= (|todo| + 3) / 4
    ensures |todo| > 0 && iterationsLeft + Needed(|todo| - 1) <= left + Needed(|todo|)
    ensures old_ != [] ==> GoodStep(g, Keep(old_, todo), best.transactions)
  {
    InStepFacts(g, old_, todo, anc, src, chunking);
    hide *;
    NeededIs(|todo|);
    best := InitialCandidate(g, old_, todo, anc, chunking);
    left := iterationsLeft;
    var doneNow, maxNow := 0, 0;
    if src != null {
      var base := (|anc.todo| + 3) / 4;
      if left > base {
        left := left - base;
        maxNow := (left + 1) / 2;
        ghost var start := best;
        best, doneNow := Search(g, old_, todo, src, maxNow, best);
        left := left - doneNow;
      }
    }
    isOptimal := doneNow != maxNow;
    if doneNow == maxNow {
      if chunking.NumChunksLeft() > 0 { best := Intersect(g, old_, todo, chunking, best); }
    } else if old_ != [] {
      OptimalStep(g, old_, todo, best.transactions);
    }
    BestFacts(g, todo, best);
  }

  /** As many iterations as it takes, with n transactions left, to find an optimal set in every round. */
  function Needed(n: nat): nat {
    if n == 0 then 0 else (n + 3) / 4 + 2 * Pow2(n) + Needed(n - 1)
  }

  lemma NeededIs(n: nat)
    requires n > 0
    ensures Needed(n) == (n + 3) / 4 + 2 * Pow2(n) + Needed(n - 1) && Pow2(n) > 0
  {
  }

  lemma {:induction false} NeededGrows(m: nat, n: nat)
    requires m <= n
    ensures Needed(m) <= Needed(n)
  {
    hide Pow2;
    if m < n { NeededGrows(m, n - 1); }
  }

  /** As many iterations as make sure that a graph of n transactions is linearized optimally. */
  function Enough(n: nat): nat { (n * n + 63) / 64 + Needed(n) }

  lemma {:induction false} NeededBelow(n: nat)
    ensures 2 * Needed(n) + 8 <= 2 * Pow2(n + 2) + n * n + n
  {
    hide Pow2;
    Pow2Next(n + 2);
    if n == 0 {
      Pow2Two();
    } else {
      NeededBelow(n - 1);
      Pow2Next(n + 1);
      SquareNext(n);
    }
  }

  lemma SquareNext(n: nat)
    requires n > 0
    ensures n * n == (n - 1) * (n - 1) + 2 * n - 1
  {
  }

  lemma Pow2Two()
    ensures Pow2(2) == 4
  {
  }

  lemma EnoughParts(n: nat)
    ensures Enough(n) == (n * n + 63) / 64 + Needed(n) && (n > 0 ==> Needed(n) > 0)
  {
  }

  lemma LessNeeded(todo: set<nat>, s: set<nat>)
    requires s != {} && s <= todo
    ensures |todo| > 0 && Needed(|todo - s|) <= Needed(|todo| - 1)
  {
    hide Needed;
    var x :| x in s;
    SubsetCard(todo - s, todo - {x});
    NeededGrows(|todo - s|, |todo| - 1);
  }

  /** That is at most four for every subset, and n (n + 1) more. */
  lemma EnoughIs(n: nat)
    ensures Enough(n) <= Pow2(n + 2) + n * n + n
  {
    NeededBelow(n);
    SquareParts(n * n);
  }

  lemma SquareParts(square: nat)
    ensures (square + 63) / 64 <= 1 + square / 2
  {
  }

  lemma BestFacts(g: Graph, todo: set<nat>, best: SetInfo)
    ensures BestOk(g, todo, best) ==>
      best.transactions != {} && best.transactions <= todo && Closed(g, todo, best.transactions)
  {
  }

  lemma InStepFacts(g: Graph, old_: seq<nat>, todo: set<nat>, anc: AncestorCandidateFinder, src: SearchCandidateFinder?,
                    chunking: LinearizationChunking)
    requires todo != {} && InStep(g, old_, todo, anc, src, chunking)
    ensures InStep(g, old_, todo, anc, null, chunking) && chunking.Valid() && anc.Valid() && anc.depgraph == g
      && anc.todo == todo
    ensures old_ == [] ==> chunking.todo == {}
    ensures src != null ==> src.Valid() && src.depgraph == g && src.Remaining() == todo
    ensures old_ != [] ==> Follows(chunking, g, old_, todo)
    ensures old_ != [] <==> chunking.NumChunksLeft() > 0
  {
    chunking.HasChunk();
  }

  method Search(g: Graph, ghost old_: seq<nat>, ghost todo: set<nat>, src: SearchCandidateFinder, maxNow: nat,
                best0: SetInfo)
    returns (best: SetInfo, doneNow: nat)
    requires SizedGraph(g) && todo != {} && todo <= g.used && src.Valid() && src.depgraph == g
      && src.Remaining() == todo
    requires BestOk(g, todo, best0) && BeatsPrefix(g, old_, todo, best0.feerate)
    ensures BestOk(g, todo, best) && BeatsPrefix(g, old_, todo, best.feerate) && doneNow <= maxNow
    ensures doneNow < maxNow ==> Optimal(g, todo, best.transactions)
    ensures doneNow < Pow2(|todo|)
  {
    hide *;
    src.DoneWhenNothingLeft();
    BestFacts(g, todo, best0);
    best, doneNow := src.FindCandidateSet(maxNow, best0);
    StillBeatsPrefix(g, old_, todo, best0, best);
  }

  lemma StillBeatsPrefix(g: Graph, old_: seq<nat>, todo: set<nat>, best0: SetInfo, best: SetInfo)
    requires SizedGraph(g) && todo <= g.used && BestOk(g, todo, best0) && BestOk(g, todo, best)
    requires BeatsPrefix(g, old_, todo, best0.feerate) && NoWorse(best, best0)
    ensures BeatsPrefix(g, old_, todo, best.feerate)
  {
    hide Chunking, Keep, Total, SetTotal;
    RatePositive(g, best.transactions);
    RatePositive(g, best0.transactions);
    var p := Chunking(FeesOf(g), Keep(old_, todo));
    if old_ != [] {
      BetterNotLower(best.feerate, best0.feerate, Total(FeesOf(g), p[0]));
      ExcessTransfer(best.feerate, best0.feerate, Total(FeesOf(g), p[0]));
    }
  }

  method Intersect(g: Graph, ghost old_: seq<nat>, ghost todo: set<nat>, chunking: LinearizationChunking,
                   best0: SetInfo)
    returns (best: SetInfo)
    requires SizedGraph(g) && todo <= g.used && old_ != [] && Follows(chunking, g, old_, todo) && Topological(g, old_)
    requires BestOk(g, todo, best0) && BeatsPrefix(g, old_, todo, best0.feerate)
    ensures best.transactions != {} && best.transactions <= todo && Closed(g, todo, best.transactions)
    ensures GoodStep(g, Keep(old_, todo), best.transactions)
  {
    best := chunking.IntersectPrefixes(best0);
    ghost var rem, p := chunking.Remaining(), chunking.Pieces();
    chunking.PiecesOfRemaining();
    KeepTopological(g, old_, todo);
    hide Chunking, Keep, SetTotal, Topological, IsChunking, LinearizationChunking.Valid;
    if best.transactions != best0.transactions {
      ghost var j :| 0 <= j <= |p| && best.transactions == best0.transactions * FirstPieces(p, j);
      FirstPiecesClosed(g, p, rem, j);
      ClosedIntersection(g, todo, best0.transactions, FirstPieces(p, j));
    }
    RatePositive(g, best0.transactions);
    MayLeadLower(FeesOf(g), p, best.transactions, best0.feerate, Total(FeesOf(g), p[0]));
  }

  lemma OptimalStep(g: Graph, old_: seq<nat>, todo: set<nat>, s: set<nat>)
    requires SizedGraph(g) && todo != {} && todo <= g.used && IsLinearization(g, old_) && Topological(g, old_)
      && Optimal(g, todo, s)
    ensures GoodStep(g, Keep(old_, todo), s)
  {
    KeepElems(old_, todo);
    KeepNoDup(old_, todo);
    KeepTopological(g, old_, todo);
    assert Elems(Keep(old_, todo)) == todo;
    OptimalLeads(g, Keep(old_, todo), s);
  }

  /** Take the chosen set out of everything that tracks what is still to do. */
  method Advance(g: Graph, ghost old_: seq<nat>, ghost todo: set<nat>, anc: AncestorCandidateFinder,
                 src: SearchCandidateFinder?,
                 chunking: LinearizationChunking, s: set<nat>) returns (done: bool)
    requires InStep(g, old_, todo, anc, src, chunking) && s != {} && s <= todo
    modifies anc, chunking, if src == null then {} else {src}
    ensures done <==> todo - s == {}
    ensures !done ==> InStep(g, old_, todo - s, anc, src, chunking)
  {
    hide *;
    InStepFacts(g, old_, todo, anc, src, chunking);
    anc.MarkDone(s);
    done := anc.todo == {};
    if done { return; }
    if src != null { src.MarkDone(s); }
    if chunking.NumChunksLeft() > 0 { TakeOut(chunking, g, old_, todo, s); }
    InStepAgain(g, old_, todo - s, anc, src, chunking);
  }

  lemma InStepAgain(g: Graph, old_: seq<nat>, todo: set<nat>, anc: AncestorCandidateFinder, src: SearchCandidateFinder?,
                    chunking: LinearizationChunking)
    requires anc.Valid() && anc.depgraph == g && anc.todo == todo
    requires src != null ==> src.Valid() && src.depgraph == g && src.Remaining() == todo
    requires if old_ == [] then chunking.Valid() && chunking.todo == {} else Follows(chunking, g, old_, todo)
    ensures InStep(g, old_, todo, anc, src, chunking)
  {
  }

  /** Find or improve a linearization. The result is a topological linearization, at least as good as
      the old one if there is one, and at least as good as every other if reported as optimal. */
  method Linearize(g: Graph, maxIterations: nat, oldLinearization: seq<nat>)
    returns (linearization: seq<nat>, optimal: bool, iterations: nat)
    requires g.Valid() && SizedGraph(g) && g.Acyclic()
    requires oldLinearization == [] || (IsLinearization(g, oldLinearization) && Topological(g, oldLinearization))
    ensures IsLinearization(g, linearization) && Topological(g, linearization) && iterations <= maxIterations
    ensures oldLinearization != [] ==> AtLeast(FeesOf(g), linearization, oldLinearization)
    ensures optimal ==> IsOptimal(g, linearization)
    ensures maxIterations >= Enough(|g.used|) ==> optimal
    ensures iterations <= Enough(|g.used|)
    ensures !optimal && maxIterations > (|g.used| * |g.used| + 63) / 64 ==>
      2 * (iterations + (|g.used| + 3) / 4) >= maxIterations
  {
    hide *;
    ghost var enough := maxIterations >= Enough(|g.used|);
    EnoughParts(|g.used|);
    linearization := [];
    StartOnTrack(g);
    var chunking := StartOld(g, oldLinearization);
    if g.used == {} {
      Finished(g, oldLinearization, [], true);
      return [], true, 0;
    }
    var left := maxIterations;
    var anc := new AncestorCandidateFinder(g);
    var src: SearchCandidateFinder? := null;
    optimal := true;
    var start := (|g.used| * |g.used| + 63) / 64;
    if left > start {
      left := left - start;
      src := new SearchCandidateFinder(g);
    }
    InStepAgain(g, oldLinearization, g.used, anc, src, chunking);
    ghost var todo := g.used;
    while true
      invariant InStep(g, oldLinearization, todo, anc, src, chunking) && todo != {} && 0 <= left <= maxIterations
      invariant Output(g, linearization, todo) && (optimal ==> OnTrack(g, linearization, todo))
      invariant oldLinearization != [] ==> Matches(g, oldLinearization, linearization, todo)
      invariant enough ==> optimal && src != null && left >= Needed(|todo|)
      invariant maxIterations - left + Needed(|todo|) <= Enough(|g.used|) && todo <= g.used
      invariant maxIterations > start ==> src != null
      invariant !optimal && src != null ==> 2 * left <= maxIterations || left <= (|g.used| + 3) / 4
      decreases todo
    {
      var best, isOptimal;
      best, left, isOptimal := Candidate(g, oldLinearization, todo, anc, src, chunking, left);
      if !isOptimal { optimal := false; }
      linearization := AppendBest(g, oldLinearization, linearization, todo, best.transactions, optimal);
      LessNeeded(todo, best.transactions);
      SubsetCard(todo, g.used);
      var done := Advance(g, oldLinearization, todo, anc, src, chunking, best.transactions);
      todo := todo - best.transactions;
      if done { break; }
    }
    iterations := maxIterations - left;
    Finished(g, oldLinearization, linearization, optimal);
  }

  method StartOld(g: Graph, old_: seq<nat>) returns (chunking: LinearizationChunking)
    requires g.Valid() && SizedGraph(g) && (old_ == [] || (IsLinearization(g, old_) && Topological(g, old_)))
    ensures fresh(chunking) && Output(g, [], g.used)
    ensures
      if old_ == [] then chunking.Valid() && chunking.todo == {}
      else Follows(chunking, g, old_, g.used) && Matches(g, old_, [], g.used)
  {
    if old_ == [] {
      chunking := new LinearizationChunking(g, []);
    } else {
      chunking := StartChunking(g, old_);
    }
  }

  method AppendBest(g: Graph, ghost old_: seq<nat>, lin: seq<nat>, ghost todo: set<nat>, best: set<nat>,
                    ghost optimal: bool)
    returns (next: seq<nat>)
    requires g.Valid() && SizedGraph(g) && g.Acyclic() && Output(g, lin, todo) && Closed(g, todo, best)
    requires old_ != [] ==> Matches(g, old_, lin, todo) && GoodStep(g, Keep(old_, todo), best)
    requires optimal ==> OnTrack(g, lin, todo) && Optimal(g, todo, best)
    ensures Output(g, next, todo - best)
    ensures old_ != [] ==> Matches(g, old_, next, todo - best)
    ensures optimal ==> OnTrack(g, next, todo - best)
  {
    hide OnTrack, Optimal, Matches, GoodStep, Graph.Valid, Graph.Acyclic, SizedGraph, Keep;
    ghost var order;
    next, order := AppendTopo(g, lin, best);
    StepKeepsTopology(g, lin, todo, order);
    if old_ != [] { StepMatches(g, old_, lin, todo, order); }
    if optimal { StepOnTrack(g, lin, todo, order); }
  }

  lemma Finished(g: Graph, old_: seq<nat>, lin: seq<nat>, optimal: bool)
    requires Output(g, lin, {}) && (old_ != [] ==> Matches(g, old_, lin, {})) && (optimal ==> OnTrack(g, lin, {}))
    ensures IsLinearization(g, lin) && Topological(g, lin) && (optimal ==> IsOptimal(g, lin))
    ensures old_ != [] ==> AtLeast(FeesOf(g), lin, old_)
  {
    hide Matches, OnTrack, IsOptimal;
    if old_ != [] { AllDone(g, old_, lin); }
    if optimal { OnTrackIsOptimal(g, lin); }
  }
}

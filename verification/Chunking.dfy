/** Chunkings of a linearization: ChunkLinearization, and the class LinearizationChunking that
    keeps the chunks of what remains as transactions are taken out. */
module Chunkings {
  import opened FeeFracs
  import opened Diagram
  import opened TxSets
  import opened DepGraphs
  import opened Linearizations

  datatype SetInfo = SetInfo(transactions: set<nat>, feerate: FeeFrac)

  function InfoOf(f: Fees, piece: seq<nat>): SetInfo { SetInfo(Elems(piece), Total(f, piece)) }

  function Infos(f: Fees, pieces: seq<seq<nat>>): seq<SetInfo> {
    seq(|pieces|, i requires 0 <= i < |pieces| => InfoOf(f, pieces[i]))
  }

  lemma SumCommutes(a: FeeFrac, b: FeeFrac)
    ensures a.Plus(b) == b.Plus(a)
  {
  }

  lemma InfoConcat(f: Fees, a: seq<nat>, b: seq<nat>)
    ensures InfoOf(f, a + b) == SetInfo(Elems(b) + Elems(a), Total(f, b).Plus(Total(f, a)))
  {
    TotalConcat(f, a, b);
    ElemsConcat(a, b);
    SumCommutes(Total(f, a), Total(f, b));
  }

  lemma InfoOne(f: Fees, x: nat)
    ensures InfoOf(f, [x]) == SetInfo({x}, f(x))
  {
    TotalOne(f, x);
  }

  lemma InfosPush(f: Fees, pieces: seq<seq<nat>>, c: seq<nat>)
    ensures Infos(f, pieces + [c]) == Infos(f, pieces) + [InfoOf(f, c)]
  {
  }

  /** Merge the last chunk into the new one. */
  method AbsorbLast(g: Graph, add: SetInfo, chunks: seq<SetInfo>, ghost pieces: seq<seq<nat>>, ghost c: seq<nat>)
    returns (add': SetInfo, chunks': seq<SetInfo>, ghost pieces': seq<seq<nat>>, ghost c': seq<nat>)
    requires chunks == Infos(FeesOf(g), pieces) && add == InfoOf(FeesOf(g), c)
    requires chunks != [] && Higher(add.feerate, chunks[|chunks|-1].feerate)
    ensures chunks' == Infos(FeesOf(g), pieces') && add' == InfoOf(FeesOf(g), c') && |chunks'| < |chunks|
    ensures Absorb(FeesOf(g), pieces', c') == Absorb(FeesOf(g), pieces, c)
  {
    var back := chunks[|chunks|-1];
    pieces', c' := pieces[..|pieces|-1], pieces[|pieces|-1] + c;
    InfoConcat(FeesOf(g), pieces[|pieces|-1], c);
    add' := SetInfo(add.transactions + back.transactions, add.feerate.Plus(back.feerate));
    chunks' := chunks[..|chunks|-1];
  }

  /** The feerates of the chunks of a linearization. */
  method ChunkLinearization(g: Graph, linearization: seq<nat>) returns (ret: seq<FeeFrac>)
    ensures ret == ChunkRates(FeesOf(g), linearization)
  {
    ghost var f := FeesOf(g);
    ghost var pieces: seq<seq<nat>> := [];
    ret := [];
    for n := 0 to |linearization|
      invariant pieces == Chunking(f, linearization[..n]) && ret == Totals(f, pieces)
    {
      ret, pieces := AbsorbRates(g, ret, linearization[n], pieces);
      assert linearization[..n+1][..n] == linearization[..n];
    }
    assert linearization[..|linearization|] == linearization;
  }

  /** As long as the new chunk has a higher feerate than the last chunk so far, absorb that. */
  method AbsorbRates(g: Graph, rates: seq<FeeFrac>, i: nat, ghost before: seq<seq<nat>>)
    returns (ret: seq<FeeFrac>, ghost pieces: seq<seq<nat>>)
    requires rates == Totals(FeesOf(g), before)
    ensures pieces == Absorb(FeesOf(g), before, [i]) && ret == Totals(FeesOf(g), pieces)
  {
    ghost var f := FeesOf(g);
    ret, pieces := rates, before;
    var newChunk := g.Fee(i);
    ghost var c := [i];
    TotalOne(f, i);
    hide Total;
    while ret != [] && Higher(newChunk, ret[|ret|-1])
      invariant ret == Totals(f, pieces) && newChunk == Total(f, c)
      invariant Absorb(f, pieces, c) == Absorb(f, before, [i])
      decreases |ret|
    {
      newChunk := newChunk.Plus(ret[|ret|-1]);
      ret := ret[..|ret|-1];
      TotalConcat(f, pieces[|pieces|-1], c);
      SumCommutes(Total(f, pieces[|pieces|-1]), Total(f, c));
      pieces, c := pieces[..|pieces|-1], pieces[|pieces|-1] + c;
    }
    ret := ret + [newChunk];
    pieces := pieces + [c];
  }

  lemma NothingKept(f: Fees, l: seq<nat>, todo: set<nat>)
    ensures Chunking(f, Keep(l[..0], todo)) == [] && Infos(f, []) == []
  {
  }

  /** The chunks of one more element: it is absorbed if it is to be kept. */
  lemma KeptNext(f: Fees, l: seq<nat>, n: nat, todo: set<nat>)
    requires n < |l|
    ensures Chunking(f, Keep(l[..n+1], todo)) ==
      if l[n] in todo then Absorb(f, Chunking(f, Keep(l[..n], todo)), [l[n]]) else Chunking(f, Keep(l[..n], todo))
  {
    assert l[..n+1] == l[..n] + [l[n]];
    KeepConcat(l[..n], [l[n]], todo);
    var before := Keep(l[..n], todo);
    if l[n] in todo {
      var kept := before + [l[n]];
      assert kept == Keep(l[..n+1], todo) && kept[..|kept|-1] == before;
    } else {
      assert before + [] == before;
    }
  }

  class LinearizationChunking {
    const depgraph: Graph
    var linearization: seq<nat>
    var chunks: seq<SetInfo>
    var chunksSkip: nat
    var todo: set<nat>

    /** What remains of the linearization. */
    ghost function Remaining(): seq<nat> reads this { Keep(linearization, todo) }

    ghost function Pieces(): seq<seq<nat>> reads this { Chunking(FeesOf(depgraph), Remaining()) }

    /** The stored chunks are those a chunking of the remaining order from scratch gives. */
    ghost predicate Valid() reads this {
      && NoDup(linearization) && Sized(FeesOf(depgraph), linearization) && todo <= Elems(linearization)
      && chunksSkip <= |chunks| && chunks[chunksSkip..] == Infos(FeesOf(depgraph), Pieces())
    }

    constructor (depgraph: Graph, lin: seq<nat>)
      requires NoDup(lin) && Sized(FeesOf(depgraph), lin)
      ensures Valid() && this.depgraph == depgraph && todo == Elems(lin) && Remaining() == lin
    {
      this.depgraph := depgraph;
      linearization := lin;
      todo := Elems(lin);
      chunks, chunksSkip := [], 0;
      new;
      hide Keep, Chunking, NoDup, Sized, Infos;
      KeepAll(lin, todo);
      Rebuild();
    }

    /** Finished transactions are taken off the front. */
    method DropFinished() returns (ghost k: nat)
      modifies this`linearization
      ensures k <= |old(linearization)| && linearization == old(linearization)[k..] && Remaining() == old(Remaining())
    {
      ghost var lin := linearization;
      k := 0;
      while linearization != [] && linearization[0] !in todo
        invariant k <= |lin| && linearization == lin[k..] && Remaining() == old(Remaining())
        decreases |linearization|
      {
        linearization := linearization[1..];
        k := k + 1;
      }
    }

    method BuildChunks()
      requires chunks == [] && chunksSkip == 0
      modifies this`linearization, this`chunks
      ensures chunks == Infos(FeesOf(depgraph), Pieces()) && Remaining() == old(Remaining())
      ensures exists k | 0 <= k <= |old(linearization)| :: linearization == old(linearization)[k..]
    {
      ghost var f := FeesOf(depgraph);
      ghost var k := DropFinished();
      ghost var lin := linearization;
      ghost var pieces: seq<seq<nat>> := [];
      NothingKept(f, linearization, todo);
      hide Chunking, Keep, Infos, Absorb;
      for n := 0 to |linearization|
        invariant linearization == lin
        invariant pieces == Chunking(f, Keep(linearization[..n], todo)) && chunks == Infos(f, pieces)
      {
        KeptNext(f, linearization, n, todo);
        if linearization[n] in todo {
          pieces := AddElement(linearization[n], pieces);
        }
      }
      assert linearization[..|linearization|] == linearization;
    }

    /** One round of BuildChunks: absorb final chunks of lower feerate into a new one. */
    method AddElement(idx: nat, ghost before: seq<seq<nat>>) returns (ghost pieces: seq<seq<nat>>)
      requires chunks == Infos(FeesOf(depgraph), before)
      modifies this`chunks
      ensures pieces == Absorb(FeesOf(depgraph), before, [idx]) && chunks == Infos(FeesOf(depgraph), pieces)
    {
      pieces := before;
      var add := SetInfo({idx}, depgraph.Fee(idx));
      ghost var c := [idx];
      InfoOne(FeesOf(depgraph), idx);
      while chunks != [] && Higher(add.feerate, chunks[|chunks|-1].feerate)
        invariant chunks == Infos(FeesOf(depgraph), pieces) && add == InfoOf(FeesOf(depgraph), c)
        invariant Absorb(FeesOf(depgraph), pieces, c) == Absorb(FeesOf(depgraph), before, [idx])
        decreases |chunks|
      {
        add, chunks, pieces, c := AbsorbLast(depgraph, add, chunks, pieces, c);
      }
      InfosPush(FeesOf(depgraph), pieces, c);
      chunks := chunks + [add];
      pieces := pieces + [c];
    }

    function NumChunksLeft(): (n: int)
      reads this
    {
      |chunks| - chunksSkip
    }

    function GetChunk(n: nat): (c: SetInfo)
      requires n + chunksSkip < |chunks|
      reads this
    {
      chunks[n + chunksSkip]
    }

    /** Take a subset out of the linearization. The stored chunks remain those of the rest, also
        when the subset is the first chunk and nothing is chunked again. */
    method MarkDone(subset: set<nat>)
      requires Valid() && subset != {} && subset <= todo
      modifies this
      ensures Valid() && todo == old(todo) - subset
      ensures Remaining() == Keep(old(Remaining()), todo)
    {
      hide Keep, Chunking, NoDup, Sized, Elems, Infos;
      HasChunk();
      KeepKeep(linearization, todo, todo - subset);
      if GetChunk(0).transactions == subset {
        SkipFirst(subset);
      } else {
        todo := todo - subset;
        chunks, chunksSkip := [], 0;
        Rebuild();
      }
    }

    /** No need to rechunk: skip one more chunk and |subset| elements of the linearization. */
    method SkipFirst(subset: set<nat>)
      requires Valid() && subset <= todo && NumChunksLeft() > 0 && GetChunk(0).transactions == subset
      modifies this
      ensures Valid() && todo == old(todo) - subset
      ensures Remaining() == old(Keep(linearization, todo - subset))
    {
      assert chunks[chunksSkip..][0] == GetChunk(0);
      FirstChunkDone(FeesOf(depgraph), linearization, todo, subset);
      assert chunks[chunksSkip..][1..] == chunks[chunksSkip+1..];
      assert Infos(FeesOf(depgraph), Pieces())[1..] == Infos(FeesOf(depgraph), Pieces()[1..]);
      todo := todo - subset;
      chunksSkip := chunksSkip + 1;
      linearization := linearization[|subset|..];
    }

    method Rebuild()
      requires chunks == [] && chunksSkip == 0
      requires NoDup(linearization) && Sized(FeesOf(depgraph), linearization) && todo <= Elems(linearization)
      modifies this`linearization, this`chunks
      ensures Valid() && Remaining() == old(Remaining())
    {
      KeepElems(linearization, todo);
      assert Elems(Remaining()) == todo;
      BuildChunks();
      KeepElems(linearization, todo);
    }

    /** The shortest intersection of subset with a prefix of the remaining chunks whose feerate is
        not below subset's; whatever of it any prefix of chunks leaves out also has that feerate. */
    method IntersectPrefixes(subset: SetInfo) returns (r: SetInfo)
      requires Valid() && subset.transactions <= todo
      requires subset.feerate == SetTotal(FeesOf(depgraph), subset.transactions)
      ensures r.transactions <= subset.transactions && r.feerate == SetTotal(FeesOf(depgraph), r.transactions)
      ensures subset.transactions != {} ==> r.transactions != {}
      ensures !Lower(r.feerate, subset.feerate)
      ensures CutBy(Pieces(), subset.transactions, r.transactions)
      ensures Shortest(FeesOf(depgraph), Pieces(), subset, r.transactions)
      ensures MayLead(FeesOf(depgraph), Pieces(), r.transactions, subset.feerate)
    {
      hide Shortest, MayLead, CutBy, SetTotal, FirstPieces, NoDup, Elems, Sized, Chunking, Keep, Lower, NonIncreasing,
        Solid;
      PiecesOfRemaining();
      r := IntersectChunks(depgraph, chunks[chunksSkip..], subset, Pieces());
    }

    lemma PiecesOfRemaining()
      requires Valid()
      ensures IsChunking(FeesOf(depgraph), Pieces(), Remaining()) && NoDup(Remaining())
      ensures Sized(FeesOf(depgraph), Remaining()) && Elems(Remaining()) == todo
    {
      KeepElems(linearization, todo);
      KeepNoDup(linearization, todo);
      KeepSized(FeesOf(depgraph), linearization, todo);
      ChunkingIsChunking(FeesOf(depgraph), Remaining());
    }

    /** A chunk is left exactly as long as something remains. */
    lemma HasChunk()
      requires Valid()
      ensures NumChunksLeft() > 0 <==> todo != {}
    {
      PiecesOfRemaining();
      assert Pieces() != [] ==> Solid(FeesOf(depgraph), Pieces()[0]);
      assert Pieces() == [] ==> Elems(Remaining()) == {};
      if Pieces() != [] {
        assert Pieces()[0][0] in Elems(Remaining());
      }
    }
  }

  /** The loop of IntersectPrefixes over the remaining chunks. */
  method IntersectChunks(g: Graph, chunks: seq<SetInfo>, subset: SetInfo, ghost pieces: seq<seq<nat>>)
    returns (r: SetInfo)
    requires chunks == Infos(FeesOf(g), pieces) && NoDup(Flatten(pieces))
    requires subset.transactions <= Elems(Flatten(pieces)) && subset.feerate == SetTotal(FeesOf(g), subset.transactions)
    ensures r.transactions <= subset.transactions && r.feerate == SetTotal(FeesOf(g), r.transactions)
    ensures subset.transactions != {} ==> r.transactions != {}
    ensures !Lower(r.feerate, subset.feerate)
    ensures CutBy(pieces, subset.transactions, r.transactions)
    ensures Shortest(FeesOf(g), pieces, subset, r.transactions)
    ensures MayLead(FeesOf(g), pieces, r.transactions, subset.feerate)
  {
    ghost var f := FeesOf(g);
    var acc := SetInfo({}, EMPTY);
    for i := 0 to |chunks|
      invariant acc == SetInfo(subset.transactions * FirstPieces(pieces, i), SetTotal(f, acc.transactions))
      invariant acc.transactions != subset.transactions || subset.transactions == {}
      invariant LowerSoFar(f, pieces, subset, i)
    {
      var toAdd := chunks[i].transactions * subset.transactions;
      IntersectNext(f, pieces, subset.transactions, i);
      if toAdd != {} {
        acc := acc.(transactions := acc.transactions + toAdd);
        if acc.transactions == subset.transactions {
          WholeSubset(f, pieces, subset, i);
          IsShortest(f, pieces, subset, i);
          return subset;
        }
        acc := acc.(feerate := acc.feerate.Plus(SetTotal(FeesOf(g), toAdd)));
        if !Lower(acc.feerate, subset.feerate) {
          PartOfSubset(f, pieces, subset, i);
          IsShortest(f, pieces, subset, i);
          return acc;
        }
      }
      LowerNext(f, pieces, subset, i);
    }
    FirstPiecesPrefix(pieces, |pieces|);
    r := subset;
  }

  /** Every intersection with up to n chunks is empty or has a lower feerate than subset. */
  ghost predicate LowerSoFar(f: Fees, pieces: seq<seq<nat>>, subset: SetInfo, n: nat)
    requires n <= |pieces|
  {
    forall j | 0 <= j <= n ::
      var part := subset.transactions * FirstPieces(pieces, j);
      part == {} || Lower(SetTotal(f, part), subset.feerate)
  }

  /** All of s, or its intersection with a prefix of chunks. */
  ghost predicate CutBy(pieces: seq<seq<nat>>, s: set<nat>, r: set<nat>) {
    r == s || exists j | 0 <= j <= |pieces| :: r == s * FirstPieces(pieces, j)
  }

  /** Every shorter intersection with a prefix of chunks is empty or has a lower feerate than subset. */
  ghost predicate Shortest(f: Fees, pieces: seq<seq<nat>>, subset: SetInfo, r: set<nat>) {
    forall j | 0 <= j <= |pieces| ::
      var part := subset.transactions * FirstPieces(pieces, j);
      part != {} && part < r ==> Lower(SetTotal(f, part), subset.feerate)
  }

  lemma IsShortest(f: Fees, pieces: seq<seq<nat>>, subset: SetInfo, n: nat)
    requires n < |pieces| && LowerSoFar(f, pieces, subset, n)
    ensures Shortest(f, pieces, subset, subset.transactions * FirstPieces(pieces, n + 1))
  {
    forall j | n < j <= |pieces|
      ensures !(subset.transactions * FirstPieces(pieces, j) < subset.transactions * FirstPieces(pieces, n + 1))
    {
      FirstPiecesMonotone(pieces, n + 1, j);
    }
  }

  lemma IntersectNext(f: Fees, pieces: seq<seq<nat>>, s: set<nat>, i: nat)
    requires i < |pieces| && NoDup(Flatten(pieces))
    ensures s * FirstPieces(pieces, i + 1) == s * FirstPieces(pieces, i) + Elems(pieces[i]) * s
    ensures SetTotal(f, s * FirstPieces(pieces, i + 1)) ==
            SetTotal(f, s * FirstPieces(pieces, i)).Plus(SetTotal(f, Elems(pieces[i]) * s))
  {
    FirstPiecesNext(pieces, i);
    PiecesDisjoint(pieces, i);
    SetTotalUnion(f, s * FirstPieces(pieces, i), Elems(pieces[i]) * s);
    assert s * FirstPieces(pieces, i + 1) == s * FirstPieces(pieces, i) + Elems(pieces[i]) * s;
  }

  lemma LowerNext(f: Fees, pieces: seq<seq<nat>>, subset: SetInfo, n: nat)
    requires n < |pieces| && LowerSoFar(f, pieces, subset, n)
    requires var part := subset.transactions * FirstPieces(pieces, n + 1);
             part == {} || part == subset.transactions * FirstPieces(pieces, n)
               || Lower(SetTotal(f, part), subset.feerate)
    ensures LowerSoFar(f, pieces, subset, n + 1)
  {
  }

  lemma {:induction false} FirstPiecesMonotone(pieces: seq<seq<nat>>, i: nat, j: nat)
    requires i <= j <= |pieces|
    ensures FirstPieces(pieces, i) <= FirstPieces(pieces, j)
  {
    if i < j {
      FirstPiecesMonotone(pieces, i, j - 1);
      FirstPiecesNext(pieces, j - 1);
    }
  }

  lemma WholeSubset(f: Fees, pieces: seq<seq<nat>>, subset: SetInfo, n: nat)
    requires n < |pieces| && LowerSoFar(f, pieces, subset, n)
    requires subset.transactions <= FirstPieces(pieces, n + 1) && subset.feerate == SetTotal(f, subset.transactions)
    ensures MayLead(f, pieces, subset.transactions, subset.feerate)
  {
    var s := subset.transactions;
    forall j | 0 <= j <= |pieces|
      ensures s - FirstPieces(pieces, j) == {} || !Lower(SetTotal(f, s - FirstPieces(pieces, j)), subset.feerate)
    {
      if j <= n {
        RestNotLower(f, s, FirstPieces(pieces, j), subset.feerate);
      } else {
        FirstPiecesMonotone(pieces, n + 1, j);
      }
    }
  }

  lemma PartOfSubset(f: Fees, pieces: seq<seq<nat>>, subset: SetInfo, n: nat)
    requires n < |pieces| && LowerSoFar(f, pieces, subset, n)
    requires !Lower(SetTotal(f, subset.transactions * FirstPieces(pieces, n + 1)), subset.feerate)
    ensures MayLead(f, pieces, subset.transactions * FirstPieces(pieces, n + 1), subset.feerate)
  {
    var s := subset.transactions * FirstPieces(pieces, n + 1);
    forall j | 0 <= j <= |pieces|
      ensures s - FirstPieces(pieces, j) == {} || !Lower(SetTotal(f, s - FirstPieces(pieces, j)), subset.feerate)
    {
      if j <= n {
        FirstPiecesMonotone(pieces, j, n + 1);
        assert s * FirstPieces(pieces, j) == subset.transactions * FirstPieces(pieces, j);
        RestNotLower(f, s, FirstPieces(pieces, j), subset.feerate);
      } else {
        FirstPiecesMonotone(pieces, n + 1, j);
      }
    }
  }

  lemma KeepSized(f: Fees, l: seq<nat>, todo: set<nat>)
    requires Sized(f, l)
    ensures Sized(f, Keep(l, todo))
  {
    KeepElems(l, todo);
    forall x | x in Keep(l, todo) ensures f(x).size > 0 {
      assert x in Elems(Keep(l, todo));
    }
  }

  /** When subset is the first chunk of what remains: the chunks of the rest are the other chunks,
      and the first |subset| elements of the linearization are all done. */
  lemma FirstChunkDone(f: Fees, l: seq<nat>, todo: set<nat>, subset: set<nat>)
    requires NoDup(l) && Sized(f, l) && todo <= Elems(l) && subset <= todo
    requires var p := Chunking(f, Keep(l, todo)); p != [] && Elems(p[0]) == subset
    ensures |subset| <= |l| && todo - subset <= Elems(l[|subset|..])
    ensures Keep(l[|subset|..], todo - subset) == Keep(l, todo - subset)
    ensures Chunking(f, Keep(l, todo - subset)) == Chunking(f, Keep(l, todo))[1..]
  {
    var rem := Keep(l, todo);
    var p := Chunking(f, rem);
    KeepSized(f, l, todo);
    KeepNoDup(l, todo);
    ChunkingIsChunking(f, rem);
    TailChunking(f, p, rem);
    var n := |p[0]|;
    assert |subset| == n by { TotalIsSetTotal(f, rem[..n]); }
    RestAfterFirst(l, todo, subset, n);
    FirstAllDone(l, todo, subset, n);
    ChunkingIsChunking(f, rem[n..]);
    ChunkingUnique(f, p[1..], Chunking(f, rem[n..]), rem[n..]);
  }

  lemma RestAfterFirst(l: seq<nat>, todo: set<nat>, subset: set<nat>, n: nat)
    requires NoDup(l) && todo <= Elems(l) && subset <= todo
    requires n <= |Keep(l, todo)| && Elems(Keep(l, todo)[..n]) == subset
    ensures Keep(l, todo - subset) == Keep(l, todo)[n..]
  {
    var rem := Keep(l, todo);
    KeepElems(l, todo);
    KeepNoDup(l, todo);
    KeepKeep(l, todo, todo - subset);
    assert rem == rem[..n] + rem[n..];
    KeepConcat(rem[..n], rem[n..], todo - subset);
    KeepNone(rem[..n], todo - subset);
    forall x | x in Elems(rem[n..]) ensures x in todo - subset {
      var j :| n <= j < |rem| && rem[j] == x;
      assert rem[j] in Elems(rem);
    }
    KeepAll(rem[n..], todo - subset);
  }

  lemma FirstAllDone(l: seq<nat>, todo: set<nat>, subset: set<nat>, n: nat)
    requires NoDup(l) && todo <= Elems(l) && subset <= todo
    requires n <= |Keep(l, todo)| && Elems(Keep(l, todo)[..n]) == subset
    ensures n <= |l| && Keep(l, todo - subset) == Keep(l[n..], todo - subset)
    ensures todo - subset <= Elems(l[n..])
  {
    KeepElems(l, todo);
    forall x | x in Elems(l[..n]) ensures x !in todo - subset {
      var j :| 0 <= j < n && l[j] == x;
      EarlyDone(l, todo, j, n);
    }
    assert l == l[..n] + l[n..];
    KeepConcat(l[..n], l[n..], todo - subset);
    KeepNone(l[..n], todo - subset);
    forall x | x in todo - subset ensures x in Elems(l[n..]) {
      assert x in Elems(l) && x !in Elems(l[..n]);
    }
  }

  /** If element j of l remains, it is among the first j + 1 that remain. */
  lemma EarlyDone(l: seq<nat>, todo: set<nat>, j: nat, n: nat)
    requires j < |l| && j < n <= |Keep(l, todo)|
    ensures l[j] in todo ==> l[j] in Elems(Keep(l, todo)[..n])
  {
    if l[j] in todo {
      var a, b := l[..j+1], l[j+1..];
      assert l == a + b;
      KeepConcat(a, b, todo);
      KeepElems(a, todo);
      assert l[j] in Elems(a) by { assert a[j] == l[j]; }
      assert l[j] in Elems(Keep(a, todo));
      var i :| 0 <= i < |Keep(a, todo)| && Keep(a, todo)[i] == l[j];
      assert Keep(l, todo)[..n][i] == l[j];
    }
  }
}

/** What the FRESH flag is for (src/coins.h, src/coins.cpp): a coin that is created and spent above a base leaves no
    trace there, however many caches it went through. */
module CoinLifetimes {
  import opened CoinViews
  import opened Options

  /** The base of cache k has no coin at o, and the lowest entry for o from cache k up, if any, is an unspent coin
      marked FRESH. */
  ghost predicate Ephemeral(s: Stack, k: nat, o: OutPoint) {
    && k < |s.levels| && Look(s, k, o).Spent? && (k == 0 ==> o !in s.db)
    && var h := Holder(s, k, o);
    h < |s.levels| ==> s.levels[h][o].isFresh && s.levels[h][o].coin.Unspent?
  }

  /** A call on the cache on top that stays above the base of cache k and overwrites no coin at o. */
  ghost predicate StaysAbove(s: Stack, op: Op, k: nat, o: OutPoint) {
    var top := |s.levels| - 1;
    match op
    case Fetch(j, _) => j == top
    case Uncache(j, _) => j == top
    case Add(j, p, _, possibleOverwrite) => j == top && (p == o ==> !possibleOverwrite)
    case Spend(j, _) => j == top
    case Sync(j, _) => j == top > k
    case Flush(j, _) => j == top > k
    case Push => true
    case Pop => top > k
  }

  // ---------------------------------------------------------------------------------------------
  // The lowest entry
  // ---------------------------------------------------------------------------------------------

  lemma HolderIs(s: Stack, k: nat, o: OutPoint, h: nat)
    requires k <= h <= |s.levels| && (h < |s.levels| ==> o in s.levels[h]) && forall j | k <= j < h :: o !in s.levels[j]
    ensures Holder(s, k, o) == h
  {
  }

  /** Fetching puts entries for o only above others. */
  lemma {:induction false} FetchFills(s: Stack, j: nat, k: nat, o: OutPoint, i: nat)
    requires Consistent(s) && k <= j < |s.levels| && Look(s, k, o).Spent? && (k == 0 ==> o !in s.db)
    requires k <= i < |s.levels|
    ensures var f := FetchAt(s, j, o);
      && (o in s.levels[i] ==> At(f.levels[i], o) == At(s.levels[i], o))
      && (o in f.levels[i] ==> Holder(s, k, o) <= i)
    decreases j
  {
    hide Consistent, SameViews, Look, Fits;
    if o !in s.levels[j] && j > 0 {
      var below := FetchAt(s, j - 1, o);
      FetchKeeps(s, j - 1, o);
      if i >= j { FetchHigher(s, j - 1, i, o); }
      if j > k {
        FetchFills(s, j - 1, k, o, if i < j then i else j - 1);
      }
    }
  }

  lemma FetchKeepsEphemeral(s: Stack, k: nat, o: OutPoint)
    requires Consistent(s) && Ephemeral(s, k, o)
    ensures var f := FetchAt(s, |s.levels| - 1, o); Ephemeral(f, k, o) && Holder(f, k, o) == Holder(s, k, o)
  {
    hide Consistent, FetchAt, Look;
    var f, h := FetchAt(s, |s.levels| - 1, o), Holder(s, k, o);
    FetchKeeps(s, |s.levels| - 1, o);
    assert Look(f, k, o) == Look(s, k, o);
    FetchDb(s, |s.levels| - 1, o);
    forall i: nat | k <= i < h ensures o !in f.levels[i] {
      FetchFills(s, |s.levels| - 1, k, o, i);
    }
    if h < |s.levels| {
      FetchFills(s, |s.levels| - 1, k, o, h);
      assert At(f.levels[h], o) == Some(s.levels[h][o]);
    }
    HolderIs(f, k, o, h);
  }

  lemma {:induction false} FetchDb(s: Stack, j: nat, o: OutPoint)
    requires j < |s.levels|
    ensures FetchAt(s, j, o).db == s.db
    decreases j
  {
    if o !in s.levels[j] && j > 0 {
      FetchDb(s, j - 1, o);
    }
  }

  lemma {:induction false} FetchOther(s: Stack, j: nat, p: OutPoint, o: OutPoint, i: nat)
    requires j < |s.levels| && i < |s.levels| && p != o
    ensures At(FetchAt(s, j, p).levels[i], o) == At(s.levels[i], o)
    decreases j
  {
    if p !in s.levels[j] && j > 0 {
      FetchOther(s, j - 1, p, o, i);
    }
  }

  /** Entries for other outpoints do not matter. */
  lemma SameColumn(s: Stack, t: Stack, k: nat, o: OutPoint)
    requires Ephemeral(s, k, o) && |t.levels| == |s.levels| && Look(t, k, o).Spent? && t.db.Keys == s.db.Keys
    requires forall i | 0 <= i < |s.levels| :: At(t.levels[i], o) == At(s.levels[i], o)
    ensures Ephemeral(t, k, o)
  {
    hide Look;
    var h := Holder(s, k, o);
    forall i | k <= i < h ensures o !in t.levels[i] {
      assert At(t.levels[i], o) == At(s.levels[i], o);
    }
    if h < |s.levels| {
      assert At(t.levels[h], o) == Some(s.levels[h][o]);
    }
    HolderIs(t, k, o, h);
  }

  /** The entry of the cache on top may be replaced at will above another entry, and otherwise by none or by an
      unspent coin marked FRESH. */
  lemma ReplaceTop(s: Stack, k: nat, o: OutPoint, e: Option<Entry>)
    requires Ephemeral(s, k, o)
    requires Holder(s, k, o) >= |s.levels| - 1 && e.Some? ==> e.value.isFresh && e.value.coin.Unspent?
    ensures Ephemeral(Replace(s, |s.levels| - 1, o, e), k, o)
  {
    hide Look, Replace;
    var top, h := |s.levels| - 1, Holder(s, k, o);
    var t := Replace(s, top, o, e);
    ReplaceLook(s, top, o, e, k, o);
    ReplaceOthers(s, top, o, e);
    assert t.db == s.db by { ReplaceDb(s, top, o, e); }
    assert At(t.levels[top], o) == e;
    HolderIs(t, k, o, if h < top then h else if e.Some? then top else top + 1);
  }

  lemma ReplaceDb(s: Stack, k: nat, o: OutPoint, e: Option<Entry>)
    requires k < |s.levels|
    ensures Replace(s, k, o, e).db == s.db
  {
  }

  // ---------------------------------------------------------------------------------------------
  // Writing back
  // ---------------------------------------------------------------------------------------------

  lemma WriteBackAt(s: Stack, k: nat, order: seq<OutPoint>, o: OutPoint)
    requires Consistent(s) && 0 < k < |s.levels| && Lists(s.levels[k], order)
    ensures WriteBack(s, k, order).Done?
    ensures var r := WriteBack(s, k, order).result;
      && r == s.(levels := s.levels[k-1 := r.levels[k-1]])
      && At(r.levels[k-1], o) == if o in order then Written(At(s.levels[k-1], o), s.levels[k][o]).result
        else At(s.levels[k-1], o)
  {
    forall p | p in order ensures Written(At(s.levels[k-1], p), s.levels[k][p]).Done? {
      WrittenAt(s, k, order, p);
    }
    WriteAllAt(s.levels[k-1], s.levels[k], order);
  }

  /** The entries for o in the cache on top and in the one below it, after the first is written to the second. */
  lemma WrittenBelow(s: Stack, op: Op, o: OutPoint)
    requires Consistent(s) && Callable(s, op) && (op.Sync? || op.Flush?) && op.k > 0
    ensures Step(s, op).Done?
    ensures var t, k := Step(s, op).result, op.k; var us := At(s.levels[k-1], o);
      && |t.levels| == |s.levels| && t.db == s.db
      && (forall i | 0 <= i < |s.levels| && i != k && i != k - 1 :: t.levels[i] == s.levels[i])
      && At(t.levels[k-1], o) == (if o in s.levels[k] && s.levels[k][o].Flagged()
        then Written(us, s.levels[k][o]).result else us)
      && (o in t.levels[k] ==> o in s.levels[k] && (s.levels[k][o].Flagged() ==> s.levels[k][o].coin.Unspent?))
  {
    hide Consistent, WriteBack;
    WriteBackAt(s, op.k, op.order, o);
    assert o in op.order <==> o in s.levels[op.k] && s.levels[op.k][o].Flagged();
    if o in op.order {
      WrittenAt(s, op.k, op.order, o);
    }
  }

  lemma WriteKeepsEphemeral(s: Stack, op: Op, k: nat, o: OutPoint)
    requires Consistent(s) && Callable(s, op) && (op.Sync? || op.Flush?) && op.k == |s.levels| - 1 > k
    requires Ephemeral(s, k, o) && Step(s, op).Done? && |Step(s, op).result.levels| == |s.levels|
      && Look(Step(s, op).result, k, o).Spent?
    ensures Ephemeral(Step(s, op).result, k, o)
  {
    hide Consistent, Look, Step, Lists;
    var t, top, h := Step(s, op).result, op.k, Holder(s, k, o);
    WrittenBelow(s, op, o);
    FitsAt(s, top, o);
    FitsAt(s, top - 1, o);
    if o in s.levels[top-1] { LookTop(s, top, o); }
    if h < top - 1 {
      HolderIs(t, k, o, h);
    } else {
      assert At(s.levels[top-1], o) == if h == top - 1 then Some(s.levels[h][o]) else None;
      HolderIs(t, k, o, if At(t.levels[top-1], o).Some? then top - 1 else top + 1);
    }
  }

  lemma LookTop(s: Stack, k: nat, o: OutPoint)
    requires 0 < k < |s.levels| && o in s.levels[k-1]
    ensures Look(s, k, o) == s.levels[k-1][o].coin
  {
  }

  // ---------------------------------------------------------------------------------------------
  // Whole runs
  // ---------------------------------------------------------------------------------------------

  /** No call that stays above changes what the base shows. */
  lemma BaseKept(s: Stack, op: Op, k: nat, o: OutPoint)
    requires Consistent(s) && Allowed(s, op) && StaysAbove(s, op, k, o) && k < |s.levels|
    ensures Step(s, op).Done? && k < |Step(s, op).result.levels|
    ensures Look(Step(s, op).result, k, o).Spent? <==> Look(s, k, o).Spent?
  {
    hide Consistent, Step, Look, View, Undisturbed, Reach;
    StepRefines(s, op);
    var t := Step(s, op).result;
    assert Views(t)[k] == Views(s)[k];
    ViewAt(s, k, o);
    ViewAt(t, k, o);
  }

  /** What a call other than writing back does to the entries for o: it replaces at most that of the cache on top,
      and those that fetching fills in. */
  lemma CallKeepsEphemeral(s: Stack, op: Op, k: nat, o: OutPoint)
    requires Consistent(s) && Callable(s, op) && StaysAbove(s, op, k, o) && Ephemeral(s, k, o)
    requires (op.Fetch? || op.Uncache? || op.Add? || op.Spend?) && op.o == o
    requires Step(s, op).Done?
    ensures Ephemeral(Step(s, op).result, k, o)
  {
    hide Consistent, Look, Replace, FetchAt, Holder, Lists;
    var top := |s.levels| - 1;
    if op.Fetch? || op.Spend? {
      FetchKeepsEphemeral(s, k, o);
      var f := FetchAt(s, top, o);
      if op.Spend? {
        ReplaceTop(f, k, o, SpentEntry(At(f.levels[top], o)));
      }
    } else if op.Uncache? {
      ReplaceTop(s, k, o, Uncached(At(s.levels[top], o)));
    } else if !op.coin.unspendable {
      if Holder(s, k, o) >= top { AddedTop(s, op, k); }
      ReplaceTop(s, k, o, Some(Added(At(s.levels[top], o), op.coin, false).result));
    }
  }

  lemma AddedTop(s: Stack, op: Op, k: nat)
    requires Callable(s, op) && op.Add? && !op.possibleOverwrite && op.k == |s.levels| - 1
    requires Ephemeral(s, k, op.o) && Holder(s, k, op.o) >= |s.levels| - 1
    ensures op.o !in s.levels[op.k]
  {
  }

  lemma OtherKeepsEphemeral(s: Stack, op: Op, k: nat, o: OutPoint)
    requires Callable(s, op) && Ephemeral(s, k, o)
    requires (op.Fetch? || op.Uncache? || op.Add? || op.Spend?) && op.o != o
    requires Step(s, op).Done? && Look(Step(s, op).result, k, o).Spent?
    ensures Ephemeral(Step(s, op).result, k, o)
  {
    hide Look, Replace, FetchAt, Holder, Lists;
    var t := Step(s, op).result;
    FetchDb(s, op.k, op.o);
    var f := if op.Fetch? || op.Spend? then FetchAt(s, op.k, op.o) else s;
    forall i | 0 <= i < |s.levels| ensures At(f.levels[i], o) == At(s.levels[i], o) {
      FetchOther(s, op.k, op.o, o, i);
    }
    if op.Uncache? {
      ReplacedBy(s, op.k, op.o, Uncached(At(s.levels[op.k], op.o)), o);
    } else if op.Spend? {
      ReplacedBy(f, op.k, op.o, SpentEntry(At(f.levels[op.k], op.o)), o);
    } else if op.Add? && !op.coin.unspendable {
      ReplacedBy(s, op.k, op.o, Some(Added(At(s.levels[op.k], op.o), op.coin, op.possibleOverwrite).result), o);
    }
    SameColumn(s, t, k, o);
  }

  lemma ReplacedBy(s: Stack, k: nat, p: OutPoint, e: Option<Entry>, o: OutPoint)
    requires k < |s.levels| && p != o
    ensures Replace(s, k, p, e).db == s.db
    ensures forall i | 0 <= i < |s.levels| :: At(Replace(s, k, p, e).levels[i], o) == At(s.levels[i], o)
  {
  }

  lemma StepKeepsEphemeral(s: Stack, op: Op, k: nat, o: OutPoint)
    requires Consistent(s) && Allowed(s, op) && StaysAbove(s, op, k, o) && Ephemeral(s, k, o)
    ensures Step(s, op).Done? && Ephemeral(Step(s, op).result, k, o)
  {
    hide Consistent, Look, FetchAt, Holder, Lists, WriteBack, Replace;
    BaseKept(s, op, k, o);
    match op
    case Sync(_, _) => WrittenBelow(s, op, o); WriteKeepsEphemeral(s, op, k, o);
    case Flush(_, _) => WrittenBelow(s, op, o); WriteKeepsEphemeral(s, op, k, o);
    case Push => ResizeKeepsEphemeral(s, op, k, o);
    case Pop => ResizeKeepsEphemeral(s, op, k, o);
    case _ =>
      if op.o == o {
        CallKeepsEphemeral(s, op, k, o);
      } else {
        OtherKeepsEphemeral(s, op, k, o);
      }
  }

  lemma ResizeKeepsEphemeral(s: Stack, op: Op, k: nat, o: OutPoint)
    requires Callable(s, op) && StaysAbove(s, op, k, o) && Ephemeral(s, k, o) && (op.Push? || op.Pop?)
    requires Step(s, op).Done? && k < |Step(s, op).result.levels| && Look(Step(s, op).result, k, o).Spent?
    ensures Ephemeral(Step(s, op).result, k, o)
  {
    hide Look;
    var t, h := Step(s, op).result, Holder(s, k, o);
    HolderIs(t, k, o, if h < |s.levels| && h < |t.levels| then h else |t.levels|);
  }

  /** Every call of the run is one that stays above the base of cache k. */
  ghost predicate AllAbove(s: Stack, ops: seq<Op>, k: nat, o: OutPoint)
    decreases |ops|
  {
    || ops == []
    || (&& StaysAbove(s, ops[0], k, o) && Allowed(s, ops[0])
        && (Step(s, ops[0]).Done? ==> AllAbove(Step(s, ops[0]).result, ops[1..], k, o)))
  }

  lemma {:induction false} RunKeepsEphemeral(s: Stack, ops: seq<Op>, k: nat, o: OutPoint)
    requires Consistent(s) && Obeys(s, ops) && AllAbove(s, ops, k, o) && Ephemeral(s, k, o)
    ensures Run(s, ops).Done? && Consistent(Run(s, ops).result) && Ephemeral(Run(s, ops).result, k, o)
    decreases |ops|
  {
    hide Consistent, Step, Callable, Undisturbed, Ephemeral, StaysAbove, Views;
    if ops != [] {
      StepRefines(s, ops[0]);
      StepKeepsEphemeral(s, ops[0], k, o);
      RunKeepsEphemeral(Step(s, ops[0]).result, ops[1..], k, o);
    }
  }

  /** Whatever is done above a base without a coin at o, through however many caches: once no coin is shown there
      again, the lowest cache has no entry for it, and flushing that cache leaves the entry of the base as it is. */
  lemma NothingReachesBase(s: Stack, ops: seq<Op>, k: nat, o: OutPoint, order: seq<OutPoint>)
    requires Consistent(s) && Obeys(s, ops) && AllAbove(s, ops, k, o) && Ephemeral(s, k, o)
    ensures Run(s, ops).Done?
    ensures var t := Run(s, ops).result;
      && k < |t.levels|
      && (o !in View(t, k + 1) ==> o !in t.levels[k])
      && (o !in View(t, k + 1) && Callable(t, Flush(k, order)) ==> FlushSpares(t, k, order, o))
  {
    hide Consistent, Run, Obeys, AllAbove, View, Look, Holder;
    RunKeepsEphemeral(s, ops, k, o);
    var t := Run(s, ops).result;
    ViewAt(t, k + 1, o);
    LookHere(t, k, o);
    if o !in View(t, k + 1) && Callable(t, Flush(k, order)) && k > 0 {
      WriteBackAt(t, k, order, o);
    }
  }

  /** Flushing cache k does not change what its base holds for o. */
  ghost predicate FlushSpares(s: Stack, k: nat, order: seq<OutPoint>, o: OutPoint)
    requires Callable(s, Flush(k, order))
  {
    var r := Step(s, Flush(k, order));
    && r.Done? && |r.result.levels| == |s.levels|
    && if k == 0 then (o in r.result.db <==> o in s.db) && (o in s.db ==> r.result.db[o] == s.db[o])
    else At(r.result.levels[k-1], o) == At(s.levels[k-1], o)
  }

  lemma LookHere(s: Stack, k: nat, o: OutPoint)
    requires k < |s.levels|
    ensures o in s.levels[k] ==> Look(s, k + 1, o) == s.levels[k][o].coin && Holder(s, k, o) == k
  {
  }

  // ---------------------------------------------------------------------------------------------
  // One cache
  // ---------------------------------------------------------------------------------------------

  /** Spending a coin that was added where there was none takes the stack back to what it was: nothing is left of it,
      and spending it once more finds nothing, unless the database returns a spent coin. */
  lemma AddThenSpend(s: Stack, k: nat, o: OutPoint, coin: Coin)
    requires Consistent(s) && k < |s.levels| && o !in s.levels[k] && Look(s, k, o).Spent?
    requires coin.Unspent? && !coin.unspendable
    ensures var t := Replace(s, k, o, Some(Entry(coin, true, true)));
      && Callable(s, Add(k, o, coin, false)) && Step(s, Add(k, o, coin, false)) == Done(t)
      && Step(t, Spend(k, o)) == Done(s)
    ensures o in FetchAt(s, k, o).levels[k] <==> k == 0 && o in s.db
  {
    SpendFinds(s, k, o);
    ViewAt(s, k + 1, o);
    var t := Replace(s, k, o, Some(Entry(coin, true, true)));
    assert t.levels[k] - {o} == s.levels[k];
    assert Replace(t, k, o, None).levels == s.levels;
  }

  /** Spending leaves an entry exactly if one that was not FRESH was found; it is then a DIRTY spent coin. */
  lemma SpendLeaves(s: Stack, k: nat, o: OutPoint)
    requires k < |s.levels|
    ensures var f, t := FetchAt(s, k, o), Step(s, Spend(k, o)).result;
      && |t.levels| == |s.levels|
      && (o in t.levels[k] <==> o in f.levels[k] && !f.levels[k][o].isFresh)
      && (o in t.levels[k] ==> t.levels[k][o] == Entry(Spent, true, false))
  {
    hide FetchAt;
  }

  /** Synchronizing keeps every unspent coin cached, without flags, and only those; flushing keeps none. */
  lemma WritingKeeps(s: Stack, op: Op, o: OutPoint)
    requires Consistent(s) && Callable(s, op) && (op.Sync? || op.Flush?)
    ensures Step(s, op).Done? && |Step(s, op).result.levels| == |s.levels|
    ensures At(Step(s, op).result.levels[op.k], o) ==
      if op.Sync? && o in s.levels[op.k] && s.levels[op.k][o].coin.Unspent?
      then Some(Entry(s.levels[op.k][o].coin, false, false)) else None
  {
    hide Consistent, Look, WriteBack, WroteBack;
    WriteBackWorks(s, op.k, op.order);
    SameChild(s, WriteBack(s, op.k, op.order).result, op.k);
    FitsAt(s, op.k, o);
  }

  /** Uncaching drops an entry exactly if it has no flags, and changes nothing else. */
  lemma UncacheDrops(s: Stack, k: nat, o: OutPoint)
    requires k < |s.levels|
    ensures var t := Step(s, Uncache(k, o)).result;
      t == if o in s.levels[k] && !s.levels[k][o].isDirty && !s.levels[k][o].isFresh
        then s.(levels := s.levels[k := s.levels[k] - {o}]) else s
  {
    if o in s.levels[k] && s.levels[k][o].Flagged() {
      assert Put(s.levels[k], o, Some(s.levels[k][o])) == s.levels[k];
    }
    if o !in s.levels[k] {
      assert s.levels[k] - {o} == s.levels[k];
    }
  }
}

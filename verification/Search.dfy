/** SearchCandidateFinder::FindCandidateSet: bounded search for the highest-feerate topologically
    closed subset of what remains, on the graph sorted by decreasing feerate
    (src/cluster_linearize.h). */
module Searching {
  import opened FeeFracs
  import opened Diagram
  import opened TxSets
  import opened DepGraphs
  import opened Linearizations
  import opened Chunkings
  import opened Components
  import opened Integers

  /** inc is definitely included, und is undecided; pot bounds the feerate of what can come of it
      (only when inc is not empty). */
  datatype WorkItem = WorkItem(inc: SetInfo, und: set<nat>, pot: FeeFrac)

  /** The state the two lambdas of the search share. */
  datatype State = State(queue: seq<WorkItem>, best: SetInfo, imp: set<nat>, left: nat)

  /** Positions are in decreasing order of individual feerate. */
  ghost predicate Sorted(g: Graph) {
    forall i, j | i in g.used && j in g.used && i < j :: !Higher(g.Fee(j), g.Fee(i))
  }

  ghost predicate Searchable(g: Graph, todo: set<nat>) {
    g.Valid() && SizedGraph(g) && Sorted(g) && todo <= g.used && todo != {}
  }

  function RateOf(g: Graph, s: set<nat>): FeeFrac { SetTotal(FeesOf(g), s) }

  ghost predicate IsInfo(g: Graph, info: SetInfo) { info.feerate == RateOf(g, info.transactions) }

  /** No closed set that remains has a strictly higher feerate than s. */
  ghost predicate Optimal(g: Graph, todo: set<nat>, s: set<nat>) {
    && s != {} && Closed(g, todo, s)
    && forall x: set<nat> | x != {} && Closed(g, todo, x) :: !Higher(RateOf(g, x), RateOf(g, s))
  }

  /** Sets the item stands for: between inc and inc plus und. */
  predicate Compatible(inc: set<nat>, und: set<nat>, s: set<nat>) { inc <= s <= inc + und }

  // ---- Feerates of sets

  lemma {:induction false} AllBelow(f: Fees, s: set<nat>, r: FeeFrac)
    requires forall t | t in s :: Excess(f(t), r) <= 0
    ensures Excess(SetTotal(f, s), r) <= 0
  {
    if s != {} {
      var m := First(s);
      AllBelow(f, s - {m}, r);
      ExcessPlus(f(m), SetTotal(f, s - {m}), r);
    }
  }

  lemma {:induction false} AllAbove(f: Fees, s: set<nat>, r: FeeFrac)
    requires forall t | t in s :: Excess(f(t), r) > 0
    ensures Excess(SetTotal(f, s), r) >= 0
    ensures s != {} ==> Excess(SetTotal(f, s), r) > 0
  {
    if s != {} {
      var m := First(s);
      AllAbove(f, s - {m}, r);
      ExcessPlus(f(m), SetTotal(f, s - {m}), r);
    }
  }

  lemma ExcessParts(f: Fees, a: set<nat>, b: set<nat>, r: FeeFrac)
    requires a !! b
    ensures Excess(SetTotal(f, a + b), r) == Excess(SetTotal(f, a), r) + Excess(SetTotal(f, b), r)
  {
    SetTotalUnion(f, a, b);
    ExcessPlus(SetTotal(f, a), SetTotal(f, b), r);
  }

  lemma RatePositive(g: Graph, s: set<nat>)
    requires SizedGraph(g) && s <= g.used
    ensures s != {} ==> RateOf(g, s).size > 0
    ensures s == {} ==> RateOf(g, s) == EMPTY
    ensures RateOf(g, s).IsEmpty() <==> s == {}
  {
    SetTotalPositive(FeesOf(g), s);
  }

  /** A proper part of a set is smaller. */
  lemma RateOfPart(g: Graph, a: set<nat>, b: set<nat>)
    requires SizedGraph(g) && a <= b <= g.used
    ensures RateOf(g, a).size <= RateOf(g, b).size
    ensures RateOf(g, a).size == RateOf(g, b).size ==> a == b
  {
    SetTotalUnion(FeesOf(g), a, b - a);
    assert a + (b - a) == b;
    SetTotalPositive(FeesOf(g), b - a);
  }

  // ---- The potential of a work item

  /** pot is inc plus those members of avail (undecided, better than best) that raise its feerate. */
  ghost predicate IsPotential(g: Graph, inc: set<nat>, avail: set<nat>, pot: SetInfo) {
    && IsInfo(g, pot) && inc <= pot.transactions <= inc + avail
    && (forall t | t in pot.transactions - inc :: Higher(g.Fee(t), pot.feerate))
    && (forall t | t in avail - pot.transactions :: !Higher(g.Fee(t), pot.feerate))
  }

  method Potential(g: Graph, inc: SetInfo, avail: set<nat>) returns (pot: SetInfo)
    requires SizedGraph(g) && Sorted(g) && IsInfo(g, inc) && inc.transactions != {}
    requires avail <= g.used && inc.transactions <= g.used && avail !! inc.transactions
    ensures IsPotential(g, inc.transactions, avail, pot)
  {
    pot := inc;
    var rest := avail;
    RatePositive(g, inc.transactions);
    while rest != {}
      invariant rest <= avail && IsInfo(g, pot) && pot.transactions == inc.transactions + (avail - rest)
        && pot.feerate.size > 0
      invariant forall t | t in avail - rest :: Higher(g.Fee(t), pot.feerate)
      invariant forall t, u | t in avail - rest && u in rest :: t < u
    {
      var pos := First(rest);
      if !Higher(g.Fee(pos), pot.feerate) {
        forall t | t in rest ensures !Higher(g.Fee(t), pot.feerate) {
          if t != pos { ExcessTransfer(g.Fee(pos), g.Fee(t), pot.feerate); }
        }
        break;
      }
      PotentialGrows(g, inc, avail, rest, pot, pos);
      pot := SetInfo(pot.transactions + {pos}, pot.feerate.Plus(g.Fee(pos)));
      rest := rest - {pos};
    }
  }

  lemma PotentialGrows(g: Graph, inc: SetInfo, avail: set<nat>, rest: set<nat>, pot: SetInfo, pos: nat)
    requires SizedGraph(g) && Sorted(g) && IsInfo(g, pot) && pot.feerate.size > 0
    requires rest <= avail <= g.used && pos in rest && avail !! inc.transactions
    requires pot.transactions == inc.transactions + (avail - rest)
    requires forall t | t in avail - rest :: Higher(g.Fee(t), pot.feerate) && t < pos
    requires Higher(g.Fee(pos), pot.feerate)
    ensures var next := pot.feerate.Plus(g.Fee(pos));
            && RateOf(g, pot.transactions + {pos}) == next && next.size > 0
            && forall t | t in avail - rest || t == pos :: Higher(g.Fee(t), next)
  {
    var f, next := FeesOf(g), pot.feerate.Plus(g.Fee(pos));
    SetTotalTake(f, pot.transactions + {pos}, pos);
    assert pot.transactions + {pos} - {pos} == pot.transactions;
    SumBetween(pot.feerate, g.Fee(pos));
    forall t | t in avail - rest ensures Higher(g.Fee(t), next) {
      ExcessTransfer(g.Fee(t), g.Fee(pos), next);
    }
  }

  /** The transactions of todo with a feerate strictly above that of best. */
  ghost predicate IsImproving(g: Graph, todo: set<nat>, best: FeeFrac, imp: set<nat>) {
    imp <= todo && forall t | t in todo :: t in imp <==> Higher(g.Fee(t), best)
  }

  /** Nothing compatible with the item that beats best exceeds the potential. */
  lemma PotentialBounds(g: Graph, todo: set<nat>, inc: set<nat>, und: set<nat>, imp: set<nat>, best: FeeFrac,
                        pot: SetInfo, s: set<nat>)
    requires SizedGraph(g) && todo <= g.used && inc != {} && inc + und <= todo && inc !! und
    requires best.size > 0 && IsImproving(g, todo, best, imp) && IsPotential(g, inc, imp * und, pot)
    requires Compatible(inc, und, s) && Higher(RateOf(g, s), best)
    ensures !Higher(RateOf(g, s), pot.feerate)
  {
    if Higher(RateOf(g, s), pot.feerate) {
      var x := inc + (s - inc) * pot.transactions;
      RatePositive(g, s); RatePositive(g, x); RatePositive(g, pot.transactions);
      KeptPart(g, todo, inc, und, imp, best, pot, s, x);
      PotentialIsBest(g, inc, imp * und, pot, x);
      ExcessTransfer(RateOf(g, x), RateOf(g, s), pot.feerate);
      assert false;
    }
  }

  /** Dropping from s what is outside pot does not lower it, when s is above pot and best. */
  lemma KeptPart(g: Graph, todo: set<nat>, inc: set<nat>, und: set<nat>, imp: set<nat>, best: FeeFrac, pot: SetInfo,
                 s: set<nat>, x: set<nat>)
    requires SizedGraph(g) && todo <= g.used && inc != {} && inc + und <= todo && inc !! und
    requires best.size > 0 && IsImproving(g, todo, best, imp) && IsPotential(g, inc, imp * und, pot)
    requires Compatible(inc, und, s) && Higher(RateOf(g, s), best) && Higher(RateOf(g, s), pot.feerate)
    requires x == inc + (s - inc) * pot.transactions
    ensures !Lower(RateOf(g, x), RateOf(g, s))
  {
    var f, r, gone := FeesOf(g), RateOf(g, s), s - x;
    assert x + gone == s && x !! gone;
    RatePositive(g, s); RatePositive(g, pot.transactions);
    forall t | t in gone ensures Excess(f(t), r) <= 0 {
      assert t in und && t !in pot.transactions;
      if t in imp {
        ExcessTransfer(pot.feerate, g.Fee(t), r);
      } else {
        ExcessTransfer(best, g.Fee(t), r);
      }
    }
    AllBelow(f, gone, r);
    ExcessParts(f, x, gone, r);
  }

  /** Leaving members out of the potential does not raise its feerate. */
  lemma PotentialIsBest(g: Graph, inc: set<nat>, avail: set<nat>, pot: SetInfo, x: set<nat>)
    requires IsPotential(g, inc, avail, pot) && inc <= x <= pot.transactions
    ensures !Higher(RateOf(g, x), pot.feerate)
  {
    var f, out := FeesOf(g), pot.transactions - x;
    assert x + out == pot.transactions && x !! out;
    AllAbove(f, out, pot.feerate);
    ExcessParts(f, x, out, pot.feerate);
  }

  /** The jump ahead: a closed part of the potential lies inside every optimal compatible set. */
  lemma JumpInside(g: Graph, todo: set<nat>, inc: set<nat>, und: set<nat>, pot: SetInfo, avail: set<nat>, t: set<nat>,
                   star: set<nat>)
    requires SizedGraph(g) && todo <= g.used && inc != {} && IsPotential(g, inc, avail, pot) && avail <= und
      && inc + und <= todo
    requires Closed(g, todo, t) && t <= pot.transactions
    requires Optimal(g, todo, star) && Compatible(inc, und, star) && !Higher(RateOf(g, star), pot.feerate)
    ensures t <= star
  {
    var f, r, more := FeesOf(g), RateOf(g, star), t - star;
    assert Closed(g, todo, star + t) && star + more == star + t;
    if more != {} {
      RatePositive(g, star); RatePositive(g, pot.transactions);
      forall x | x in more ensures Excess(f(x), r) > 0 {
        ExcessTransfer(g.Fee(x), pot.feerate, r);
      }
      AllAbove(f, more, r);
      ExcessParts(f, star, more, r);
      assert false;
    }
  }

  /** The ancestors that remain of pos. */
  function AncTodo(g: Graph, todo: set<nat>, pos: nat): set<nat> { g.Anc(pos) * todo }

  lemma AncTodoClosed(g: Graph, todo: set<nat>, pos: nat)
    requires g.Valid() && todo <= g.used && pos in todo
    ensures Closed(g, todo, AncTodo(g, todo, pos)) && pos in AncTodo(g, todo, pos)
  {
    forall x | x in AncTodo(g, todo, pos) ensures g.Anc(x) * todo <= AncTodo(g, todo, pos) {
      assert g.Anc(x) <= g.Anc(pos);
    }
  }

  /** Every closed part of pot lies inside s. */
  ghost predicate Swallows(g: Graph, todo: set<nat>, pot: set<nat>, s: set<nat>) {
    forall t: set<nat> | Closed(g, todo, t) && t <= pot :: t <= s
  }

  /** Add to inc every member of pot whose remaining ancestors are all in pot, with them. */
  method JumpAhead(g: Graph, todo: set<nat>, inc: set<nat>, pot: set<nat>, ghost star: set<nat>) returns (out: set<nat>)
    requires g.Valid() && todo <= g.used && Closed(g, todo, inc) && inc <= pot <= todo
    ensures Closed(g, todo, out) && inc <= out <= pot
    ensures inc <= star && Swallows(g, todo, pot, star) ==> out <= star
  {
    out := inc;
    var rest := pot - inc;
    while rest != {}
      invariant rest <= pot && Closed(g, todo, out) && inc <= out <= pot
      invariant inc <= star && Swallows(g, todo, pot, star) ==> out <= star
    {
      var pos := First(rest);
      var anc := AncTodo(g, todo, pos);
      AncTodoClosed(g, todo, pos);
      if anc <= pot { out := out + anc; }
      rest := rest - {pos};
    }
  }

  /** Drop from the end of imp what is not above best; the order makes that all there is to drop. */
  method TrimImproving(g: Graph, todo: set<nat>, best: FeeFrac, imp0: set<nat>) returns (imp: set<nat>)
    requires SizedGraph(g) && Sorted(g) && todo <= g.used && imp0 <= todo && best.size > 0
    requires forall t | t in todo && Higher(g.Fee(t), best) :: t in imp0
    ensures IsImproving(g, todo, best, imp)
  {
    imp := imp0;
    while imp != {}
      invariant imp <= imp0 && forall t | t in todo && Higher(g.Fee(t), best) :: t in imp
    {
      var check := Last(imp);
      if Higher(g.Fee(check), best) {
        forall t | t in imp ensures Higher(g.Fee(t), best) {
          if t != check { ExcessTransfer(g.Fee(t), g.Fee(check), best); }
        }
        break;
      }
      imp := imp - {check};
    }
  }

  // ---- The work queue

  /** inc is closed, und is undecided, together they are closed. */
  ghost predicate SplitOk(g: Graph, todo: set<nat>, inc: SetInfo, und: set<nat>) {
    && IsInfo(g, inc) && Closed(g, todo, inc.transactions)
    && und !! inc.transactions && Closed(g, todo, inc.transactions + und)
  }

  /** star is an optimal set; while best is below it, the potential of an item that may lead to it
      is not. */
  ghost predicate ItemOk(g: Graph, todo: set<nat>, it: WorkItem, best: FeeFrac, star: set<nat>) {
    && SplitOk(g, todo, it.inc, it.und) && it.und != {}
    && (it.inc.transactions == {} ==> it.pot == EMPTY)
    && (it.inc.transactions != {} ==>
          && it.pot.size > 0 && !Higher(it.inc.feerate, best)
          && (Compatible(it.inc.transactions, it.und, star) && Higher(RateOf(g, star), best) ==>
            !Higher(RateOf(g, star), it.pot)))
  }

  ghost predicate BestOk(g: Graph, todo: set<nat>, best: SetInfo) {
    IsInfo(g, best) && best.transactions != {} && Closed(g, todo, best.transactions)
  }

  /** Position i plus the undecided transactions there never exceeds the reserved capacity. */
  predicate Fits(queue: seq<WorkItem>, cap: nat) {
    forall i | 0 <= i < |queue| :: i + |queue[i].und| <= cap
  }

  ghost predicate StateOk(g: Graph, todo: set<nat>, cap: nat, st: State, star: set<nat>) {
    && BestOk(g, todo, st.best) && IsImproving(g, todo, st.best.feerate, st.imp) && Fits(st.queue, cap)
    && forall it | it in st.queue :: ItemOk(g, todo, it, st.best.feerate, star)
  }

  /** As long as best is below the optimum, some item of the queue may still lead to it. */
  ghost predicate Covered(g: Graph, st: State, star: set<nat>) {
    Higher(RateOf(g, star), st.best.feerate) ==>
      exists it | it in st.queue :: Compatible(it.inc.transactions, it.und, star)
  }

  /** best stays, or gets better by feerate, then by size. */
  predicate NoWorse(a: SetInfo, b: SetInfo) { a == b || Better(a.feerate, b.feerate) }

  lemma BetterNotLower(a: FeeFrac, b: FeeFrac, c: FeeFrac)
    requires a.size > 0 && b.size > 0 && c.size > 0
    ensures Better(a, b) && Better(b, c) ==> Better(a, c)
    ensures Better(a, b) ==> !Lower(a, b)
  {
    ExcessTransfer(a, b, c);
    if Better(a, b) && Better(b, c) && Excess(a, b) == 0 && Excess(b, c) == 0 {
      ExcessTransfer(c, b, a);
    }
  }

  lemma ItemsKept(g: Graph, todo: set<nat>, items: seq<WorkItem>, best: FeeFrac, next: FeeFrac, star: set<nat>)
    requires SizedGraph(g) && todo <= g.used && star != {} && star <= todo && best.size > 0 && next.size > 0
      && !Lower(next, best)
    requires forall it | it in items :: ItemOk(g, todo, it, best, star)
    ensures forall it | it in items :: ItemOk(g, todo, it, next, star)
    ensures Higher(RateOf(g, star), next) ==> Higher(RateOf(g, star), best)
  {
    RatePositive(g, star);
    ExcessTransfer(next, best, RateOf(g, star));
    forall it | it in items ensures ItemOk(g, todo, it, next, star) {
      if it.inc.transactions != {} {
        RatePositive(g, it.inc.transactions);
        ExcessTransfer(next, best, it.inc.feerate);
      }
    }
  }

  /** add_fn: queue a work item unless nothing can come of it, improving it first. */
  method AddItem(g: Graph, todo: set<nat>, cap: nat, st: State, inc0: SetInfo, und0: set<nat>, ghost star: set<nat>)
    returns (st': State)
    requires Searchable(g, todo) && StateOk(g, todo, cap, st, star) && Optimal(g, todo, star)
    requires SplitOk(g, todo, inc0, und0) && |st.queue| + |und0| <= cap
    ensures StateOk(g, todo, cap, st', star) && st'.left == st.left && NoWorse(st'.best, st.best)
    ensures st.queue <= st'.queue && |st'.queue| <= |st.queue| + 1
    ensures LeadsOn(g, st, st', inc0.transactions, und0, star)
    ensures Weight(st'.queue) < Weight(st.queue) + Pow2(|und0|)
  {
    hide Graph.Valid, Sorted, Weight, Pow2;
    Pow2Positive(|und0|);
    RatePositive(g, inc0.transactions);
    if inc0.feerate.IsEmpty() {
      st' := st;
      if und0 == {} { return; }
      st' := Push(g, todo, cap, st, WorkItem(inc0, und0, inc0.feerate), star);
    } else {
      st' := AddImproved(g, todo, cap, st, inc0, und0, star);
    }
  }

  /** If star may come of inc and und and would still be better than best, then it may come of the item put at the end
      of the queue. */
  ghost predicate LeadsOn(g: Graph, st: State, st': State, inc: set<nat>, und: set<nat>, star: set<nat>) {
    Compatible(inc, und, star) && Higher(RateOf(g, star), st'.best.feerate) ==>
      |st'.queue| > |st.queue| && var it := st'.queue[|st.queue|]; Compatible(it.inc.transactions, it.und, star)
  }

  method Push(g: Graph, todo: set<nat>, cap: nat, st: State, it: WorkItem, ghost star: set<nat>) returns (st': State)
    requires StateOk(g, todo, cap, st, star) && ItemOk(g, todo, it, st.best.feerate, star)
    requires |st.queue| + |it.und| <= cap
    ensures st' == st.(queue := st.queue + [it]) && StateOk(g, todo, cap, st', star)
    ensures Weight(st'.queue) + 1 == Weight(st.queue) + Pow2(|it.und|)
  {
    hide Weight, Pow2;
    WeightPush(st.queue, it);
    assert |st.queue| < cap by { assert it.und != {}; }
    st' := st.(queue := st.queue + [it]);
  }

  method AddImproved(g: Graph, todo: set<nat>, cap: nat, st: State, inc0: SetInfo, und0: set<nat>, ghost star: set<nat>)
    returns (st': State)
    requires Searchable(g, todo) && StateOk(g, todo, cap, st, star) && Optimal(g, todo, star)
    requires SplitOk(g, todo, inc0, und0) && inc0.transactions != {} && |st.queue| + |und0| <= cap
    ensures StateOk(g, todo, cap, st', star) && st'.left == st.left && NoWorse(st'.best, st.best)
    ensures st.queue <= st'.queue && |st'.queue| <= |st.queue| + 1
    ensures Compatible(inc0.transactions, und0, star) && Higher(RateOf(g, star), st'.best.feerate) ==>
              |st'.queue| > |st.queue| && var it := st'.queue[|st.queue|]; Compatible(it.inc.transactions, it.und, star)
    ensures Weight(st'.queue) < Weight(st.queue) + Pow2(|und0|)
  {
    hide Weight, Pow2;
    Pow2Positive(|und0|);
    var pot := Potential(g, inc0, st.imp * und0);
    var incTx := JumpAhead(g, todo, inc0.transactions, pot.transactions, star);
    JumpSplit(g, todo, inc0, und0, st.imp * und0, pot, incTx);
    if Compatible(inc0.transactions, und0, star) && Higher(RateOf(g, star), st.best.feerate) {
      JumpCompatible(g, todo, st.best, st.imp, inc0, und0, pot, incTx, star);
    }
    var und := und0 - incTx;
    var inc := SetInfo(incTx, inc0.feerate.Plus(RateOf(g, incTx - inc0.transactions)));
    st' := UpdateBest(g, todo, cap, st, inc, star);
    if pot.feerate.size == inc.feerate.size {
      RatePositive(g, star);
      RatePositive(g, st'.best.transactions);
      if !Higher(RateOf(g, star), pot.feerate) { NothingToGain(pot.feerate, st'.best.feerate, RateOf(g, star)); }
      return;
    }
    SubsetCard(und, und0);
    Pow2Grows(|und|, |und0|);
    st' := Push(g, todo, cap, st', WorkItem(inc, und, pot.feerate), star);
  }

  /** What the jump ahead leaves: still a valid split, with the potential in between. */
  lemma JumpSplit(g: Graph, todo: set<nat>, inc0: SetInfo, und0: set<nat>, avail: set<nat>, pot: SetInfo,
                  incTx: set<nat>)
    requires Searchable(g, todo) && avail <= und0
    requires SplitOk(g, todo, inc0, und0) && inc0.transactions != {} && IsPotential(g, inc0.transactions, avail, pot)
    requires Closed(g, todo, incTx) && inc0.transactions <= incTx <= pot.transactions
    ensures var inc := SetInfo(incTx, inc0.feerate.Plus(RateOf(g, incTx - inc0.transactions)));
            && SplitOk(g, todo, inc, und0 - incTx) && pot.feerate.size > 0
            && (if pot.feerate.size == inc.feerate.size then pot.feerate == inc.feerate else und0 - incTx != {})
  {
    hide Graph.Valid, Sorted, SetTotal;
    SetTotalUnion(FeesOf(g), inc0.transactions, incTx - inc0.transactions);
    assert inc0.transactions + (incTx - inc0.transactions) == incTx;
    assert incTx + (und0 - incTx) == inc0.transactions + und0;
    assert incTx != pot.transactions ==> und0 - incTx != {} by {
      if incTx != pot.transactions {
        var x :| x in pot.transactions && x !in incTx;
        assert x in und0 - incTx;
      }
    }
    RateOfPart(g, incTx, pot.transactions);
    RatePositive(g, pot.transactions);
  }

  /** It is still compatible with the optimum, which the potential bounds, if the item was. */
  lemma JumpCompatible(g: Graph, todo: set<nat>, best: SetInfo, imp: set<nat>, inc0: SetInfo, und0: set<nat>,
                       pot: SetInfo,
                       incTx: set<nat>, star: set<nat>)
    requires Searchable(g, todo) && BestOk(g, todo, best) && IsImproving(g, todo, best.feerate, imp)
      && Optimal(g, todo, star)
    requires SplitOk(g, todo, inc0, und0) && inc0.transactions != {}
      && IsPotential(g, inc0.transactions, imp * und0, pot)
    requires inc0.transactions <= incTx
    requires inc0.transactions <= star && Swallows(g, todo, pot.transactions, star) ==> incTx <= star
    requires Compatible(inc0.transactions, und0, star) && Higher(RateOf(g, star), best.feerate)
    ensures Compatible(incTx, und0 - incTx, star) && !Higher(RateOf(g, star), pot.feerate)
  {
    hide Graph.Valid, Sorted, SetTotal, Optimal, IsImproving, IsPotential, SizedGraph;
    RatePositive(g, best.transactions);
    PotentialBounds(g, todo, inc0.transactions, und0, imp, best.feerate, pot, star);
    assert Swallows(g, todo, pot.transactions, star) by {
      forall t: set<nat> | Closed(g, todo, t) && t <= pot.transactions ensures t <= star {
        JumpInside(g, todo, inc0.transactions, und0, pot, imp * und0, t, star);
      }
    }
  }

  /** Remember inc as the new best if it is better, and drop entries from imp. */
  method UpdateBest(g: Graph, todo: set<nat>, cap: nat, st: State, inc: SetInfo, ghost star: set<nat>)
    returns (st': State)
    requires Searchable(g, todo) && StateOk(g, todo, cap, st, star) && Optimal(g, todo, star) && BestOk(g, todo, inc)
    ensures StateOk(g, todo, cap, st', star) && st'.queue == st.queue && st'.left == st.left
    ensures NoWorse(st'.best, st.best) && !Higher(inc.feerate, st'.best.feerate)
    ensures Higher(RateOf(g, star), st'.best.feerate) ==> Higher(RateOf(g, star), st.best.feerate)
  {
    st' := st;
    if Better(inc.feerate, st.best.feerate) {
      RatePositive(g, inc.transactions);
      RatePositive(g, st.best.transactions);
      ItemsKept(g, todo, st.queue, st.best.feerate, inc.feerate, star);
      assert forall t | t in todo && Higher(g.Fee(t), inc.feerate) :: t in st.imp by {
        forall t | t in todo && Higher(g.Fee(t), inc.feerate) ensures t in st.imp {
          ExcessTransfer(inc.feerate, st.best.feerate, g.Fee(t));
        }
      }
      var imp := TrimImproving(g, todo, inc.feerate, st.imp);
      st' := st.(best := inc, imp := imp);
    }
  }

  /** When the potential adds nothing to inc, which is not above best, neither is the optimum. */
  lemma NothingToGain(pot: FeeFrac, best: FeeFrac, s: FeeFrac)
    requires pot.size > 0 && best.size > 0 && s.size > 0 && !Higher(pot, best) && !Higher(s, pot)
    ensures !Higher(s, best)
  {
    ExcessTransfer(best, pot, s);
  }

  // ---- Splitting a work item

  /** Nothing undecided is above best, and inc is not: no compatible set is. */
  lemma NoImprovingLeft(g: Graph, todo: set<nat>, inc: SetInfo, und: set<nat>, imp: set<nat>, best: FeeFrac,
                        star: set<nat>)
    requires und <= todo && inc.transactions !! und && IsInfo(g, inc) && IsImproving(g, todo, best, imp)
    requires und * imp == {} && !Higher(inc.feerate, best) && Compatible(inc.transactions, und, star)
    ensures !Higher(RateOf(g, star), best)
  {
    var f, more := FeesOf(g), star - inc.transactions;
    forall t | t in more ensures Excess(f(t), best) <= 0 { assert t in und && t !in und * imp; }
    AllBelow(f, more, best);
    ExcessParts(f, inc.transactions, more, best);
    assert inc.transactions + more == star;
  }

  /** If even the undecided transaction of highest feerate is not above best, nothing is. */
  lemma FirstNotAbove(g: Graph, todo: set<nat>, und: set<nat>, best: FeeFrac, star: set<nat>)
    requires Searchable(g, todo) && und <= todo && und != {} && best.size > 0 && !Higher(g.Fee(First(und)), best)
      && star <= und
    ensures !Higher(RateOf(g, star), best)
  {
    var f, first := FeesOf(g), First(und);
    forall t | t in star ensures Excess(f(t), best) <= 0 {
      if t != first { ExcessTransfer(g.Fee(first), g.Fee(t), best); }
    }
    AllBelow(f, star, best);
  }

  /** The sizes of the undecided set after including and after excluding t, larger first. */
  function Counts(g: Graph, und: set<nat>, t: nat): (nat, nat) {
    var i, e := |und - g.Anc(t)|, |und - g.Desc(t)|;
    if i < e then (e, i) else (i, e)
  }

  predicate CountsLess(a: (nat, nat), b: (nat, nat)) { a.0 < b.0 || (a.0 == b.0 && a.1 < b.1) }

  /** The member of select with the smallest counts, the first of them. */
  method ChooseSplit(g: Graph, und: set<nat>, select: set<nat>) returns (split: nat)
    requires select != {}
    ensures split in select && forall t | t in select :: !CountsLess(Counts(g, und, t), Counts(g, und, split))
    ensures forall t | t in select && Counts(g, und, t) == Counts(g, und, split) :: split <= t
    ensures forall t | t in select ::
      Pow2(|und - g.Anc(split)|) + Pow2(|und - g.Desc(split)|) <= Pow2(|und - g.Anc(t)|) + Pow2(|und - g.Desc(t)|)
  {
    hide Counts, Pow2;
    split := First(select);
    var rest := select - {split};
    while rest != {}
      invariant rest <= select && split in select - rest
      invariant forall t | t in select - rest :: !CountsLess(Counts(g, und, t), Counts(g, und, split))
      invariant forall t | t in select - rest && Counts(g, und, t) == Counts(g, und, split) :: split <= t
      invariant forall t, u | t in select - rest && u in rest :: t < u
    {
      var t := First(rest);
      if CountsLess(Counts(g, und, t), Counts(g, und, split)) { split := t; }
      assert forall u | u in rest - {t} :: t < u;
      assert select - (rest - {t}) == (select - rest) + {t};
      rest := rest - {t};
    }
    assert select - rest == select;
    forall t | t in select
      ensures Pow2(|und - g.Anc(split)|) + Pow2(|und - g.Desc(split)|)
        <= Pow2(|und - g.Anc(t)|) + Pow2(|und - g.Desc(t)|) {
      CountsAre(g, und, split, t);
    }
  }

  lemma CountsAre(g: Graph, und: set<nat>, s: nat, t: nat)
    requires !CountsLess(Counts(g, und, t), Counts(g, und, s))
    ensures Pow2(|und - g.Anc(s)|) + Pow2(|und - g.Desc(s)|) <= Pow2(|und - g.Anc(t)|) + Pow2(|und - g.Desc(t)|)
  {
    hide Pow2;
    CountsOrder(Counts(g, und, t), Counts(g, und, s));
  }

  /** Comparing the greater count first is comparing the sums of the numbers of subsets. */
  lemma CountsOrder(a: (nat, nat), b: (nat, nat))
    requires a.0 >= a.1 && b.0 >= b.1
    ensures CountsLess(a, b) <==> Pow2(a.0) + Pow2(a.1) < Pow2(b.0) + Pow2(b.1)
  {
    hide Pow2;
    if CountsLess(a, b) {
      CountsBelow(a, b);
    } else if a != b {
      CountsBelow(b, a);
    }
  }

  lemma CountsBelow(a: (nat, nat), b: (nat, nat))
    requires a.0 >= a.1 && b.0 >= b.1 && CountsLess(a, b)
    ensures Pow2(a.0) + Pow2(a.1) < Pow2(b.0) + Pow2(b.1)
  {
    hide Pow2;
    Pow2Grows(a.1, a.0);
    Pow2Positive(b.1);
    Pow2Positive(a.1);
    if a.0 < b.0 {
      Pow2Next(a.0 + 1);
      Pow2Grows(a.0 + 1, b.0);
    } else {
      Pow2Next(a.1 + 1);
      Pow2Grows(a.1 + 1, b.1);
    }
  }

  lemma ExcludeOk(g: Graph, todo: set<nat>, inc: SetInfo, und: set<nat>, t: nat, star: set<nat>)
    requires g.Valid() && todo <= g.used && SplitOk(g, todo, inc, und) && t in und
    ensures SplitOk(g, todo, inc, und - g.Desc(t)) && |und - g.Desc(t)| < |und|
    ensures Closed(g, todo, star) && Compatible(inc.transactions, und, star) && t !in star ==>
              Compatible(inc.transactions, und - g.Desc(t), star)
  {
    var less := und - g.Desc(t);
    assert t in g.Desc(t);
    SubsetCard(less, und - {t});
    forall x | x in inc.transactions + less ensures g.Anc(x) * todo <= inc.transactions + less {
      forall a | a in g.Anc(x) * todo ensures a in inc.transactions + less {
        if x in less {
          assert g.Anc(a) <= g.Anc(x);
          assert a in g.Desc(t) ==> t in g.Anc(a) && x in g.Desc(t);
        }
      }
    }
  }

  lemma IncludeOk(g: Graph, todo: set<nat>, inc: SetInfo, und: set<nat>, t: nat, star: set<nat>)
    requires g.Valid() && todo <= g.used && SplitOk(g, todo, inc, und) && t in und && t in todo
    ensures var anc := AncTodo(g, todo, t);
            && SplitOk(g, todo, SetInfo(inc.transactions + anc, inc.feerate.Plus(RateOf(g, anc - inc.transactions))),
              und - anc)
            && |und - anc| < |und|
            && (Closed(g, todo, star) && Compatible(inc.transactions, und, star) && t in star ==>
                  Compatible(inc.transactions + anc, und - anc, star))
  {
    hide Graph.Valid, SetTotal, AncTodo, SplitOk, IsInfo, RateOf;
    var anc := AncTodo(g, todo, t);
    AncTodoClosed(g, todo, t);
    SubsetCard(und - anc, und - {t});
    IncludeClosed(g, todo, inc, und, anc, t);
    if Closed(g, todo, star) && t in star { AncInside(g, todo, star, t); }
  }

  lemma IncludeClosed(g: Graph, todo: set<nat>, inc: SetInfo, und: set<nat>, anc: set<nat>, t: nat)
    requires SplitOk(g, todo, inc, und) && t in und && anc == AncTodo(g, todo, t) && Closed(g, todo, anc)
    ensures SplitOk(g, todo, SetInfo(inc.transactions + anc, inc.feerate.Plus(RateOf(g, anc - inc.transactions))),
      und - anc)
  {
    hide SetTotal, AncTodo;
    AncInside(g, todo, inc.transactions + und, t);
    SetTotalUnion(FeesOf(g), inc.transactions, anc - inc.transactions);
    assert inc.transactions + (anc - inc.transactions) == inc.transactions + anc;
    assert inc.transactions + anc + (und - anc) == inc.transactions + und;
  }

  lemma AncInside(g: Graph, todo: set<nat>, s: set<nat>, t: nat)
    requires Closed(g, todo, s) && t in s
    ensures AncTodo(g, todo, t) <= s
  {
  }

  /** What processing elem may do to the state. */
  ghost predicate Processed(g: Graph, st: State, st': State, elem: WorkItem, star: set<nat>) {
    && NoWorse(st'.best, st.best) && st.queue <= st'.queue
    && (if st'.left == st.left then st' == st else st'.left == st.left - 1 && |st'.queue| <= |st.queue| + 2)
    && (st'.left < st.left ==> Weight(st'.queue) + 2 <= Weight(st.queue) + Pow2(|elem.und|))
    && (Compatible(elem.inc.transactions, elem.und, star) && Higher(RateOf(g, star), st'.best.feerate) ==>
          exists it | it in st'.queue :: Compatible(it.inc.transactions, it.und, star))
  }

  /** split_fn: drop elem if nothing can come of it, else split it on a transaction in two items. */
  method SplitItem(g: Graph, todo: set<nat>, cap: nat, st: State, elem: WorkItem, ghost star: set<nat>)
    returns (st': State)
    requires Searchable(g, todo) && StateOk(g, todo, cap, st, star) && Optimal(g, todo, star)
    requires ItemOk(g, todo, elem, st.best.feerate, star) && |st.queue| + |elem.und| <= cap && st.left > 0
    ensures StateOk(g, todo, cap, st', star) && Processed(g, st, st', elem, star)
  {
    st' := st;
    var first := First(elem.und);
    RatePositive(g, elem.inc.transactions);
    RatePositive(g, st.best.transactions);
    RatePositive(g, star);
    if !elem.inc.feerate.IsEmpty() {
      if elem.und * st.imp == {} {
        if Compatible(elem.inc.transactions, elem.und, star) {
          NoImprovingLeft(g, todo, elem.inc, elem.und, st.imp, st.best.feerate, star);
        }
        return;
      }
      if !Better(elem.pot, st.best.feerate) {
        if !Higher(RateOf(g, star), elem.pot) { NothingToGain(elem.pot, st.best.feerate, RateOf(g, star)); }
        return;
      }
    } else {
      if !Better(g.Fee(first), st.best.feerate) {
        if Compatible({}, elem.und, star) { FirstNotAbove(g, todo, elem.und, st.best.feerate, star); }
        return;
      }
    }
    var select := elem.und * g.Anc(first);
    assert first in select;
    var split := ChooseSplit(g, elem.und, select);
    st' := SplitOn(g, todo, cap, st, elem, split, star);
  }

  method SplitOn(g: Graph, todo: set<nat>, cap: nat, st: State, elem: WorkItem, split: nat, ghost star: set<nat>)
    returns (st': State)
    requires Searchable(g, todo) && StateOk(g, todo, cap, st, star) && Optimal(g, todo, star)
    requires ItemOk(g, todo, elem, st.best.feerate, star) && |st.queue| + |elem.und| <= cap && st.left > 0
    requires split in elem.und
    ensures StateOk(g, todo, cap, st', star) && Processed(g, st, st', elem, star)
  {
    hide *;
    SplitFacts(g, todo, elem, st.best.feerate, star);
    ExcludeOk(g, todo, elem.inc, elem.und, split, star);
    var st1 := AddItem(g, todo, cap, st, elem.inc, elem.und - g.Desc(split), star);
    var anc := AncTodo(g, todo, split);
    IncludeOk(g, todo, elem.inc, elem.und, split, star);
    var inc := SetInfo(elem.inc.transactions + anc, elem.inc.feerate.Plus(RateOf(g, anc - elem.inc.transactions)));
    var st2 := AddItem(g, todo, cap, st1, inc, elem.und - anc, star);
    BestGrows(g, todo, cap, st, st1, st2, star);
    st' := st2.(left := st2.left - 1);
    StateOkLeft(g, todo, cap, st2, star, st2.left - 1);
    BothSmaller(|elem.und - g.Desc(split)|, |elem.und - anc|, |elem.und|);
    SplitProcessed(g, todo, st, st1, st2, elem, split, star);
  }

  lemma SplitFacts(g: Graph, todo: set<nat>, elem: WorkItem, best: FeeFrac, star: set<nat>)
    requires ItemOk(g, todo, elem, best, star) && Searchable(g, todo) && Optimal(g, todo, star)
    ensures SplitOk(g, todo, elem.inc, elem.und) && star != {} && star <= todo && Closed(g, todo, star)
    ensures g.Valid() && todo <= g.used && elem.und <= todo
  {
  }

  lemma SplitProcessed(g: Graph, todo: set<nat>, st: State, st1: State, st2: State, elem: WorkItem, split: nat,
                       star: set<nat>)
    requires st.left > 0 && st1.left == st.left && st2.left == st.left && NoWorse(st2.best, st.best)
    requires st.queue <= st1.queue <= st2.queue && |st1.queue| <= |st.queue| + 1 && |st2.queue| <= |st1.queue| + 1
    requires Higher(RateOf(g, star), st2.best.feerate) ==> Higher(RateOf(g, star), st1.best.feerate)
    requires Closed(g, todo, star)
    requires Weight(st2.queue) + 2 <= Weight(st.queue) + Pow2(|elem.und|)
    requires var und := elem.und - g.Desc(split);
             && (Compatible(elem.inc.transactions, elem.und, star) && split !in star ==>
               Compatible(elem.inc.transactions, und, star))
             && LeadsOn(g, st, st1, elem.inc.transactions, und, star)
    requires var anc := AncTodo(g, todo, split);
             && (Compatible(elem.inc.transactions, elem.und, star) && split in star ==>
                   Compatible(elem.inc.transactions + anc, elem.und - anc, star))
             && LeadsOn(g, st1, st2, elem.inc.transactions + anc, elem.und - anc, star)
    ensures Processed(g, st, st2.(left := st2.left - 1), elem, star)
  {
    hide Compatible, RateOf, Closed, AncTodo, NoWorse, Weight, Pow2;
    if Compatible(elem.inc.transactions, elem.und, star) && Higher(RateOf(g, star), st2.best.feerate) {
      if split in star {
        assert st2.queue[|st1.queue|] in st2.queue;
      } else {
        assert st2.queue[|st.queue|] == st1.queue[|st.queue|];
        assert st2.queue[|st.queue|] in st2.queue;
      }
    }
  }

  /** Both halves of a split have fewer undecided transactions, so together they have less before them. */
  lemma BothSmaller(a: nat, b: nat, u: nat)
    requires a < u && b < u
    ensures Pow2(a) + Pow2(b) <= Pow2(u)
  {
    Pow2Next(u);
    hide Pow2;
    Pow2Grows(a, u - 1);
    Pow2Grows(b, u - 1);
  }

  // ---- How much there is left to search

  /** The number of splits that the items of the queue may still take. */
  ghost function Weight(queue: seq<WorkItem>): nat {
    if queue == [] then 0 else Pow2(|queue[0].und|) - 1 + Weight(queue[1..])
  }

  lemma {:induction false} WeightPush(queue: seq<WorkItem>, it: WorkItem)
    ensures Weight(queue + [it]) + 1 == Weight(queue) + Pow2(|it.und|)
  {
    hide Pow2;
    if queue == [] {
      assert [] + [it] == [it] && [it][1..] == [];
    } else {
      assert (queue + [it])[1..] == queue[1..] + [it];
      WeightPush(queue[1..], it);
    }
  }

  lemma WeightPop(queue: seq<WorkItem>, front: bool)
    requires queue != []
    ensures var it, rest := if front then queue[0] else queue[|queue|-1],
                            if front then queue[1..] else queue[..|queue|-1];
      Weight(queue) + 1 == Weight(rest) + Pow2(|it.und|)
  {
    hide Pow2;
    if !front {
      assert queue == queue[..|queue|-1] + [queue[|queue|-1]];
      WeightPush(queue[..|queue|-1], queue[|queue|-1]);
    }
  }

  lemma WeightSwap(queue: seq<WorkItem>)
    requires |queue| > 1
    ensures Weight(queue[0 := queue[1]][1 := queue[0]]) == Weight(queue)
  {
    hide Pow2;
    var swapped := queue[0 := queue[1]][1 := queue[0]];
    assert swapped[1..][1..] == queue[1..][1..];
    assert Weight(swapped) == Pow2(|swapped[0].und|) - 1 + Weight(swapped[1..]);
    assert Weight(queue) == Pow2(|queue[0].und|) - 1 + Weight(queue[1..]);
    assert Weight(queue[1..]) == Pow2(|queue[1].und|) - 1 + Weight(queue[1..][1..]);
  }

  /** One more component: the weight stays below the number of subsets. */
  lemma WeightComponent(queue: seq<WorkItem>, component: set<nat>, todo: set<nat>, toCover: set<nat>)
    requires component <= toCover <= todo && Weight(queue) < Pow2(|todo - toCover|)
    ensures Weight(queue + [ComponentItem(component)]) < Pow2(|todo - (toCover - component)|)
  {
    hide Weight, Pow2, ComponentItem;
    Covers(todo, toCover, component);
    WeightMore(queue, component, |todo - toCover|);
  }

  lemma WeightMore(queue: seq<WorkItem>, component: set<nat>, n: nat)
    requires Weight(queue) < Pow2(n)
    ensures Weight(queue + [ComponentItem(component)]) < Pow2(n + |component|)
  {
    hide Weight, Pow2;
    WeightPush(queue, ComponentItem(component));
    BelowSum(Weight(queue), n, |component|);
  }

  lemma BelowSum(w: nat, i: nat, j: nat)
    requires w < Pow2(i)
    ensures w + Pow2(j) - 1 < Pow2(i + j)
  {
    Pow2Sum(i, j);
    hide Pow2;
    Pow2Positive(j);
    SumProduct(Pow2(i), Pow2(j));
  }

  lemma SumProduct(x: nat, y: nat)
    requires x > 0 && y > 0
    ensures x + y <= x * y + 1
  {
    assert (x - 1) * (y - 1) == x * y - x - y + 1;
    MulMono(0, x - 1, y - 1);
  }

  lemma StateOkLeft(g: Graph, todo: set<nat>, cap: nat, st: State, star: set<nat>, left: nat)
    requires StateOk(g, todo, cap, st, star)
    ensures StateOk(g, todo, cap, st.(left := left), star)
  {
  }

  /** best only ever gets better. */
  lemma BestGrows(g: Graph, todo: set<nat>, cap: nat, st: State, st1: State, st2: State, star: set<nat>)
    requires Searchable(g, todo) && star != {} && star <= todo
    requires StateOk(g, todo, cap, st, star) && StateOk(g, todo, cap, st1, star) && StateOk(g, todo, cap, st2, star)
    requires NoWorse(st1.best, st.best) && NoWorse(st2.best, st1.best)
    ensures NoWorse(st2.best, st.best)
    ensures Higher(RateOf(g, star), st2.best.feerate) ==> Higher(RateOf(g, star), st1.best.feerate)
    ensures Higher(RateOf(g, star), st1.best.feerate) ==> Higher(RateOf(g, star), st.best.feerate)
  {
    var a, b, c, s := st.best.feerate, st1.best.feerate, st2.best.feerate, RateOf(g, star);
    RatePositive(g, st.best.transactions);
    RatePositive(g, st1.best.transactions);
    RatePositive(g, st2.best.transactions);
    RatePositive(g, star);
    BetterNotLower(c, b, a);
    BetterNotLower(b, a, a);
    ExcessTransfer(c, b, s);
    ExcessTransfer(b, a, s);
  }

  // ---- The optimum

  /** Sets of todo with a strictly higher feerate than s. */
  ghost function HigherSets(g: Graph, todo: set<nat>, s: set<nat>): set<set<nat>> {
    set x: set<nat> | x <= todo && x != {} && Higher(RateOf(g, x), RateOf(g, s))
  }

  lemma {:induction false} OptimalAbove(g: Graph, todo: set<nat>, s: set<nat>) returns (star: set<nat>)
    requires SizedGraph(g) && todo <= g.used && s != {} && Closed(g, todo, s)
    ensures Optimal(g, todo, star)
    decreases HigherSets(g, todo, s)
  {
    if x: set<nat> :| x != {} && Closed(g, todo, x) && Higher(RateOf(g, x), RateOf(g, s)) {
      assert x in HigherSets(g, todo, s);
      assert HigherSets(g, todo, x) < HigherSets(g, todo, s) by {
        forall y | y in HigherSets(g, todo, x) ensures y in HigherSets(g, todo, s) {
          RatePositive(g, x); RatePositive(g, y); RatePositive(g, s);
          ExcessTransfer(RateOf(g, y), RateOf(g, x), RateOf(g, s));
        }
        assert x !in HigherSets(g, todo, x);
      }
      star := OptimalAbove(g, todo, x);
    } else {
      star := s;
    }
  }

  /** The part of an optimal set in a component it meets is optimal too. */
  lemma OptimalPart(g: Graph, todo: set<nat>, star: set<nat>, c: set<nat>)
    requires Searchable(g, todo) && Optimal(g, todo, star) && Separate(g, todo, c) && star * c != {}
    ensures Optimal(g, todo, star * c)
  {
    var f, a, b, r := FeesOf(g), star * c, star - c, RateOf(g, star);
    PartsClosed(g, todo, star, c);
    hide Graph.Valid, Separate, SetTotal;
    RatePositive(g, star); RatePositive(g, a);
    ExcessParts(f, a, b, r);
    assert a + b == star;
    assert Excess(r, r) == 0;
    assert Excess(RateOf(g, a), r) >= 0 by {
      if b == {} { assert a == star; } else { assert !Higher(RateOf(g, b), r); }
    }
    forall x: set<nat> | x != {} && Closed(g, todo, x) ensures !Higher(RateOf(g, x), RateOf(g, a)) {
      RatePositive(g, x);
      ExcessTransfer(RateOf(g, a), r, RateOf(g, x));
    }
  }

  lemma PartsClosed(g: Graph, todo: set<nat>, star: set<nat>, c: set<nat>)
    requires g.Valid() && todo <= g.used && Closed(g, todo, star) && Separate(g, todo, c)
    ensures Closed(g, todo, star * c) && Closed(g, todo, star - c)
  {
    forall x, a | x in star && a in g.Anc(x) * todo ensures a in c <==> x in c {
      assert x in g.Desc(a);
      if x in c { assert a in Neighbours(g, c); }
      if a in c { assert x in Neighbours(g, c); }
    }
  }

  // ---- The initial queue

  function ComponentItem(c: set<nat>): WorkItem { WorkItem(SetInfo({}, EMPTY), c, EMPTY) }

  /** Items that stand for separate parts of todo, which together hold covered. */
  ghost predicate ComponentItems(g: Graph, todo: set<nat>, queue: seq<WorkItem>, covered: set<nat>) {
    && (forall it | it in queue :: it == ComponentItem(it.und) && it.und != {} && Separate(g, todo, it.und))
    && (forall x | x in covered :: exists it | it in queue :: x in it.und)
  }

  lemma SeparateWithin(g: Graph, todo: set<nat>, rest: set<nat>, c: set<nat>)
    requires g.Valid() && todo <= g.used && Separate(g, todo, rest) && Separate(g, rest, c)
    ensures Separate(g, todo, c) && Separate(g, todo, rest - c) && Closed(g, todo, c)
  {
    NeighboursMonotone(g, c, rest);
    NeighboursMonotone(g, rest - c, rest);
    forall y | y in Neighbours(g, rest - c) * todo ensures y in rest - c {
      if y in c {
        var x := NeighbourOf(g, rest - c, y);
      }
    }
    forall x | x in c ensures g.Anc(x) * todo <= c {
      assert g.Anc(x) <= Neighbours(g, c);
    }
  }

  lemma PushComponent(g: Graph, todo: set<nat>, queue: seq<WorkItem>, rest: set<nat>, c: set<nat>)
    requires ComponentItems(g, todo, queue, todo - rest) && Fits(queue, 2 * |todo|) && |queue| + |rest| <= |todo|
    requires Separate(g, todo, c) && c != {} && c <= rest <= todo
    ensures ComponentItems(g, todo, queue + [ComponentItem(c)], todo - (rest - c))
    ensures Fits(queue + [ComponentItem(c)], 2 * |todo|) && |queue + [ComponentItem(c)]| + |rest - c| <= |todo|
  {
    var next := queue + [ComponentItem(c)];
    SubsetCard(c, todo);
    SubsetCard(rest - c, rest - {First(c)});
    forall x | x in todo - (rest - c) ensures exists it | it in next :: x in it.und {
      if x in c {
        assert next[|queue|] in next;
      } else {
        assert x in todo - rest;
        var it :| it in queue && x in it.und;
        assert it in next;
      }
    }
  }

  /** One item per connected component of todo; an empty best becomes the first component. */
  method InitialQueue(g: Graph, todo: set<nat>, best0: SetInfo) returns (queue: seq<WorkItem>, best: SetInfo)
    requires Searchable(g, todo) && (best0 == SetInfo({}, EMPTY) || BestOk(g, todo, best0))
    ensures BestOk(g, todo, best) && (best0.transactions != {} ==> best == best0)
    ensures Fits(queue, 2 * |todo|) && ComponentItems(g, todo, queue, todo)
    ensures Weight(queue) < Pow2(|todo|)
  {
    hide Graph.Valid, Weight, Pow2, Separate, ComponentItems, Fits, Sorted, SizedGraph, Closed, RateOf, SetTotal,
         Connected;
    best := best0;
    queue := [];
    var toCover := todo;
    AllSeparate(g, todo);
    NoWeight(todo);
    if best0 != SetInfo({}, EMPTY) { BestSized(g, todo, best0); }
    while toCover != {}
      invariant toCover <= todo && Separate(g, todo, toCover) && Fits(queue, 2 * |todo|)
        && |queue| + |toCover| <= |todo|
      invariant ComponentItems(g, todo, queue, todo - toCover) && Weight(queue) < Pow2(|todo - toCover|)
      invariant if best.feerate.IsEmpty() then toCover == todo
        && best == best0 == SetInfo({}, EMPTY) else BestOk(g, todo, best)
      invariant best0.transactions != {} ==> best == best0
    {
      var component := FindConnectedComponent(g, toCover);
      SeparateWithin(g, todo, toCover, component);
      assert First(toCover) in component;
      if best.feerate.IsEmpty() {
        best := SetInfo(component, RateOf(g, component));
        BestSized(g, todo, best);
      }
      PushComponent(g, todo, queue, toCover, component);
      WeightComponent(queue, component, todo, toCover);
      queue := queue + [ComponentItem(component)];
      toCover := toCover - component;
    }
    assert todo - toCover == todo;
  }

  lemma BestSized(g: Graph, todo: set<nat>, best: SetInfo)
    requires Searchable(g, todo) && BestOk(g, todo, best)
    ensures best.feerate.size > 0
  {
    RatePositive(g, best.transactions);
  }

  lemma NoWeight(todo: set<nat>)
    ensures Weight([]) == 0 < Pow2(|todo - todo|)
  {
  }

  lemma Covers(todo: set<nat>, toCover: set<nat>, component: set<nat>)
    requires component <= toCover <= todo
    ensures |todo - (toCover - component)| == |todo - toCover| + |component|
  {
    assert todo - (toCover - component) == (todo - toCover) + component;
  }

  lemma AllSeparate(g: Graph, todo: set<nat>)
    ensures Separate(g, todo, todo) && Fits([], 2 * |todo|) && ComponentItems(g, todo, [], todo - todo)
  {
  }

  // ---- The search

  function Capacity(todo: set<nat>): nat { if 256 < 2 * |todo| then 2 * |todo| else 256 }

  /** What holds of the search throughout. */
  ghost predicate SearchOk(g: Graph, todo: set<nat>, st: State, star: set<nat>, best0: SetInfo) {
    && StateOk(g, todo, Capacity(todo), st, star) && Covered(g, st, star) && NoWorse(st.best, best0)
  }

  lemma InitialState(g: Graph, todo: set<nat>, queue: seq<WorkItem>, best: SetInfo, imp: set<nat>, left: nat)
    returns (star: set<nat>)
    requires Searchable(g, todo) && BestOk(g, todo, best) && IsImproving(g, todo, best.feerate, imp)
    requires Fits(queue, 2 * |todo|) && ComponentItems(g, todo, queue, todo)
    ensures Optimal(g, todo, star) && SearchOk(g, todo, State(queue, best, imp, left), star, best)
  {
    hide Graph.Valid, Sorted, SizedGraph, SetTotal, RateOf, Optimal, Separate, IsImproving, ItemOk;
    var any := OptimalAbove(g, todo, best.transactions);
    OptimalFacts(g, todo, any);
    var x := First(any);
    assert x in todo;
    var it :| it in queue && x in it.und;
    assert x in any * it.und;
    OptimalPart(g, todo, any, it.und);
    star := any * it.und;
    forall i | i in queue ensures ItemOk(g, todo, i, best.feerate, star) {
      ComponentItemOk(g, todo, i, best.feerate, star);
    }
    assert Compatible(it.inc.transactions, it.und, star);
  }

  lemma OptimalFacts(g: Graph, todo: set<nat>, star: set<nat>)
    requires Optimal(g, todo, star)
    ensures star != {} && star <= todo && Closed(g, todo, star)
  {
  }

  lemma SearchFacts(g: Graph, todo: set<nat>, st: State, star: set<nat>, best0: SetInfo)
    requires Searchable(g, todo) && SearchOk(g, todo, st, star, best0)
    ensures StateOk(g, todo, Capacity(todo), st, star) && BestOk(g, todo, st.best)
    ensures g.Valid() && SizedGraph(g) && Sorted(g) && todo <= g.used && todo != {}
  {
  }

  lemma ItemUndecided(g: Graph, todo: set<nat>, it: WorkItem, best: FeeFrac, star: set<nat>)
    requires ItemOk(g, todo, it, best, star)
    ensures it.und <= todo
  {
  }

  lemma ComponentItemOk(g: Graph, todo: set<nat>, it: WorkItem, best: FeeFrac, star: set<nat>)
    requires g.Valid() && todo <= g.used && it == ComponentItem(it.und) && it.und != {} && Separate(g, todo, it.und)
    ensures ItemOk(g, todo, it, best, star)
  {
    forall x | x in it.und ensures g.Anc(x) * todo <= it.und {
      assert g.Anc(x) <= Neighbours(g, it.und);
    }
    assert {} + it.und == it.und;
  }

  /** Taking an item off either end of the queue leaves the rest in order. */
  lemma PopOk(g: Graph, todo: set<nat>, st: State, star: set<nat>, front: bool)
    requires StateOk(g, todo, Capacity(todo), st, star) && st.queue != []
    ensures var elem := if front then st.queue[0] else st.queue[|st.queue|-1];
            var rest := if front then st.queue[1..] else st.queue[..|st.queue|-1];
            && StateOk(g, todo, Capacity(todo), st.(queue := rest), star)
              && ItemOk(g, todo, elem, st.best.feerate, star)
            && (!front ==> |rest| + |elem.und| <= Capacity(todo)) && |rest| == |st.queue| - 1
  {
    assert front ==> forall i | 0 <= i < |st.queue| - 1 :: st.queue[1..][i] == st.queue[i+1];
  }

  /** Swapping the first two items keeps every item within the capacity. */
  lemma SwapOk(g: Graph, todo: set<nat>, st: State, star: set<nat>)
    requires Searchable(g, todo) && StateOk(g, todo, Capacity(todo), st, star) && |st.queue| > 1
    ensures StateOk(g, todo, Capacity(todo), st.(queue := st.queue[0 := st.queue[1]][1 := st.queue[0]]), star)
    ensures forall it :: it in st.queue <==> it in st.queue[0 := st.queue[1]][1 := st.queue[0]]
  {
    hide Graph.Valid, Sorted, SizedGraph, ItemOk, BestOk, IsImproving;
    var q := st.queue[0 := st.queue[1]][1 := st.queue[0]];
    assert st.queue[0] in st.queue && st.queue[1] in st.queue;
    ItemUndecided(g, todo, st.queue[0], st.best.feerate, star);
    SubsetCard(st.queue[0].und, todo);
    SubsetCard({First(todo)}, todo);
    forall it ensures it in st.queue <==> it in q {
      if it in st.queue {
        var i :| 0 <= i < |st.queue| && st.queue[i] == it;
        assert q[if i == 0 then 1 else if i == 1 then 0 else i] == it;
      }
    }
  }

  /** Process one item, taken from the front or from the back. */
  method ProcessOne(g: Graph, todo: set<nat>, st: State, front: bool, ghost star: set<nat>, ghost best0: SetInfo)
    returns (st': State)
    requires Searchable(g, todo) && SearchOk(g, todo, st, star, best0) && Optimal(g, todo, star)
    requires st.queue != [] && st.left > 0 && BestOk(g, todo, best0)
    requires front ==> |st.queue| - 1 + |st.queue[0].und| <= Capacity(todo)
    ensures SearchOk(g, todo, st', star, best0) && |st'.queue| >= |st.queue| - 1 && st'.left >= st.left - 1
    ensures QueueStep(st.queue, st'.queue)
    ensures Weight(st'.queue) + (st.left - st'.left) <= Weight(st.queue)
    ensures st'.left < st.left || (st'.left == st.left && |st'.queue| < |st.queue|)
  {
    hide *;
    SearchFacts(g, todo, st, star, best0);
    PopOk(g, todo, st, star, front);
    var elem := if front then st.queue[0] else st.queue[|st.queue|-1];
    var rest := st.(queue := if front then st.queue[1..] else st.queue[..|st.queue|-1]);
    st' := SplitItem(g, todo, Capacity(todo), rest, elem, star);
    PopMembers(st.queue, front);
    StillCovered(g, todo, st, rest, st', elem, star, best0);
    ProcessedProgress(g, rest, st', elem, star);
    WeightPop(st.queue, front);
    Pow2Positive(|elem.und|);
    PopStep(st.queue, st'.queue, front);
  }

  /** From one queue to the next: the first two items change places, or an item is taken off either end and at most two
      are put at the back. */
  ghost predicate QueueStep(q: seq<WorkItem>, r: seq<WorkItem>) {
    || (|q| > 1 && r == q[0 := q[1]][1 := q[0]])
    || (q != [] && (q[1..] <= r || q[..|q|-1] <= r) && |r| <= |q| + 1)
  }

  lemma PopStep(q: seq<WorkItem>, r: seq<WorkItem>, front: bool)
    requires q != [] && (if front then q[1..] else q[..|q|-1]) <= r && |r| <= |q| + 1
    ensures QueueStep(q, r)
  {
  }

  lemma SwapStep(q: seq<WorkItem>)
    requires |q| > 1
    ensures QueueStep(q, q[0 := q[1]][1 := q[0]])
  {
  }

  /** The queues of a run from its start on: they begin with one item per connected component, follow from each other by
      steps, and all are within the capacity. */
  ghost predicate History(g: Graph, todo: set<nat>, queues: seq<seq<WorkItem>>) {
    && queues != [] && ComponentItems(g, todo, queues[0], todo)
    && (forall i | 0 <= i < |queues| - 1 :: QueueStep(queues[i], queues[i+1]))
    && forall i | 0 <= i < |queues| :: Fits(queues[i], Capacity(todo)) && |queues[i]| <= Capacity(todo)
  }

  lemma HistoryStarts(g: Graph, todo: set<nat>, q: seq<WorkItem>)
    requires ComponentItems(g, todo, q, todo) && Fits(q, Capacity(todo)) && |q| <= Capacity(todo)
    ensures History(g, todo, [q])
  {
    hide ComponentItems, Fits, Capacity;
  }

  lemma HistoryNext(g: Graph, todo: set<nat>, queues: seq<seq<WorkItem>>, q: seq<WorkItem>)
    requires History(g, todo, queues) && QueueStep(queues[|queues|-1], q)
    requires Fits(q, Capacity(todo)) && |q| <= Capacity(todo)
    ensures History(g, todo, queues + [q])
  {
    hide ComponentItems, Fits, Capacity, QueueStep;
  }

  lemma HistoryWithin(g: Graph, todo: set<nat>, queues: seq<seq<WorkItem>>)
    requires History(g, todo, queues)
    ensures forall i | 0 <= i < |queues| :: |queues[i]| <= 256 || |queues[i]| <= 2 * |todo|
  {
    hide ComponentItems, Fits, QueueStep;
  }

  lemma PopMembers(q: seq<WorkItem>, front: bool)
    requires q != []
    ensures forall it | it in q ::
      it == (if front then q[0] else q[|q|-1]) || it in (if front then q[1..] else q[..|q|-1])
  {
  }

  lemma ProcessedProgress(g: Graph, st: State, st': State, elem: WorkItem, star: set<nat>)
    requires Processed(g, st, st', elem, star) && st.left > 0
    ensures |st'.queue| >= |st.queue| && (st'.left == st.left - 1 || (st'.left == st.left && |st'.queue| == |st.queue|))
    ensures st.queue <= st'.queue && |st'.queue| <= |st.queue| + 2
    ensures st'.left == st.left ==> st'.queue == st.queue
    ensures st'.left < st.left ==> Weight(st'.queue) + 2 <= Weight(st.queue) + Pow2(|elem.und|)
  {
    hide Weight, Pow2;
  }

  lemma StillCovered(g: Graph, todo: set<nat>, st: State, rest: State, st': State, elem: WorkItem, star: set<nat>,
                     best0: SetInfo)
    requires Searchable(g, todo) && Optimal(g, todo, star) && BestOk(g, todo, best0)
    requires SearchOk(g, todo, st, star, best0) && StateOk(g, todo, Capacity(todo), rest, star)
      && StateOk(g, todo, Capacity(todo), st', star)
    requires rest.best == st.best && Processed(g, rest, st', elem, star)
    requires forall it | it in st.queue :: it == elem || it in rest.queue
    ensures SearchOk(g, todo, st', star, best0)
  {
    hide Graph.Valid, Sorted, SizedGraph, ItemOk, IsImproving, Optimal, Fits, SetTotal;
    OptimalFacts(g, todo, star);
    BestGrows(g, todo, Capacity(todo), rest, rest, st', star);
    RatePositive(g, best0.transactions);
    RatePositive(g, st.best.transactions);
    RatePositive(g, st'.best.transactions);
    BetterNotLower(st'.best.feerate, st.best.feerate, best0.feerate);
    if Higher(RateOf(g, star), st'.best.feerate) {
      var it :| it in st.queue && Compatible(it.inc.transactions, it.und, star);
      if it != elem { assert it in st'.queue; }
    }
  }

  /** Bounded search on the sorted graph. The result is closed, at least as good as the given best,
      and of highest feerate if fewer steps were made than allowed. The queue, of which queues is
      the history, never outgrows its capacity, and is empty at the end of such a search. */
  method FindSorted(g: Graph, todo: set<nat>, maxIterations: nat, best0: SetInfo)
    returns (best: SetInfo, iterations: nat, ghost queues: seq<seq<WorkItem>>)
    requires Searchable(g, todo) && (best0 == SetInfo({}, EMPTY) || BestOk(g, todo, best0))
    ensures BestOk(g, todo, best) && (best0.transactions != {} ==> NoWorse(best, best0))
    ensures iterations <= maxIterations
    ensures iterations < maxIterations ==> Optimal(g, todo, best.transactions)
    ensures iterations < Pow2(|todo|)
    ensures History(g, todo, queues) && |queues| > iterations
    ensures forall i | 0 <= i < |queues| :: |queues[i]| <= 256 || |queues[i]| <= 2 * |todo|
    ensures iterations < maxIterations ==> queues[|queues|-1] == []
  {
    hide *;
    SearchableFacts(g, todo);
    var queue, start := InitialQueue(g, todo, best0);
    BestSized(g, todo, start);
    var imp := TrimImproving(g, todo, start.feerate, todo);
    var st := State(queue, start, imp, maxIterations);
    ghost var star := InitialState(g, todo, queue, start, imp, maxIterations);
    QueueFits(g, todo, st, star, start);
    queues := [st.queue];
    HistoryStarts(g, todo, st.queue);
    while st.queue != []
      invariant SearchOk(g, todo, st, star, start) && st.left <= maxIterations
      invariant |queues| > maxIterations - st.left >= 0 && queues[|queues|-1] == st.queue && History(g, todo, queues)
      invariant Weight(st.queue) + (maxIterations - st.left) < Pow2(|todo|)
      decreases st.left, |st.queue|
    {
      ghost var left, n := st.left, |st.queue|;
      var randbool: bool := *;
      if |st.queue| > 1 && randbool {
        SwapSearchOk(g, todo, st, star, start);
        SwapStep(st.queue);
        WeightSwap(st.queue);
        st := st.(queue := st.queue[0 := st.queue[1]][1 := st.queue[0]]);
        QueueFits(g, todo, st, star, start);
        HistoryNext(g, todo, queues, st.queue);
        queues := queues + [st.queue];
      }
      while |st.queue| - 1 + |st.queue[0].und| > Capacity(todo)
        invariant st.queue != [] && SearchOk(g, todo, st, star, start)
        invariant st.left < left || (st.left == left && |st.queue| <= n)
        invariant |queues| > maxIterations - st.left >= 0 && queues[|queues|-1] == st.queue && History(g, todo, queues)
        invariant Weight(st.queue) + (maxIterations - st.left) < Pow2(|todo|)
        decreases st.left, |st.queue|
      {
        if st.left == 0 { break; }
        AloneFits(g, todo, st, star, start);
        st := ProcessOne(g, todo, st, false, star, start);
        QueueFits(g, todo, st, star, start);
        HistoryNext(g, todo, queues, st.queue);
        queues := queues + [st.queue];
      }
      if st.left == 0 { break; }
      st := ProcessOne(g, todo, st, true, star, start);
      QueueFits(g, todo, st, star, start);
      HistoryNext(g, todo, queues, st.queue);
      queues := queues + [st.queue];
    }
    best, iterations := st.best, maxIterations - st.left;
    HistoryWithin(g, todo, queues);
    SearchResult(g, todo, st, star, start);
  }

  lemma SearchableFacts(g: Graph, todo: set<nat>)
    requires Searchable(g, todo)
    ensures g.Valid() && SizedGraph(g) && Sorted(g) && todo <= g.used && todo != {}
  {
  }

  /** Every item has something undecided, so the last one's position is below the capacity. */
  lemma QueueFits(g: Graph, todo: set<nat>, st: State, star: set<nat>, best0: SetInfo)
    requires SearchOk(g, todo, st, star, best0)
    ensures Fits(st.queue, Capacity(todo)) && |st.queue| <= Capacity(todo)
  {
    if st.queue != [] {
      var it := st.queue[|st.queue|-1];
      assert it in st.queue;
      assert ItemOk(g, todo, it, st.best.feerate, star);
      assert |it.und| > 0;
    }
  }

  lemma SwapSearchOk(g: Graph, todo: set<nat>, st: State, star: set<nat>, best0: SetInfo)
    requires Searchable(g, todo) && SearchOk(g, todo, st, star, best0) && |st.queue| > 1
    ensures SearchOk(g, todo, st.(queue := st.queue[0 := st.queue[1]][1 := st.queue[0]]), star, best0)
  {
    SwapOk(g, todo, st, star);
  }

  /** A single item always fits, so the queue does not run empty while it is over its capacity. */
  lemma AloneFits(g: Graph, todo: set<nat>, st: State, star: set<nat>, best0: SetInfo)
    requires SearchOk(g, todo, st, star, best0) && st.queue != []
    requires |st.queue| - 1 + |st.queue[0].und| > Capacity(todo)
    ensures |st.queue| > 1
  {
  }

  lemma SearchResult(g: Graph, todo: set<nat>, st: State, star: set<nat>, best0: SetInfo)
    requires Searchable(g, todo) && Optimal(g, todo, star) && SearchOk(g, todo, st, star, best0)
    ensures BestOk(g, todo, st.best) && NoWorse(st.best, best0)
    ensures st.queue == [] ==> Optimal(g, todo, st.best.transactions)
  {
    if st.queue == [] {
      RatePositive(g, star);
      BestSized(g, todo, st.best);
      forall x: set<nat> | x != {} && Closed(g, todo, x)
        ensures !Higher(RateOf(g, x), RateOf(g, st.best.transactions)) {
        RatePositive(g, x);
        ExcessTransfer(st.best.feerate, RateOf(g, star), RateOf(g, x));
      }
    }
  }
}

/** The hierarchy of coin caches (src/coins.cpp, src/coins.h): what each operation does to the entry of an
    outpoint, and a stack of caches over a database as an implementation of a stack of plain maps. */
module CoinViews {
  import opened Options

  datatype OutPoint = OutPoint(txid: nat, n: nat)

  /** data stands for the value, the script, the height and the coinbase flag; usage is the memory of the script. */
  datatype Coin = Spent | Unspent(data: nat, usage: nat, unspendable: bool)

  datatype Entry = Entry(coin: Coin, isDirty: bool, isFresh: bool) {
    predicate Flagged() {
      isDirty || isFresh
    }

    /** The combinations of attributes that SanityCheck admits. */
    predicate Permitted() {
      match coin
      case Spent => isDirty != isFresh
      case Unspent(_, _, _) => isFresh ==> isDirty
    }
  }

  type Coins = map<OutPoint, Entry>

  /** What an operation leaves: an entry, or none, or the exception it throws. */
  datatype Outcome<T> = Done(result: T) | Overwrite | FreshMisapplied {
    predicate IsFailure() { !Done? }

    function PropagateFailure<U>(): Outcome<U>
      requires IsFailure()
    {
      if Overwrite? then Overwrite else FreshMisapplied
    }

    function Extract(): T
      requires !IsFailure()
    {
      result
    }
  }

  function At(c: Coins, o: OutPoint): Option<Entry> {
    if o in c then Some(c[o]) else None
  }

  function Put(c: Coins, o: OutPoint, e: Option<Entry>): Coins {
    if e.Some? then c[o := e.value] else c - {o}
  }

  // ---------------------------------------------------------------------------------------------
  // One outpoint
  // ---------------------------------------------------------------------------------------------

  /** FetchCoin, when the base answers got. */
  function Fetched(us: Option<Entry>, got: Option<Coin>): Option<Entry> {
    if us.Some? then us
    else if got.None? then None
    else Some(Entry(got.value, false, got.value.Spent?))
  }

  /** AddCoin of a spendable coin. */
  function Added(us: Option<Entry>, coin: Coin, possibleOverwrite: bool): Outcome<Entry> {
    var was := if us.Some? then us.value else Entry(Spent, false, false);
    if !possibleOverwrite && was.coin.Unspent? then Overwrite
    else Done(Entry(coin, true, was.isFresh || (!possibleOverwrite && !was.isDirty)))
  }

  /** SpendCoin of a fetched entry. */
  function SpentEntry(us: Option<Entry>): Option<Entry> {
    if us.None? || us.value.isFresh then None else Some(Entry(Spent, true, false))
  }

  function Uncached(us: Option<Entry>): Option<Entry> {
    if us.Some? && !us.value.Flagged() then None else us
  }

  /** What BatchWrite makes of the parent's entry, given a flagged entry of the child. */
  function Written(us: Option<Entry>, e: Entry): Outcome<Option<Entry>> {
    if !e.isDirty then Done(us)
    else if us.None? then
      Done(if e.isFresh && e.coin.Spent? then None else Some(Entry(e.coin, true, e.isFresh)))
    else if e.isFresh && us.value.coin.Unspent? then FreshMisapplied
    else if us.value.isFresh && e.coin.Spent? then Done(None)
    else Done(Some(Entry(e.coin, true, us.value.isFresh)))
  }

  /** What Sync leaves of the child's entry. */
  function Synced(e: Entry): Option<Entry> {
    if !e.Flagged() then Some(e)
    else if e.coin.Spent? then None
    else Some(Entry(e.coin, false, false))
  }

  // ---------------------------------------------------------------------------------------------
  // One cache
  // ---------------------------------------------------------------------------------------------

  /** BatchWrite: the flagged entries of the child, in the order of its list. */
  function WriteAll(us: Coins, child: Coins, order: seq<OutPoint>): Outcome<Coins>
    requires forall o | o in order :: o in child
    decreases |order|
  {
    if order == [] then Done(us)
    else
      var e :- Written(At(us, order[0]), child[order[0]]);
      WriteAll(Put(us, order[0], e), child, order[1..])
  }

  function SyncAll(child: Coins): Coins {
    map o | o in child && Synced(child[o]).Some? :: Synced(child[o]).value
  }

  /** Writing the same entries to the database. */
  function Store(db: map<OutPoint, Coin>, child: Coins): map<OutPoint, Coin> {
    map o | o in db.Keys + child.Keys && (if o in child && child[o].isDirty then child[o].coin.Unspent? else o in db)
      :: if o in child && child[o].isDirty then child[o].coin else db[o]
  }

  ghost predicate Lists(child: Coins, order: seq<OutPoint>) {
    && (forall i, j | 0 <= i < j < |order| :: order[i] != order[j])
    && (forall o :: o in order <==> o in child && child[o].Flagged())
  }

  // ---------------------------------------------------------------------------------------------
  // A stack of caches
  // ---------------------------------------------------------------------------------------------

  /** levels[0] caches the database, levels[k] caches levels[k-1]. */
  datatype Stack = Stack(db: map<OutPoint, Coin>, levels: seq<Coins>)

  /** The coin that the first k caches and the database show for o; Spent if there is none. */
  function Look(s: Stack, k: nat, o: OutPoint): Coin
    requires k <= |s.levels|
  {
    if k == 0 then (if o in s.db then s.db[o] else Spent)
    else if o in s.levels[k-1] then s.levels[k-1][o].coin
    else Look(s, k - 1, o)
  }

  /** What a cache shows, given its entry and what its base shows. */
  function Shown(us: Option<Entry>, below: Coin): Coin {
    if us.Some? then us.value.coin else below
  }

  /** GetCoin of cache k, once it has fetched o. */
  function Answer(c: Coins, o: OutPoint): Option<Coin> {
    if o in c && c[o].coin.Unspent? then Some(c[o].coin) else None
  }

  /** FetchCoin in cache k: a miss asks the base, and a cache there fetches too. Only a database might answer
      with a spent coin. */
  function FetchAt(s: Stack, k: nat, o: OutPoint): (r: Stack)
    requires k < |s.levels|
    ensures |r.levels| == |s.levels|
    decreases k
  {
    if o in s.levels[k] then s
    else if k == 0 then
      Replace(s, 0, o, Fetched(None, if o in s.db then Some(s.db[o]) else None))
    else
      var below := FetchAt(s, k - 1, o);
      Replace(below, k, o, Fetched(None, Answer(below.levels[k-1], o)))
  }

  function Replace(s: Stack, k: nat, o: OutPoint, e: Option<Entry>): (r: Stack)
    requires k < |s.levels|
    ensures |r.levels| == |s.levels|
  {
    s.(levels := s.levels[k := Put(s.levels[k], o, e)])
  }

  // ---------------------------------------------------------------------------------------------
  // The operations of a stack
  // ---------------------------------------------------------------------------------------------

  /** Every operation may be called on any cache of the stack. The order is that of the list of flagged entries. */
  datatype Op =
    | Fetch(k: nat, o: OutPoint)
    | Uncache(k: nat, o: OutPoint)
    | Add(k: nat, o: OutPoint, coin: Coin, possibleOverwrite: bool)
    | Spend(k: nat, o: OutPoint)
    | Sync(k: nat, order: seq<OutPoint>)
    | Flush(k: nat, order: seq<OutPoint>)
    | Push
    | Pop

  /** What the calls ask for. Adding without overwrite a coin that this cache does not know promises that the
      views below have no such coin. */
  ghost predicate Callable(s: Stack, op: Op) {
    var top := |s.levels|;
    match op
    case Fetch(k, _) => k < top
    case Uncache(k, _) => k < top
    case Add(k, o, coin, possibleOverwrite) => k < top && coin.Unspent?
      && (possibleOverwrite || Look(s, k + 1, o).Spent?)
    case Spend(k, _) => k < top
    case Sync(k, order) => k < top && Lists(s.levels[k], order)
    case Flush(k, order) => k < top && Lists(s.levels[k], order)
    case Push => true
    case Pop => top > 0
  }

  /** The lowest cache from k up that holds o, or the height of the stack. */
  function Holder(s: Stack, k: nat, o: OutPoint): (h: nat)
    requires k <= |s.levels|
    ensures k <= h <= |s.levels| && (h < |s.levels| ==> o in s.levels[h])
    ensures forall j | k <= j < h :: o !in s.levels[j]
    decreases |s.levels| - k
  {
    if k == |s.levels| || o in s.levels[k] then k else Holder(s, k + 1, o)
  }

  /** The entry above cache k that is nearest to it, if any, fits the coin that cache k is going to show. */
  ghost predicate Undisturbed(s: Stack, k: nat, o: OutPoint, coin: Coin)
    requires k < |s.levels|
  {
    var h := Holder(s, k + 1, o);
    h < |s.levels| ==> Fits(s.levels[h][o], coin)
  }

  /** Adding to and spending from a cache that others have been put on disturbs none of their entries. */
  ghost predicate Allowed(s: Stack, op: Op) {
    && Callable(s, op)
    && (op.Add? && !op.coin.unspendable ==> Undisturbed(s, op.k, op.o, op.coin))
    && (op.Spend? ==> Undisturbed(s, op.k, op.o, Spent))
  }

  /** Write the flagged entries of cache k to its base. */
  ghost function WriteBack(s: Stack, k: nat, order: seq<OutPoint>): (r: Outcome<Stack>)
    requires k < |s.levels| && Lists(s.levels[k], order)
    ensures r.Done? ==> |r.result.levels| == |s.levels|
  {
    if k == 0 then Done(s.(db := Store(s.db, s.levels[0])))
    else
      var c :- WriteAll(s.levels[k-1], s.levels[k], order);
      Done(s.(levels := s.levels[k-1 := c]))
  }

  ghost function Step(s: Stack, op: Op): Outcome<Stack>
    requires Callable(s, op)
  {
    var top := |s.levels|;
    match op
    case Fetch(k, o) => Done(FetchAt(s, k, o))
    case Uncache(k, o) => Done(Replace(s, k, o, Uncached(At(s.levels[k], o))))
    case Add(k, o, coin, possibleOverwrite) =>
      if coin.unspendable then Done(s)
      else
        var e :- Added(At(s.levels[k], o), coin, possibleOverwrite);
        Done(Replace(s, k, o, Some(e)))
    case Spend(k, o) =>
      var s' := FetchAt(s, k, o);
      Done(Replace(s', k, o, SpentEntry(At(s'.levels[k], o))))
    case Sync(k, order) =>
      var s' :- WriteBack(s, k, order);
      Done(s'.(levels := s'.levels[k := SyncAll(s'.levels[k])]))
    case Flush(k, order) =>
      var s' :- WriteBack(s, k, order);
      Done(s'.(levels := s'.levels[k := map[]]))
    case Push => Done(s.(levels := s.levels + [map[]]))
    case Pop => Done(s.(levels := s.levels[..top-1]))
  }

  // ---------------------------------------------------------------------------------------------
  // The invariant of a stack
  // ---------------------------------------------------------------------------------------------

  /** An entry against the coin its base shows: FRESH means the base has none, not DIRTY means it is the base's. */
  ghost predicate Fits(e: Entry, below: Coin) {
    e.Permitted() && (e.isFresh ==> below.Spent?) && (!e.isDirty ==> e.coin == below)
  }

  ghost predicate Consistent(s: Stack) {
    forall k, o | 0 <= k < |s.levels| && o in s.levels[k] :: Fits(s.levels[k][o], Look(s, k, o))
  }

  /** Look depends on nothing above. */
  lemma {:induction false} LookBelow(s: Stack, t: Stack, k: nat, o: OutPoint)
    requires k <= |s.levels| && k <= |t.levels| && s.db == t.db && s.levels[..k] == t.levels[..k]
    ensures Look(s, k, o) == Look(t, k, o)
  {
    if k > 0 {
      assert s.levels[..k][k-1] == t.levels[..k][k-1];
      assert s.levels[..k-1] == s.levels[..k][..k-1] == t.levels[..k-1];
      LookBelow(s, t, k - 1, o);
    }
  }

  /** Look depends on the caches above j only through what they show at j. */
  lemma {:induction false} LookAbove(s: Stack, t: Stack, j: nat, k: nat, o: OutPoint)
    requires j <= k <= |s.levels| == |t.levels| && Look(s, j, o) == Look(t, j, o)
    requires forall i | j <= i < k :: s.levels[i] == t.levels[i]
    ensures Look(s, k, o) == Look(t, k, o)
  {
    if k > j {
      LookAbove(s, t, j, k - 1, o);
    }
  }

  ghost predicate SameViews(s: Stack, t: Stack) {
    && |s.levels| == |t.levels|
    && forall k, o | 0 <= k <= |s.levels| :: Look(s, k, o) == Look(t, k, o)
  }

  lemma ReplaceLook(s: Stack, k: nat, o: OutPoint, e: Option<Entry>, j: nat, p: OutPoint)
    requires k < |s.levels| && j <= |s.levels|
    ensures var r := Replace(s, k, o, e);
      && (j <= k ==> Look(r, j, p) == Look(s, j, p))
      && (p != o || (if e.Some? then e.value.coin else Look(s, k, o)) == Look(s, k + 1, o) ==>
        Look(r, j, p) == Look(s, j, p))
      && Look(r, k + 1, o) == if e.Some? then e.value.coin else Look(s, k, o)
  {
    var r := Replace(s, k, o, e);
    LookBelow(s, r, if j <= k then j else k, p);
    LookBelow(s, r, k, o);
    if j > k && (p != o || Look(r, k + 1, o) == Look(s, k + 1, o)) {
      LookAbove(s, r, k + 1, j, p);
    }
  }

  /** Replacing an entry by another that fits and shows the same changes nothing that can be seen. */
  lemma ReplaceSame(s: Stack, k: nat, o: OutPoint, e: Option<Entry>)
    requires Consistent(s) && k < |s.levels|
    requires e.Some? ==> Fits(e.value, Look(s, k, o))
    requires (if e.Some? then e.value.coin else Look(s, k, o)) == Look(s, k + 1, o)
    ensures Consistent(Replace(s, k, o, e)) && SameViews(s, Replace(s, k, o, e))
  {
    var r := Replace(s, k, o, e);
    forall j: nat, p | j <= |s.levels| ensures Look(r, j, p) == Look(s, j, p) {
      ReplaceLook(s, k, o, e, j, p);
    }
    forall j, p | 0 <= j < |r.levels| && p in r.levels[j] ensures Fits(r.levels[j][p], Look(r, j, p)) {
      assert j != k || p != o ==> p in s.levels[j] && r.levels[j][p] == s.levels[j][p];
    }
  }

  /** A replaced entry shows up to the next cache above that holds the outpoint. */
  lemma {:induction false} LookReplaced(s: Stack, k: nat, o: OutPoint, e: Option<Entry>, j: nat, p: OutPoint)
    requires k < |s.levels| && j <= |s.levels|
    ensures Look(Replace(s, k, o, e), j, p) ==
      if p == o && k < j <= Holder(s, k + 1, o) then Shown(e, Look(s, k, o)) else Look(s, j, p)
    decreases j
  {
    hide Replace;
    ReplaceLook(s, k, o, e, j, p);
    ReplaceOthers(s, k, o, e);
    if p == o && j > k + 1 {
      LookReplaced(s, k, o, e, j - 1, p);
    }
  }

  lemma ReplaceOthers(s: Stack, k: nat, o: OutPoint, e: Option<Entry>)
    requires k < |s.levels|
    ensures forall j | 0 <= j < |s.levels| && j != k :: Replace(s, k, o, e).levels[j] == s.levels[j]
    ensures forall p | p != o :: At(Replace(s, k, o, e).levels[k], p) == At(s.levels[k], p)
    ensures At(Replace(s, k, o, e).levels[k], o) == e
  {
  }

  /** Replacing an entry by one that fits keeps the stack consistent if and only if it disturbs none above. */
  lemma ReplaceExact(s: Stack, k: nat, o: OutPoint, e: Option<Entry>)
    requires Consistent(s) && k < |s.levels| && (e.Some? ==> Fits(e.value, Look(s, k, o)))
    ensures Consistent(Replace(s, k, o, e)) <==> Undisturbed(s, k, o, Shown(e, Look(s, k, o)))
  {
    var r, h := Replace(s, k, o, e), Holder(s, k + 1, o);
    hide Replace, Look, Fits, Holder;
    if Undisturbed(s, k, o, Shown(e, Look(s, k, o))) {
      forall j, p | 0 <= j < |r.levels| && p in r.levels[j] ensures Fits(r.levels[j][p], Look(r, j, p)) {
        ReplacedFits(s, k, o, e, j, p);
      }
    } else {
      LookReplaced(s, k, o, e, h, o);
      ReplaceOthers(s, k, o, e);
      assert o in r.levels[h] && !Fits(r.levels[h][o], Look(r, h, o));
    }
  }

  lemma ReplacedFits(s: Stack, k: nat, o: OutPoint, e: Option<Entry>, j: nat, p: OutPoint)
    requires Consistent(s) && k < |s.levels| && (e.Some? ==> Fits(e.value, Look(s, k, o)))
    requires Undisturbed(s, k, o, Shown(e, Look(s, k, o))) && j < |s.levels| && p in Replace(s, k, o, e).levels[j]
    ensures Fits(Replace(s, k, o, e).levels[j][p], Look(Replace(s, k, o, e), j, p))
  {
    var r := Replace(s, k, o, e);
    hide Replace, Look, Fits, Consistent;
    ReplaceOthers(s, k, o, e);
    LookReplaced(s, k, o, e, j, p);
    assert At(r.levels[j], p) == Some(r.levels[j][p]);
    if j != k || p != o {
      assert At(r.levels[j], p) == At(s.levels[j], p);
      FitsAt(s, j, p);
    }
  }

  /** Fetching changes no view, and afterwards the cache answers with what it shows. */
  lemma {:induction false} FetchKeeps(s: Stack, k: nat, o: OutPoint)
    requires Consistent(s) && k < |s.levels|
    ensures Consistent(FetchAt(s, k, o)) && SameViews(s, FetchAt(s, k, o))
    ensures var r := FetchAt(s, k, o);
      && Answer(r.levels[k], o) == (if Look(s, k + 1, o).Spent? then None else Some(Look(s, k + 1, o)))
      && (o !in r.levels[k] ==> Look(s, k + 1, o).Spent?)
    decreases k
  {
    if o !in s.levels[k] {
      if k == 0 {
        ReplaceSame(s, 0, o, Fetched(None, if o in s.db then Some(s.db[o]) else None));
      } else {
        FetchKeeps(s, k - 1, o);
        var below := FetchAt(s, k - 1, o);
        FetchHigher(s, k - 1, k, o);
        ReplaceSame(below, k, o, Fetched(None, Answer(below.levels[k-1], o)));
      }
    }
  }

  lemma {:induction false} FetchHigher(s: Stack, k: nat, j: nat, o: OutPoint)
    requires k < j < |s.levels|
    ensures FetchAt(s, k, o).levels[j] == s.levels[j]
    decreases k
  {
    if o !in s.levels[k] && k > 0 {
      FetchHigher(s, k - 1, k, o);
      FetchHigher(s, k - 1, j, o);
    }
  }

  // ---------------------------------------------------------------------------------------------
  // Writing back
  // ---------------------------------------------------------------------------------------------

  lemma {:induction false} WriteAllAt(us: Coins, child: Coins, order: seq<OutPoint>)
    requires forall o | o in order :: o in child && Written(At(us, o), child[o]).Done?
    requires forall i, j | 0 <= i < j < |order| :: order[i] != order[j]
    ensures WriteAll(us, child, order).Done?
    ensures forall o ::
      At(WriteAll(us, child, order).result, o) == if o in order then Written(At(us, o), child[o]).result else At(us, o)
    decreases |order|
  {
    if order != [] {
      var us' := Put(us, order[0], Written(At(us, order[0]), child[order[0]]).result);
      assert forall o | o in order[1..] :: o != order[0] && At(us', o) == At(us, o);
      WriteAllAt(us', child, order[1..]);
    }
  }

  /** Writing a fitting entry never throws, fits in turn, and makes the parent show what the child shows. */
  lemma WrittenFits(us: Option<Entry>, e: Entry, below: Coin)
    requires (us.Some? ==> Fits(us.value, below)) && Fits(e, Shown(us, below))
    ensures Written(us, e).Done? && Shown(Written(us, e).result, below) == e.coin
    ensures Written(us, e).result.Some? ==> Fits(Written(us, e).result.value, below)
  {
  }

  /** The parent's view becomes the child's, no other view changes, and what is below the child stays consistent. */
  ghost predicate WroteBack(s: Stack, r: Stack, k: nat) {
    && k < |s.levels| == |r.levels| && r.levels[k..] == s.levels[k..]
    && (forall o :: Look(r, k, o) == Look(s, k + 1, o))
    && (forall j, o | 0 <= j <= |s.levels| && j != k :: Look(r, j, o) == Look(s, j, o))
    && (forall j, o | 0 <= j < k && o in r.levels[j] :: Fits(r.levels[j][o], Look(r, j, o)))
  }

  lemma StoreWrites(s: Stack, order: seq<OutPoint>)
    requires Consistent(s) && |s.levels| > 0 && Lists(s.levels[0], order)
    ensures WroteBack(s, WriteBack(s, 0, order).result, 0)
  {
    var r := WriteBack(s, 0, order).result;
    forall o ensures Look(r, 0, o) == Look(s, 1, o) {
      assert o in s.levels[0] ==> Fits(s.levels[0][o], Look(s, 0, o));
    }
    forall j, o | 0 < j <= |s.levels| ensures Look(r, j, o) == Look(s, j, o) {
      assert Look(r, 1, o) == Look(s, 1, o);
      LookAbove(s, r, 1, j, o);
    }
  }

  lemma WrittenAt(s: Stack, k: nat, order: seq<OutPoint>, o: OutPoint)
    requires Consistent(s) && 0 < k < |s.levels| && Lists(s.levels[k], order) && o in order
    ensures Written(At(s.levels[k-1], o), s.levels[k][o]).Done?
    ensures Shown(Written(At(s.levels[k-1], o), s.levels[k][o]).result, Look(s, k - 1, o)) == Look(s, k + 1, o)
    ensures var e := Written(At(s.levels[k-1], o), s.levels[k][o]).result; e.Some? ==> Fits(e.value, Look(s, k - 1, o))
  {
    assert Fits(s.levels[k][o], Look(s, k, o));
    WrittenFits(At(s.levels[k-1], o), s.levels[k][o], Look(s, k - 1, o));
  }

  /** BatchWrite into a cache: FRESH is never found misapplied. */
  lemma CacheWrites(s: Stack, k: nat, order: seq<OutPoint>)
    requires Consistent(s) && 0 < k < |s.levels| && Lists(s.levels[k], order)
    ensures WriteBack(s, k, order).Done? && WroteBack(s, WriteBack(s, k, order).result, k)
  {
    forall o | o in order ensures Written(At(s.levels[k-1], o), s.levels[k][o]).Done? {
      WrittenAt(s, k, order, o);
    }
    WriteAllAt(s.levels[k-1], s.levels[k], order);
    var r := WriteBack(s, k, order).result;
    forall j: nat, o | j < k ensures Look(r, j, o) == Look(s, j, o) {
      LookBelow(s, r, j, o);
    }
    forall o
      ensures Look(r, k, o) == Look(s, k + 1, o) && (o in r.levels[k-1] ==> Fits(r.levels[k-1][o], Look(r, k - 1, o))) {
      assert At(r.levels[k-1], o) == if o in order then Written(At(s.levels[k-1], o), s.levels[k][o]).result
        else At(s.levels[k-1], o);
      if o in order {
        WrittenAt(s, k, order, o);
      } else {
        assert o in s.levels[k] ==> Fits(s.levels[k][o], Look(s, k, o));
      }
    }
    CacheWritesViews(s, r, k);
  }

  lemma CacheWritesViews(s: Stack, r: Stack, k: nat)
    requires Consistent(s) && 0 < k < |s.levels| == |r.levels| && r == s.(levels := s.levels[k-1 := r.levels[k-1]])
    requires forall j: nat, o | j < k :: Look(r, j, o) == Look(s, j, o)
    requires forall o ::
      Look(r, k, o) == Look(s, k + 1, o) && (o in r.levels[k-1] ==> Fits(r.levels[k-1][o], Look(r, k - 1, o)))
    ensures WroteBack(s, r, k)
  {
    forall j, o | k < j <= |s.levels| ensures Look(r, j, o) == Look(s, j, o) {
      assert Look(r, k + 1, o) == Look(s, k + 1, o);
      LookAbove(s, r, k + 1, j, o);
    }
    forall j, o | 0 <= j < k && o in r.levels[j] ensures Fits(r.levels[j][o], Look(r, j, o)) {
      if j < k - 1 {
        assert r.levels[j] == s.levels[j] && Fits(s.levels[j][o], Look(s, j, o));
      } else {
        assert Look(r, k, o) == Look(s, k + 1, o);
      }
    }
  }

  /** The cache written back may forget what its base now shows. */
  lemma Forget(s: Stack, r: Stack, k: nat, c: Coins)
    requires Consistent(s) && WroteBack(s, r, k)
    requires forall o | o in c :: !c[o].Flagged() && c[o].coin.Unspent? && c[o].coin == Look(s, k + 1, o)
    ensures var t := r.(levels := r.levels[k := c]);
      && Consistent(t) && (forall o :: Look(t, k, o) == Look(s, k + 1, o))
      && forall j, o | 0 <= j <= |s.levels| && j != k :: Look(t, j, o) == Look(s, j, o)
  {
    var t := r.(levels := r.levels[k := c]);
    forall j, o | 0 <= j <= |s.levels| ensures Look(t, j, o) == if j == k then Look(s, k + 1, o) else Look(s, j, o) {
      LookBelow(r, t, if j <= k then j else k, o);
      if j > k {
        assert Look(t, k + 1, o) == Look(r, k + 1, o);
        LookAbove(r, t, k + 1, j, o);
      }
    }
    forall j, o | 0 <= j < |t.levels| && o in t.levels[j] ensures Fits(t.levels[j][o], Look(t, j, o)) {
      if j > k {
        assert r.levels[j] == r.levels[k..][j-k] == s.levels[k..][j-k] == s.levels[j];
      }
    }
  }

  lemma WriteBackWorks(s: Stack, k: nat, order: seq<OutPoint>)
    requires Consistent(s) && k < |s.levels| && Lists(s.levels[k], order)
    ensures WriteBack(s, k, order).Done? && WroteBack(s, WriteBack(s, k, order).result, k)
  {
    if k == 0 {
      StoreWrites(s, order);
    } else {
      CacheWrites(s, k, order);
    }
  }

  lemma SyncedEntries(s: Stack, k: nat, o: OutPoint)
    requires Consistent(s) && k < |s.levels| && o in SyncAll(s.levels[k])
    ensures var e := SyncAll(s.levels[k])[o]; !e.Flagged() && e.coin.Unspent? && e.coin == Look(s, k + 1, o)
  {
    assert Fits(s.levels[k][o], Look(s, k, o));
  }

  // ---------------------------------------------------------------------------------------------
  // A stack of plain maps
  // ---------------------------------------------------------------------------------------------

  type Plain = map<OutPoint, Coin>

  function PutPlain(v: Plain, o: OutPoint, coin: Coin): Plain {
    if coin.Spent? then v - {o} else v[o := coin]
  }

  /** The views from low to high with another coin for o. */
  function Changed(views: seq<Plain>, low: nat, high: nat, o: OutPoint, coin: Coin): seq<Plain> {
    seq(|views|, j requires 0 <= j < |views| => if low <= j <= high then PutPlain(views[j], o, coin) else views[j])
  }

  /** What the operations are for: the effect on the maps of unspent coins. A coin added to or spent from cache k shows
      in its view and in those above it up to reach, where a cache has an entry of its own or the stack ends. */
  function PlainStep(views: seq<Plain>, op: Op, reach: nat): seq<Plain>
    requires |views| > 0
  {
    var top := |views| - 1;
    match op
    case Fetch(_, _) => views
    case Uncache(_, _) => views
    case Add(k, o, coin, _) =>
      if coin.Unspent? && coin.unspendable then views else Changed(views, k + 1, reach, o, coin)
    case Spend(k, o) => Changed(views, k + 1, reach, o, Spent)
    case Sync(k, _) => if k < top then views[k := views[k+1]] else views
    case Flush(k, _) => if k < top then views[k := views[k+1]] else views
    case Push => views + [views[top]]
    case Pop => if top > 0 then views[..top] else views
  }

  function PlainRun(views: seq<Plain>, ops: seq<Op>, reaches: seq<nat>): seq<Plain>
    requires |views| > 0 && |reaches| == |ops|
    decreases |ops|
  {
    if ops == [] then views else PlainRun(PlainStep(views, ops[0], reaches[0]), ops[1..], reaches[1..])
  }

  /** How far up a change shows: to the view of the top cache if no cache in between has an entry. */
  function Reach(s: Stack, op: Op): nat {
    if (op.Add? || op.Spend?) && op.k < |s.levels| then Holder(s, op.k + 1, op.o) else 0
  }

  function Known(s: Stack, k: nat): set<OutPoint>
    requires k <= |s.levels|
  {
    if k == 0 then s.db.Keys else Known(s, k - 1) + s.levels[k-1].Keys
  }

  lemma {:induction false} UnknownIsSpent(s: Stack, k: nat, o: OutPoint)
    requires k <= |s.levels| && o !in Known(s, k)
    ensures Look(s, k, o).Spent?
  {
    if k > 0 {
      UnknownIsSpent(s, k - 1, o);
    }
  }

  /** The unspent coins that cache k-1 shows; view 0 is the database's. */
  function View(s: Stack, k: nat): Plain
    requires k <= |s.levels|
  {
    map o | o in Known(s, k) && Look(s, k, o).Unspent? :: Look(s, k, o)
  }

  function Views(s: Stack): (r: seq<Plain>)
    ensures |r| == |s.levels| + 1
  {
    seq(|s.levels| + 1, k requires 0 <= k <= |s.levels| => View(s, k))
  }

  lemma ViewAt(s: Stack, k: nat, o: OutPoint)
    requires k <= |s.levels|
    ensures o in View(s, k) <==> Look(s, k, o).Unspent?
    ensures o in View(s, k) ==> View(s, k)[o] == Look(s, k, o)
  {
    if o !in Known(s, k) {
      UnknownIsSpent(s, k, o);
    }
  }

  lemma SameView(s: Stack, j: nat, t: Stack, k: nat)
    requires j <= |s.levels| && k <= |t.levels| && forall o :: Look(s, j, o) == Look(t, k, o)
    ensures View(s, j) == View(t, k)
  {
    hide View;
    forall o ensures (o in View(s, j) <==> o in View(t, k)) && (o in View(s, j) ==> View(s, j)[o] == View(t, k)[o]) {
      ViewAt(s, j, o);
      ViewAt(t, k, o);
    }
  }

  /** The views after a step, from the views before it, when only view j changed. */
  lemma OneView(s: Stack, t: Stack, j: nat, v: Plain)
    requires |t.levels| == |s.levels| && j <= |s.levels| && View(t, j) == v
    requires forall i, o | 0 <= i <= |s.levels| && i != j :: Look(t, i, o) == Look(s, i, o)
    ensures Views(t) == Views(s)[j := v]
  {
    hide View, Look;
    forall i: nat | i <= |s.levels| && i != j ensures View(t, i) == View(s, i) {
      SameView(t, i, s, i);
    }
  }

  /** The postcondition of a step: it does not throw, keeps the invariant, and does what it does to plain maps. */
  ghost predicate Refines(s: Stack, op: Op)
    requires Allowed(s, op)
  {
    Step(s, op).Done? && Consistent(Step(s, op).result)
      && Views(Step(s, op).result) == PlainStep(Views(s), op, Reach(s, op))
  }

  lemma UnchangedViews(s: Stack, t: Stack)
    requires SameViews(s, t)
    ensures Views(t) == Views(s)
  {
    hide View, Look;
    forall i: nat | i <= |s.levels| ensures View(t, i) == View(s, i) {
      SameView(t, i, s, i);
    }
  }

  lemma FetchRefines(s: Stack, op: Op)
    requires Consistent(s) && Allowed(s, op) && (op.Fetch? || op.Uncache?)
    ensures Refines(s, op)
  {
    var t := Step(s, op).result;
    if op.Fetch? {
      FetchKeeps(s, op.k, op.o);
    } else {
      assert op.o in s.levels[op.k] ==> Fits(s.levels[op.k][op.o], Look(s, op.k, op.o));
      ReplaceSame(s, op.k, op.o, Uncached(At(s.levels[op.k], op.o)));
    }
    UnchangedViews(s, t);
  }

  /** A replaced entry, as a change of the plain maps. */
  lemma ReplacedViews(s: Stack, k: nat, o: OutPoint, e: Option<Entry>)
    requires k < |s.levels|
    ensures Views(Replace(s, k, o, e)) == Changed(Views(s), k + 1, Holder(s, k + 1, o), o, Shown(e, Look(s, k, o)))
  {
    hide View, Look, Replace;
    var r, h, coin := Replace(s, k, o, e), Holder(s, k + 1, o), Shown(e, Look(s, k, o));
    forall j: nat | j <= |s.levels|
      ensures View(r, j) == if k + 1 <= j <= h then PutPlain(View(s, j), o, coin) else View(s, j)
    {
      var v := if k + 1 <= j <= h then PutPlain(View(s, j), o, coin) else View(s, j);
      forall p ensures (p in View(r, j) <==> p in v) && (p in v ==> View(r, j)[p] == v[p]) {
        ViewAt(r, j, p);
        ViewAt(s, j, p);
        LookReplaced(s, k, o, e, j, p);
      }
      assert View(r, j) == v;
    }
  }

  lemma AddedFits(s: Stack, op: Op)
    requires Consistent(s) && Callable(s, op) && op.Add? && !op.coin.unspendable
    ensures var e := Added(At(s.levels[op.k], op.o), op.coin, op.possibleOverwrite);
      && e.Done? && e.result.coin == op.coin && Fits(e.result, Look(s, op.k, op.o))
      && Step(s, op) == Done(Replace(s, op.k, op.o, Some(e.result)))
  {
    assert op.o in s.levels[op.k] ==> Fits(s.levels[op.k][op.o], Look(s, op.k, op.o));
  }

  lemma AddRefines(s: Stack, op: Op)
    requires Consistent(s) && Allowed(s, op) && op.Add?
    ensures Refines(s, op)
  {
    if !op.coin.unspendable {
      hide Consistent, Views, Replace, Look;
      AddedFits(s, op);
      var e := Added(At(s.levels[op.k], op.o), op.coin, op.possibleOverwrite).result;
      ReplaceExact(s, op.k, op.o, Some(e));
      ReplacedViews(s, op.k, op.o, Some(e));
    }
  }

  /** Fetching before spending: the entry left fits and shows a spent coin, and nothing above has changed. */
  lemma SpentFits(s: Stack, k: nat, o: OutPoint)
    requires Consistent(s) && k < |s.levels|
    ensures var f := FetchAt(s, k, o); var e := SpentEntry(At(f.levels[k], o));
      && Consistent(f) && Views(f) == Views(s) && Holder(f, k + 1, o) == Holder(s, k + 1, o)
      && (e.Some? ==> Fits(e.value, Look(f, k, o))) && Shown(e, Look(f, k, o)).Spent?
      && (Undisturbed(f, k, o, Spent) <==> Undisturbed(s, k, o, Spent))
  {
    hide View, FetchAt, Views, Look, Consistent, SameViews;
    FetchKeeps(s, k, o);
    var f := FetchAt(s, k, o);
    FitsAt(f, k, o);
    UnchangedViews(s, f);
    forall j | k < j < |s.levels| ensures f.levels[j] == s.levels[j] { FetchHigher(s, k, j, o); }
    SameHolder(s, f, k + 1, o);
    SpentShows(s, f, k, o);
  }

  lemma SpentShows(s: Stack, f: Stack, k: nat, o: OutPoint)
    requires k < |s.levels| == |f.levels| && SameViews(s, f) && (o !in f.levels[k] ==> Look(s, k + 1, o).Spent?)
    requires o in f.levels[k] ==> Fits(f.levels[k][o], Look(f, k, o))
    ensures Shown(SpentEntry(At(f.levels[k], o)), Look(f, k, o)).Spent?
  {
    assert Look(f, k + 1, o) == Look(s, k + 1, o);
  }

  lemma {:induction false} SameHolder(s: Stack, f: Stack, k: nat, o: OutPoint)
    requires k <= |s.levels| == |f.levels| && forall j | k <= j < |s.levels| :: f.levels[j] == s.levels[j]
    ensures Holder(f, k, o) == Holder(s, k, o)
    decreases |s.levels| - k
  {
    if k < |s.levels| && o !in s.levels[k] {
      SameHolder(s, f, k + 1, o);
    }
  }

  lemma SpendRefines(s: Stack, op: Op)
    requires Consistent(s) && Allowed(s, op) && op.Spend?
    ensures Refines(s, op)
  {
    hide View, Consistent, FetchAt, Replace, Look, Views;
    SpentFits(s, op.k, op.o);
    var f := FetchAt(s, op.k, op.o);
    var e := SpentEntry(At(f.levels[op.k], op.o));
    ReplaceExact(f, op.k, op.o, e);
    ReplacedViews(f, op.k, op.o, e);
  }

  /** Exactly when adding and spending keep the stack consistent: when they disturb no entry above. */
  lemma AllowedExact(s: Stack, op: Op)
    requires Consistent(s) && Callable(s, op) && (op.Add? || op.Spend?)
    ensures Step(s, op).Done? && (Consistent(Step(s, op).result) <==> Allowed(s, op))
  {
    hide View, Consistent, FetchAt, Replace, Look, Views;
    if op.Spend? {
      SpentFits(s, op.k, op.o);
      var f := FetchAt(s, op.k, op.o);
      ReplaceExact(f, op.k, op.o, SpentEntry(At(f.levels[op.k], op.o)));
    } else if !op.coin.unspendable {
      AddedFits(s, op);
      ReplaceExact(s, op.k, op.o, Some(Added(At(s.levels[op.k], op.o), op.coin, op.possibleOverwrite).result));
    }
  }

  /** In the cache on top nothing is above, and only its own view changes. */
  lemma TopAllowed(s: Stack, op: Op)
    requires Callable(s, op) && (op.Add? || op.Spend?) && op.k == |s.levels| - 1
    ensures Allowed(s, op) && Reach(s, op) == op.k + 1
  {
  }

  /** The same coin added to a cache and then to the one below it: writing the upper one back throws. */
  lemma AddedBelowThrows(o: OutPoint, coin: Coin)
    requires coin.Unspent? && !coin.unspendable
    ensures var s0 := Stack(map[], [map[], map[]]);
      && Consistent(s0) && Allowed(s0, Add(1, o, coin, false))
      && var s1 := Stack(map[], [map[], map[o := Entry(coin, true, true)]]);
      && Step(s0, Add(1, o, coin, false)) == Done(s1) && Callable(s1, Add(0, o, coin, false))
        && !Allowed(s1, Add(0, o, coin, false))
      && var s2 := Stack(map[], [map[o := Entry(coin, true, true)], map[o := Entry(coin, true, true)]]);
      && Step(s1, Add(0, o, coin, false)) == Done(s2) && Callable(s2, Flush(1, [o]))
      && Step(s2, Flush(1, [o])) == FreshMisapplied
  {
    var c := map[o := Entry(coin, true, true)];
    var s0, s1 := Stack(map[], [map[], map[]]), Stack(map[], [map[], c]);
    assert Look(s0, 0, o).Spent? && Look(s0, 1, o).Spent? && Look(s0, 2, o).Spent? && Look(s1, 1, o).Spent?;
    assert Replace(s0, 1, o, Some(Entry(coin, true, true))) == s1;
    assert Replace(s1, 0, o, Some(Entry(coin, true, true))).levels == [c, c];
    assert Lists(c, [o]);
    assert Written(Some(Entry(coin, true, true)), Entry(coin, true, true)).FreshMisapplied?;
  }

  lemma FitsAt(s: Stack, k: nat, o: OutPoint)
    requires Consistent(s) && k < |s.levels|
    ensures o in s.levels[k] ==> Fits(s.levels[k][o], Look(s, k, o))
  {
  }

  lemma WriteRefines(s: Stack, op: Op)
    requires Consistent(s) && Allowed(s, op) && (op.Sync? || op.Flush?)
    ensures Refines(s, op)
  {
    hide Consistent, View, Look, WroteBack, WriteBack, SyncAll, Changed, Holder;
    var k := op.k;
    WriteBackWorks(s, k, op.order);
    var r := WriteBack(s, k, op.order).result;
    var c := if op.Sync? then SyncAll(s.levels[k]) else map[];
    SameChild(s, r, k);
    forall o | o in c ensures !c[o].Flagged() && c[o].coin.Unspent? && c[o].coin == Look(s, k + 1, o) {
      SyncedEntries(s, k, o);
    }
    Forget(s, r, k, c);
    var t := r.(levels := r.levels[k := c]);
    SameView(t, k, s, k + 1);
    OneView(s, t, k, View(s, k + 1));
  }

  lemma SameChild(s: Stack, r: Stack, k: nat)
    requires WroteBack(s, r, k)
    ensures k < |s.levels| == |r.levels| && r.levels[k] == s.levels[k]
  {
    assert r.levels[k] == r.levels[k..][0] == s.levels[k..][0];
  }

  lemma PushRefines(s: Stack, op: Op)
    requires Consistent(s) && Allowed(s, op) && (op.Push? || op.Pop?)
    ensures Refines(s, op)
  {
    hide View, Look, Fits, Changed, Holder;
    var t := Step(s, op).result;
    forall j: nat | j <= |s.levels| && j <= |t.levels| ensures View(t, j) == View(s, j) {
      forall o ensures Look(t, j, o) == Look(s, j, o) { PushLook(s, t, j, o); }
      SameView(t, j, s, j);
    }
    if op.Push? {
      forall o ensures Look(t, |t.levels|, o) == Look(s, |s.levels|, o) { PushEmpty(s, o); }
      SameView(t, |t.levels|, s, |s.levels|);
    }
    assert Views(t) == PlainStep(Views(s), op, Reach(s, op));
    forall j, p | 0 <= j < |t.levels| && p in t.levels[j] ensures Fits(t.levels[j][p], Look(t, j, p)) {
      assert t.levels[j] == s.levels[j];
      PushLook(s, t, j, p);
    }
  }

  lemma PushLook(s: Stack, t: Stack, j: nat, o: OutPoint)
    requires j <= |s.levels| && j <= |t.levels| && s.db == t.db && (s.levels <= t.levels || t.levels <= s.levels)
    ensures Look(t, j, o) == Look(s, j, o)
  {
    assert t.levels[..j] == s.levels[..j];
    LookBelow(s, t, j, o);
  }

  lemma PushEmpty(s: Stack, o: OutPoint)
    ensures var t := s.(levels := s.levels + [map[]]); Look(t, |t.levels|, o) == Look(s, |s.levels|, o)
  {
    PushLook(s, s.(levels := s.levels + [map[]]), |s.levels|, o);
  }

  lemma StepRefines(s: Stack, op: Op)
    requires Consistent(s) && Allowed(s, op)
    ensures Refines(s, op)
  {
    hide Consistent, Refines, Allowed;
    match op
    case Fetch(_, _) => FetchRefines(s, op);
    case Uncache(_, _) => FetchRefines(s, op);
    case Add(_, _, _, _) => AddRefines(s, op);
    case Spend(_, _) => SpendRefines(s, op);
    case Sync(_, _) => WriteRefines(s, op);
    case Flush(_, _) => WriteRefines(s, op);
    case Push => PushRefines(s, op);
    case Pop => PushRefines(s, op);
  }

  // ---------------------------------------------------------------------------------------------
  // Whole runs
  // ---------------------------------------------------------------------------------------------

  /** The callers meet their obligations at every step that is reached. */
  ghost predicate Obeys(s: Stack, ops: seq<Op>)
    decreases |ops|
  {
    ops != [] ==> Allowed(s, ops[0]) && (Step(s, ops[0]).Done? ==> Obeys(Step(s, ops[0]).result, ops[1..]))
  }

  ghost function Run(s: Stack, ops: seq<Op>): Outcome<Stack>
    requires Obeys(s, ops)
    decreases |ops|
  {
    if ops == [] then Done(s)
    else
      var s' :- Step(s, ops[0]);
      Run(s', ops[1..])
  }

  /** How far up the changes of a run show. */
  ghost function Reaches(s: Stack, ops: seq<Op>): (r: seq<nat>)
    requires Obeys(s, ops)
    ensures |r| == |ops|
    decreases |ops|
  {
    if ops == [] then []
    else if !Step(s, ops[0]).Done? then seq(|ops|, _ => 0)
    else [Reach(s, ops[0])] + Reaches(Step(s, ops[0]).result, ops[1..])
  }

  /** Over any run, from any database, a stack of caches is a stack of plain maps; no exception is thrown, so FRESH is
      never misapplied, and in every cache FRESH means that the view below has no such coin and an entry that is not
      DIRTY is that view's coin. */
  lemma {:induction false} RunRefines(s: Stack, ops: seq<Op>)
    requires Consistent(s) && Obeys(s, ops)
    ensures Run(s, ops).Done? && Consistent(Run(s, ops).result)
    ensures Views(Run(s, ops).result) == PlainRun(Views(s), ops, Reaches(s, ops))
    decreases |ops|
  {
    hide Step, Consistent, Views, PlainStep, Callable, Undisturbed, Reach;
    if ops != [] {
      StepRefines(s, ops[0]);
      var s' := Step(s, ops[0]).result;
      RunRefines(s', ops[1..]);
      assert Reaches(s, ops)[1..] == Reaches(s', ops[1..]);
    }
  }

  /** GetCoin and HaveCoin of any cache answer from its plain map. */
  lemma GetCoinIsLookup(s: Stack, k: nat, o: OutPoint)
    requires Consistent(s) && k < |s.levels|
    ensures Answer(FetchAt(s, k, o).levels[k], o) == if o in View(s, k + 1) then Some(View(s, k + 1)[o]) else None
  {
    hide FetchAt, View;
    FetchKeeps(s, k, o);
    ViewAt(s, k + 1, o);
  }

  lemma FetchHere(s: Stack, k: nat, o: OutPoint)
    requires k < |s.levels| && (o in s.levels[k] || k == 0)
    ensures o in FetchAt(s, k, o).levels[k] <==> o in s.levels[k] || (k == 0 && o in s.db)
    ensures k == 0 && o !in s.levels[k] && o !in s.db ==> Look(s, 1, o).Spent?
  {
  }

  lemma FetchMiss(s: Stack, k: nat, o: OutPoint)
    requires 0 < k < |s.levels| && o !in s.levels[k]
    ensures o in FetchAt(s, k, o).levels[k] <==> Answer(FetchAt(s, k - 1, o).levels[k-1], o).Some?
    ensures Look(s, k + 1, o) == Look(s, k, o)
  {
    FetchHigher(s, k - 1, k, o);
  }

  /** SpendCoin of any cache finds an entry, and returns true, for every unspent coin, but also for one that this cache
      or the database holds as spent. */
  lemma SpendFinds(s: Stack, k: nat, o: OutPoint)
    requires Consistent(s) && k < |s.levels|
    ensures o in FetchAt(s, k, o).levels[k] <==> o in View(s, k + 1) || o in s.levels[k] || (k == 0 && o in s.db)
  {
    hide View, Consistent, SameViews, Look, FetchAt;
    ViewAt(s, k + 1, o);
    if o in s.levels[k] || k == 0 {
      FetchHere(s, k, o);
    } else {
      FetchKeeps(s, k - 1, o);
      FetchMiss(s, k, o);
    }
  }

  /** A coin spent twice in one cache: the second call finds the spent entry. */
  lemma SpendTwiceFinds(o: OutPoint, coin: Coin)
    requires coin.Unspent?
    ensures var s := Stack(map[o := coin], [map[]]);
      && Allowed(s, Spend(0, o)) && Step(s, Spend(0, o)).Done?
      && var t := Step(s, Spend(0, o)).result; |t.levels| == 1 && o !in View(t, 1) && o in FetchAt(t, 0, o).levels[0]
  {
    var s := Stack(map[o := coin], [map[]]);
    assert Step(s, Spend(0, o)).result.levels[0] == map[o := Entry(Spent, true, false)];
  }
}

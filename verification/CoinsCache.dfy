/** CCoinsViewCache as an object: the map of entries, the circular list through its flagged entries and the memory
    count, updated in place (src/coins.cpp, src/coins.h). */
module CoinCaches {
  import opened CoinViews
  import opened Options

  /** A pointer to an element of the list of flagged entries. */
  datatype Ref = Sentinel | Node(o: OutPoint)

  // ---------------------------------------------------------------------------------------------
  // The circular list
  // ---------------------------------------------------------------------------------------------

  function RefAt(order: seq<OutPoint>, i: int): Ref {
    if 0 <= i < |order| then Node(order[i]) else Sentinel
  }

  ghost predicate Distinct(order: seq<OutPoint>) {
    forall i, j | 0 <= i < j < |order| :: order[i] != order[j]
  }

  ghost predicate Covers(links: map<Ref, Ref>, order: seq<OutPoint>) {
    forall r :: r in links <==> r.Sentinel? || r.o in order
  }

  /** The links form a circle through the sentinel and the given outpoints, each once, and are null elsewhere. */
  ghost predicate Ring(next: map<Ref, Ref>, prev: map<Ref, Ref>, order: seq<OutPoint>) {
    && Distinct(order) && Covers(next, order) && Covers(prev, order)
    && (forall i | -1 <= i < |order| :: next[RefAt(order, i)] == RefAt(order, i + 1))
    && (forall i | 0 <= i <= |order| :: prev[RefAt(order, i)] == RefAt(order, i - 1))
  }

  function Without(order: seq<OutPoint>, i: nat): seq<OutPoint>
    requires i < |order|
  {
    order[..i] + order[i+1..]
  }

  lemma RingFacts(next: map<Ref, Ref>, prev: map<Ref, Ref>, order: seq<OutPoint>, i: int)
    requires Ring(next, prev, order) && 0 <= i <= |order|
    ensures RefAt(order, i) in prev && prev[RefAt(order, i)] == RefAt(order, i - 1)
    ensures RefAt(order, i - 1) in next && next[RefAt(order, i - 1)] == RefAt(order, i)
  {
    assert RefAt(order, i) in prev;
    assert RefAt(order, i - 1) in next;
  }

  /** Linking in before the sentinel appends. */
  lemma RingAppend(next: map<Ref, Ref>, prev: map<Ref, Ref>, order: seq<OutPoint>, o: OutPoint)
    requires Ring(next, prev, order) && o !in order
    ensures Sentinel in prev && prev[Sentinel] in next
    ensures var last := prev[Sentinel];
      Ring(next[Node(o) := Sentinel][last := Node(o)], prev[Node(o) := last][Sentinel := Node(o)], order + [o])
  {
    RingFacts(next, prev, order, |order|);
    var last := prev[Sentinel];
    var next', prev', order' := next[Node(o) := Sentinel][last := Node(o)], prev[Node(o) := last][Sentinel := Node(o)],
      order + [o];
    forall i | -1 <= i < |order'| ensures RefAt(order', i) in next' && next'[RefAt(order', i)] == RefAt(order', i + 1) {
      if i < |order| {
        RingFacts(next, prev, order, i + 1);
        assert RefAt(order', i) == RefAt(order, i);
        assert i < |order| - 1 ==> RefAt(order', i) != last;
      }
    }
    forall i | 0 <= i <= |order'| ensures RefAt(order', i) in prev' && prev'[RefAt(order', i)] == RefAt(order', i - 1) {
      if i <= |order| {
        RingFacts(next, prev, order, i);
        assert RefAt(order', i - 1) == RefAt(order, i - 1);
      }
    }
  }

  lemma FirstOnly(order: seq<OutPoint>, i: nat)
    requires Distinct(order) && i < |order| && order[i] == order[0]
    ensures Without(order, i) == order[1..]
  {
  }

  lemma WithoutFacts(order: seq<OutPoint>, i: nat, links: map<Ref, Ref>, r: Ref, v: Ref)
    requires i < |order| && Distinct(order) && Covers(links, order) && r in links
    ensures Distinct(Without(order, i)) && Covers(links[r := v] - {Node(order[i])}, Without(order, i))
  {
    var order' := Without(order, i);
    forall x | x in order ensures x in order' || x == order[i] {
      var k :| 0 <= k < |order| && order[k] == x;
      assert k < i ==> order'[k] == x;
      assert k > i ==> order'[k-1] == x;
    }
  }

  /** Positions with one element left out. */
  lemma WithoutAt(order: seq<OutPoint>, i: nat, j: int)
    requires i < |order| && -1 <= j < |order|
    ensures RefAt(Without(order, i), j) == RefAt(order, if j < i then j else j + 1)
  {
  }

  lemma RefDistinct(order: seq<OutPoint>, i: int, j: int)
    requires Distinct(order) && -1 <= i < |order| && -1 <= j < |order| && i != j
    ensures RefAt(order, i) != RefAt(order, j)
  {
  }

  lemma RemoveForward(next: map<Ref, Ref>, prev: map<Ref, Ref>, order: seq<OutPoint>, i: nat, j: int)
    requires Ring(next, prev, order) && i < |order| && -1 <= j < |order| - 1
    ensures var next' := next[RefAt(order, i - 1) := RefAt(order, i + 1)] - {RefAt(order, i)};
      var r := RefAt(Without(order, i), j); r in next' && next'[r] == RefAt(Without(order, i), j + 1)
  {
    var k := if j < i then j else j + 1;
    RingFacts(next, prev, order, k + 1);
    assert Distinct(order);
    hide Ring, Without, RefAt, Distinct;
    WithoutAt(order, i, j);
    WithoutAt(order, i, j + 1);
    RefDistinct(order, k, i);
    if k != i - 1 {
      RefDistinct(order, k, i - 1);
    }
  }

  lemma RemoveBackward(next: map<Ref, Ref>, prev: map<Ref, Ref>, order: seq<OutPoint>, i: nat, j: int)
    requires Ring(next, prev, order) && i < |order| && 0 <= j <= |order| - 1
    ensures var prev' := prev[RefAt(order, i + 1) := RefAt(order, i - 1)] - {RefAt(order, i)};
      var r := RefAt(Without(order, i), j); r in prev' && prev'[r] == RefAt(Without(order, i), j - 1)
  {
    var k := if j < i then j else j + 1;
    RingFacts(next, prev, order, k);
    assert Distinct(order);
    var last := RefAt(order, |order|);
    assert last == RefAt(order, -1);
    hide Ring, Without, RefAt, Distinct;
    WithoutAt(order, i, j);
    WithoutAt(order, i, j - 1);
    RefDistinct(order, if k == |order| then -1 else k, i);
    if k != i + 1 {
      RefDistinct(order, if k == |order| then -1 else k, if i + 1 == |order| then -1 else i + 1);
    }
  }

  /** Linking the neighbours to each other removes. */
  lemma RingRemove(next: map<Ref, Ref>, prev: map<Ref, Ref>, order: seq<OutPoint>, i: nat)
    requires Ring(next, prev, order) && i < |order|
    ensures Node(order[i]) in next && Node(order[i]) in prev
    ensures var n, p := next[Node(order[i])], prev[Node(order[i])];
      n in prev && p in next
        && Ring(next[p := n] - {Node(order[i])}, prev[n := p] - {Node(order[i])}, Without(order, i))
  {
    RingFacts(next, prev, order, i);
    RingFacts(next, prev, order, i + 1);
    var n, p, order' := next[Node(order[i])], prev[Node(order[i])], Without(order, i);
    WithoutFacts(order, i, next, p, n);
    WithoutFacts(order, i, prev, n, p);
    forall j | -1 <= j < |order'| ensures next[p := n][RefAt(order', j)] == RefAt(order', j + 1) {
      RemoveForward(next, prev, order, i, j);
    }
    forall j | 0 <= j <= |order'| ensures prev[n := p][RefAt(order', j)] == RefAt(order', j - 1) {
      RemoveBackward(next, prev, order, i, j);
    }
  }

  // ---------------------------------------------------------------------------------------------
  // The memory count
  // ---------------------------------------------------------------------------------------------

  function Usage(coin: Coin): nat {
    if coin.Spent? then 0 else coin.usage
  }

  ghost function TotalUsage(c: Coins): nat {
    if c == map[] then 0
    else
      var o :| o in c;
      Usage(c[o].coin) + TotalUsage(c - {o})
  }

  lemma {:induction false} TotalWithout(c: Coins, o: OutPoint)
    requires o in c
    ensures TotalUsage(c) == Usage(c[o].coin) + TotalUsage(c - {o})
    decreases |c|
  {
    var p :| p in c && TotalUsage(c) == Usage(c[p].coin) + TotalUsage(c - {p});
    if p != o {
      TotalWithout(c - {p}, o);
      TotalWithout(c - {o}, p);
      assert c - {p} - {o} == c - {o} - {p};
    }
  }

  lemma TotalPut(c: Coins, o: OutPoint, e: Option<Entry>)
    ensures TotalUsage(Put(c, o, e)) == TotalUsage(c) - (if o in c then Usage(c[o].coin) else 0) + (if e.Some?
      then Usage(e.value.coin) else 0)
  {
    if o in c {
      TotalWithout(c, o);
    } else {
      assert c - {o} == c;
    }
    if e.Some? {
      TotalWithout(c[o := e.value], o);
      assert c[o := e.value] - {o} == c - {o};
    }
  }

  // ---------------------------------------------------------------------------------------------
  // The object
  // ---------------------------------------------------------------------------------------------

  ghost predicate AllPermitted(c: Coins) {
    forall o | o in c :: c[o].Permitted()
  }

  lemma PutOk(c: Coins, o: OutPoint, e: Option<Entry>)
    requires AllPermitted(c)
    ensures (e.Some? ==> e.value.Permitted()) ==> AllPermitted(Put(c, o, e))
    ensures o in c ==> c[o].Permitted()
    ensures TotalUsage(Put(c, o, e)) == TotalUsage(c) - (if o in c then Usage(c[o].coin) else 0) + (if e.Some?
      then Usage(e.value.coin) else 0)
  {
    TotalPut(c, o, e);
  }

  /** Position of an entry in the list. */
  lemma Position(c: Coins, order: seq<OutPoint>, o: OutPoint) returns (i: nat)
    requires Lists(c, order) && o in c && c[o].Flagged()
    ensures i < |order| && order[i] == o
  {
    i :| i < |order| && order[i] == o;
  }

  lemma ListsAppend(c: Coins, order: seq<OutPoint>, o: OutPoint, e: Entry)
    requires Lists(c, order) && o in c && !c[o].Flagged() && e.Flagged()
    ensures o !in order && Lists(c[o := e], order + [o])
  {
  }

  lemma ListsRemove(c: Coins, order: seq<OutPoint>, i: nat, e: Entry)
    requires Lists(c, order) && i < |order| && !e.Flagged()
    ensures Lists(c[order[i] := e], Without(order, i)) && Lists(c - {order[i]}, Without(order, i))
  {
    var order' := Without(order, i);
    forall x | x in order ensures x in order' || x == order[i] {
      var k :| 0 <= k < |order| && order[k] == x;
      assert k < i ==> order'[k] == x;
      assert k > i ==> order'[k-1] == x;
    }
  }

  class CoinsViewCache {
    var coins: Coins
    var next: map<Ref, Ref>
    var prev: map<Ref, Ref>
    var cachedCoinsUsage: int
    ghost var order: seq<OutPoint>

    /** The list holds exactly the flagged entries. */
    ghost predicate Linked()
      reads this
    {
      Ring(next, prev, order) && Lists(coins, order)
    }

    ghost predicate Valid()
      reads this
    {
      Linked() && AllPermitted(coins) && cachedCoinsUsage == TotalUsage(coins)
    }

    constructor ()
      ensures Valid() && coins == map[]
    {
      coins := map[];
      next := map[Sentinel := Sentinel];
      prev := map[Sentinel := Sentinel];
      cachedCoinsUsage := 0;
      order := [];
    }

    method AddFlags(o: OutPoint, setDirty: bool, setFresh: bool)
      requires Linked() && o in coins && (setDirty || setFresh)
      modifies this
      ensures Linked() && cachedCoinsUsage == old(cachedCoinsUsage)
      ensures var e := old(coins)[o];
        coins == old(coins)[o := e.(isDirty := e.isDirty || setDirty, isFresh := e.isFresh || setFresh)]
      ensures order == if old(coins)[o].Flagged() then old(order) else old(order) + [o]
    {
      hide Ring, Lists;
      var e := coins[o];
      var e' := e.(isDirty := e.isDirty || setDirty, isFresh := e.isFresh || setFresh);
      if !e.isDirty && !e.isFresh {
        ListsAppend(coins, order, o, e');
        RingAppend(next, prev, order, o);
        var last := prev[Sentinel];
        prev := prev[Node(o) := last];
        next := next[Node(o) := Sentinel];
        prev := prev[Sentinel := Node(o)];
        next := next[last := Node(o)];
        order := order + [o];
      } else {
        SameList(coins, order, o, e');
      }
      coins := coins[o := e'];
    }

    /** Unlinks a flagged entry; i is its place in the list. */
    method SetClean(o: OutPoint) returns (ghost i: nat)
      requires Linked() && o in coins
      modifies this
      ensures Linked() && cachedCoinsUsage == old(cachedCoinsUsage)
      ensures coins == old(coins)[o := old(coins)[o].(isDirty := false, isFresh := false)]
      ensures if old(coins)[o].Flagged() then i < |old(order)| && old(order)[i] == o
        && order == Without(old(order), i) else order == old(order)
    {
      hide Ring, Lists;
      i := 0;
      var e := coins[o];
      if e.isDirty || e.isFresh {
        i := Position(coins, order, o);
        ListsRemove(coins, order, i, e.(isDirty := false, isFresh := false));
        RingRemove(next, prev, order, i);
        var n, p := next[Node(o)], prev[Node(o)];
        prev := prev[n := p];
        next := next[p := n];
        next := next - {Node(o)};
        prev := prev - {Node(o)};
        order := Without(order, i);
      } else {
        SameList(coins, order, o, e);
      }
      coins := coins[o := e.(isDirty := false, isFresh := false)];
    }

    /** Erasing an entry unlinks it. */
    method Erase(o: OutPoint) returns (ghost i: nat)
      requires Linked() && o in coins
      modifies this
      ensures Linked() && cachedCoinsUsage == old(cachedCoinsUsage) && coins == old(coins) - {o}
      ensures if old(coins)[o].Flagged() then i < |old(order)| && old(order)[i] == o
        && order == Without(old(order), i) else order == old(order)
    {
      i := SetClean(o);
      hide Ring;
      coins := coins - {o};
    }

    /** try_emplace: an entry without flags if there is none. */
    method Emplace(o: OutPoint) returns (inserted: bool)
      requires Linked()
      modifies this`coins
      ensures Linked() && inserted == (o !in old(coins))
      ensures coins == if inserted then old(coins)[o := Entry(Spent, false, false)] else old(coins)
    {
      inserted := o !in coins;
      if inserted {
        coins := coins[o := Entry(Spent, false, false)];
      }
    }

    /** Replace the coin of an entry. */
    method Assign(o: OutPoint, coin: Coin)
      requires Linked() && o in coins
      modifies this`coins
      ensures Linked() && coins == old(coins)[o := old(coins)[o].(coin := coin)]
    {
      coins := coins[o := coins[o].(coin := coin)];
    }

    /** got is what base->GetCoin answers, if it is asked. */
    method FetchCoin(o: OutPoint, got: Option<Coin>) returns (found: bool)
      requires Valid()
      modifies this
      ensures Valid() && coins == Put(old(coins), o, Fetched(At(old(coins), o), got)) && found == (o in coins)
    {
      hide Ring, Lists, TotalUsage, AllPermitted;
      ghost var e := Fetched(At(coins, o), got);
      PutOk(coins, o, e);
      var inserted := Emplace(o);
      found := true;
      if inserted {
        if got.Some? {
          Assign(o, got.value);
          cachedCoinsUsage := cachedCoinsUsage + Usage(coins[o].coin);
          if coins[o].coin.Spent? {
            AddFlags(o, false, true);
          }
        } else {
          ghost var i := Erase(o);
          found := false;
        }
      }
      assert coins == Put(old(coins), o, e);
    }

    method AddCoin(o: OutPoint, coin: Coin, possibleOverwrite: bool) returns (thrown: bool)
      requires Valid() && coin.Unspent?
      modifies this
      ensures Valid()
      ensures thrown == (!coin.unspendable && Added(At(old(coins), o), coin, possibleOverwrite).Overwrite?)
      ensures coins ==
        if thrown || coin.unspendable then old(coins)
          else old(coins)[o := Added(At(old(coins), o), coin, possibleOverwrite).result]
    {
      hide Ring, Lists, TotalUsage, AllPermitted;
      if coin.unspendable {
        return false;
      }
      ghost var e := Added(At(coins, o), coin, possibleOverwrite);
      PutOk(coins, o, if e.Done? then Some(e.result) else None);
      var inserted := Emplace(o);
      var setFresh := false;
      if !possibleOverwrite {
        if coins[o].coin.Unspent? {
          return true;
        }
        setFresh := !coins[o].isDirty;
      }
      if !inserted {
        cachedCoinsUsage := cachedCoinsUsage - Usage(coins[o].coin);
      }
      Assign(o, coin);
      AddFlags(o, true, false);
      if setFresh {
        AddFlags(o, false, true);
      }
      cachedCoinsUsage := cachedCoinsUsage + Usage(coins[o].coin);
      assert coins == Put(old(coins), o, Some(e.result));
      return false;
    }

    method SpendCoin(o: OutPoint, got: Option<Coin>) returns (found: bool, moved: Coin)
      requires Valid()
      modifies this
      ensures Valid()
      ensures var e := Fetched(At(old(coins), o), got);
        coins == Put(old(coins), o, SpentEntry(e)) && found == e.Some? && (found ==> moved == e.value.coin)
    {
      hide Ring, Lists, TotalUsage, AllPermitted;
      moved := Spent;
      found := FetchCoin(o, got);
      if !found {
        return;
      }
      ghost var fetched := coins;
      PutOk(coins, o, SpentEntry(At(coins, o)));
      cachedCoinsUsage := cachedCoinsUsage - Usage(coins[o].coin);
      moved := coins[o].coin;
      if coins[o].isFresh {
        ghost var i := Erase(o);
      } else {
        AddFlags(o, true, false);
        Assign(o, Spent);
      }
      assert coins == Put(fetched, o, SpentEntry(At(fetched, o)));
    }

    method Uncache(o: OutPoint)
      requires Valid()
      modifies this
      ensures Valid() && coins == Put(old(coins), o, Uncached(At(old(coins), o)))
    {
      hide Ring, Lists, TotalUsage, AllPermitted;
      PutOk(coins, o, Uncached(At(coins, o)));
      if o in coins && !coins[o].isDirty && !coins[o].isFresh {
        cachedCoinsUsage := cachedCoinsUsage - Usage(coins[o].coin);
        ghost var i := Erase(o);
      }
      assert coins == Put(old(coins), o, Uncached(At(old(coins), o)));
    }

    /** The body of BatchWrite's loop, for a dirty entry e of the child. */
    method WriteEntry(o: OutPoint, e: Entry) returns (thrown: bool)
      requires Valid() && e.isDirty
      modifies this
      ensures Valid() && thrown == Written(At(old(coins), o), e).FreshMisapplied?
      ensures !thrown ==>
        Written(At(old(coins), o), e).Done? && coins == Put(old(coins), o, Written(At(old(coins), o), e).result)
    {
      hide Ring, Lists, TotalUsage, AllPermitted;
      ghost var w := Written(At(coins, o), e);
      PutOk(coins, o, if w.Done? then w.result else None);
      var inserted := Emplace(o);
      if inserted {
        if e.isFresh && e.coin.Spent? {
          ghost var i := Erase(o);
        } else {
          Assign(o, e.coin);
          cachedCoinsUsage := cachedCoinsUsage + Usage(coins[o].coin);
          AddFlags(o, true, false);
          if e.isFresh {
            AddFlags(o, false, true);
          }
        }
      } else {
        if e.isFresh && coins[o].coin.Unspent? {
          return true;
        }
        cachedCoinsUsage := cachedCoinsUsage - Usage(coins[o].coin);
        if coins[o].isFresh && e.coin.Spent? {
          ghost var i := Erase(o);
        } else {
          Assign(o, e.coin);
          cachedCoinsUsage := cachedCoinsUsage + Usage(coins[o].coin);
          AddFlags(o, true, false);
        }
      }
      assert coins == Put(old(coins), o, w.result);
      return false;
    }

    /** CoinsViewCacheCursor::NextAndMaybeErase at the first entry of the list. */
    method NextAndMaybeErase(o: OutPoint, willErase: bool) returns (it: Ref)
      requires Valid() && Node(o) in next && o in coins && (!willErase ==> order != [] && order[0] == o)
      modifies this
      ensures Valid() && it == old(next)[Node(o)]
      ensures willErase ==> coins == old(coins) && next == old(next) && prev == old(prev) && order == old(order)
      ensures !willErase ==> coins == Put(old(coins), o, Synced(old(coins)[o])) && order == old(order)[1..]
    {
      ghost var e := Synced(coins[o]);
      assert !willErase ==> coins[o].Flagged() by { assert !willErase ==> order[0] in order; }
      ghost var was := order;
      assert Distinct(was);
      PutOk(coins, o, e);
      hide Ring, Lists, TotalUsage, AllPermitted;
      it := next[Node(o)];
      if !willErase {
        ghost var i;
        if coins[o].coin.Spent? {
          i := Erase(o);
        } else {
          i := SetClean(o);
        }
        FirstOnly(was, i);
        assert coins == Put(old(coins), o, e);
      }
    }

    /** The flagged entries of the child are written in the order of its list; the cursor erases or cleans them behind
        it unless the child is about to be wiped. */
    method BatchWrite(child: CoinsViewCache, willErase: bool) returns (thrown: bool)
      requires Valid() && child.Valid() && child != this
      modifies this, child
      ensures Valid() && child.Valid()
      ensures var w := WriteAll(old(coins), old(child.coins), old(child.order));
        thrown == !w.Done? && (!thrown ==> coins == w.result)
      ensures !thrown && willErase ==> child.coins == old(child.coins)
      ensures !thrown && !willErase ==>
        child.coins == SyncAll(old(child.coins)) && Sentinel in child.next && child.next[Sentinel] == Sentinel
    {
      hide *;
      ghost var us0, child0, order0 := coins, child.coins, child.order;
      ghost var i := 0;
      Start(this, child);
      var it := child.next[Sentinel];
      while it != Sentinel
        invariant Valid() && child.Valid() && i <= |order0| && it == RefAt(order0, i)
        invariant Sofar(us0, coins, child0, order0, i)
        invariant if willErase then child.coins == child0 && child.order == order0
                  else SyncedUpTo(child0, order0, i, child.coins) && child.order == order0[i..]
        decreases |order0| - i
      {
        var o := it.o;
        AtCursor(child0, order0, i, child, willErase);
        SofarStep(us0, coins, child0, order0, i);
        SyncedStep(child0, order0, i, child.coins);
        if child.coins[o].isDirty {
          thrown := WriteEntry(o, child.coins[o]);
          if thrown {
            return;
          }
        }
        it := child.NextAndMaybeErase(o, willErase);
        i := i + 1;
      }
      AtEnd(us0, coins, child0, order0, i, child, willErase);
      return false;
    }

    /** cacheCoins.clear(): the destructor of each entry unlinks it. */
    method Clear()
      requires Linked()
      modifies this
      ensures Linked() && coins == map[]
    {
      hide Ring, Lists;
      while coins != map[]
        invariant Linked()
        decreases |coins|
      {
        var o :| o in coins;
        ghost var i := Erase(o);
      }
    }

    method Flush(base: CoinsViewCache) returns (thrown: bool)
      requires Valid() && base.Valid() && base != this
      modifies this, base
      ensures Valid() && base.Valid()
      ensures var w := WriteAll(old(base.coins), old(coins), old(order));
        thrown == !w.Done? && (!thrown ==> base.coins == w.result && coins == map[])
    {
      hide WriteAll, Ring, Lists;
      thrown := base.BatchWrite(this, true);
      if !thrown {
        Clear();
        cachedCoinsUsage := 0;
      }
    }

    /** The check that no entry is left flagged never fails. */
    method Sync(base: CoinsViewCache) returns (thrown: bool)
      requires Valid() && base.Valid() && base != this
      modifies this, base
      ensures Valid() && base.Valid()
      ensures var w := WriteAll(old(base.coins), old(coins), old(order));
        thrown == !w.Done? && (!thrown ==> base.coins == w.result && coins == SyncAll(old(coins)))
    {
      hide WriteAll, Ring, Lists;
      thrown := base.BatchWrite(this, false);
      if !thrown {
        if next[Sentinel] != Sentinel {
          return true;
        }
      }
    }

    /** All assertions of SanityCheck hold in every valid state: they are collected in ok. */
    method SanityCheck() returns (ok: bool)
      requires Valid()
      ensures ok
    {
      ok := true;
      var recomputedUsage, countFlagged := 0, 0;
      var rest := coins;
      while rest != map[]
        invariant ok && (forall o | o in rest :: o in coins && rest[o] == coins[o])
        invariant recomputedUsage + TotalUsage(rest) == TotalUsage(coins)
        invariant countFlagged + |Flagged(rest)| == |Flagged(coins)|
        decreases |rest|
      {
        var o :| o in rest;
        var e := rest[o];
        TotalWithout(rest, o);
        FlaggedWithout(rest, o);
        assert e.Permitted();
        ok := ok && !(e.isFresh && !e.isDirty && e.coin.Unspent?) && !(e.coin.Spent? && !e.isDirty && !e.isFresh)
          && !(e.isDirty && e.isFresh && e.coin.Spent?);
        recomputedUsage := recomputedUsage + Usage(e.coin);
        if e.isDirty || e.isFresh {
          countFlagged := countFlagged + 1;
        }
        rest := rest - {o};
      }
      var countLinked, sound := CountLinked();
      FlaggedCount(coins, order);
      ok := ok && sound && countLinked == countFlagged && recomputedUsage == cachedCoinsUsage;
    }

    /** The walk over the list, with its integrity checks. */
    method CountLinked() returns (countLinked: nat, sound: bool)
      requires Linked()
      ensures countLinked == |order| && sound
    {
      sound := true;
      RingFacts(next, prev, order, 0);
      var it := next[Sentinel];
      countLinked := 0;
      while it != Sentinel
        invariant sound && countLinked <= |order| && it == RefAt(order, countLinked)
        decreases |order| - countLinked
      {
        RingFacts(next, prev, order, countLinked);
        RingFacts(next, prev, order, countLinked + 1);
        assert it.o in order;
        sound := sound && prev[next[it]] == it && next[prev[it]] == it && (coins[it.o].isDirty || coins[it.o].isFresh);
        it := next[it];
        countLinked := countLinked + 1;
      }
    }
  }

  ghost function Flagged(c: Coins): set<OutPoint> {
    set o | o in c && c[o].Flagged()
  }

  lemma FlaggedWithout(c: Coins, o: OutPoint)
    requires o in c
    ensures |Flagged(c)| == |Flagged(c - {o})| + if c[o].Flagged() then 1 else 0
  {
    assert Flagged(c - {o}) == Flagged(c) - {o};
  }

  lemma FlaggedCount(c: Coins, order: seq<OutPoint>)
    requires Lists(c, order)
    ensures |Flagged(c)| == |order|
  {
    DistinctCount(order);
    assert Flagged(c) == set o | o in order;
  }

  lemma {:induction false} DistinctCount(order: seq<OutPoint>)
    requires Distinct(order)
    ensures |set o | o in order| == |order|
  {
    if order != [] {
      DistinctCount(order[1..]);
      assert (set o | o in order) == (set o | o in order[1..]) + {order[0]};
    }
  }

  /** What is left to write gives the same as all there was to write. */
  ghost predicate Sofar(us0: Coins, us: Coins, child: Coins, order: seq<OutPoint>, i: nat) {
    && i <= |order| && Lists(child, order)
    && WriteAll(us0, child, order) == WriteAll(us, child, order[i..])
  }

  /** The first i entries of the list are cleaned or erased. */
  ghost predicate SyncedUpTo(child: Coins, order: seq<OutPoint>, i: nat, c: Coins) {
    && i <= |order| && Lists(child, order)
    && forall o :: At(c, o) == if o in order[..i] then Synced(child[o]) else At(child, o)
  }

  lemma Start(us: CoinsViewCache, child: CoinsViewCache)
    requires child.Valid()
    ensures Sofar(us.coins, us.coins, child.coins, child.order, 0)
      && SyncedUpTo(child.coins, child.order, 0, child.coins)
    ensures Sentinel in child.next && child.next[Sentinel] == RefAt(child.order, 0) && child.order[0..] == child.order
  {
    assert child.order[0..] == child.order;
    RingFacts(child.next, child.prev, child.order, 0);
  }

  lemma SofarStep(us0: Coins, us: Coins, child: Coins, order: seq<OutPoint>, i: nat)
    requires Sofar(us0, us, child, order, i) && i < |order|
    ensures order[i] in child
    ensures var w := Written(At(us, order[i]), child[order[i]]);
      if w.Done? then Sofar(us0, Put(us, order[i], w.result), child, order, i + 1)
        else !WriteAll(us0, child, order).Done?
    ensures !child[order[i]].isDirty ==> Sofar(us0, us, child, order, i + 1)
  {
    assert order[i] in order;
    assert order[i..][1..] == order[i+1..];
    assert Put(us, order[i], At(us, order[i])) == us;
  }

  lemma SyncedStep(child: Coins, order: seq<OutPoint>, i: nat, c: Coins)
    requires i < |order|
    ensures SyncedUpTo(child, order, i, c) ==>
      order[i] in c && SyncedUpTo(child, order, i + 1, Put(c, order[i], Synced(c[order[i]])))
  {
    if SyncedUpTo(child, order, i, c) {
      assert order[i] in order && order[i] !in order[..i];
      assert order[..i+1] == order[..i] + [order[i]];
      assert At(c, order[i]) == At(child, order[i]);
    }
  }

  lemma AtCursor(child0: Coins, order0: seq<OutPoint>, i: nat, child: CoinsViewCache, willErase: bool)
    requires child.Valid() && RefAt(order0, i) != Sentinel && Lists(child0, order0)
    requires if willErase then child.coins == child0 && child.order == order0
             else SyncedUpTo(child0, order0, i, child.coins) && child.order == order0[i..]
    ensures i < |order0| && RefAt(order0, i) == Node(order0[i]) && order0[i] in child0
    ensures var o := order0[i];
      && o in child.coins && child.coins[o] == child0[o] && Node(o) in child.next
        && child.next[Node(o)] == RefAt(order0, i + 1)
      && (!willErase ==> child.order != [] && child.order[0] == o && child.order[1..] == order0[i+1..])
  {
    var o := order0[i];
    assert o in order0 && o !in order0[..i];
    if willErase {
      RingFacts(child.next, child.prev, order0, i + 1);
    } else {
      assert At(child.coins, o) == At(child0, o);
      RingFacts(child.next, child.prev, child.order, 1);
      assert RefAt(child.order, 1) == RefAt(order0, i + 1);
    }
  }

  lemma AtEnd(us0: Coins, us: Coins, child0: Coins, order0: seq<OutPoint>, i: nat, child: CoinsViewCache,
              willErase: bool)
    requires child.Valid() && RefAt(order0, i) == Sentinel && Sofar(us0, us, child0, order0, i)
    requires !willErase ==> SyncedUpTo(child0, order0, i, child.coins) && child.order == order0[i..]
    ensures WriteAll(us0, child0, order0) == Done(us)
    ensures !willErase ==> child.coins == SyncAll(child0) && Sentinel in child.next && child.next[Sentinel] == Sentinel
  {
    assert order0[i..] == [] && order0[..i] == order0;
    if !willErase {
      RingFacts(child.next, child.prev, child.order, 0);
      forall o ensures At(child.coins, o) == At(SyncAll(child0), o) {
        assert At(child.coins, o) == if o in order0 then Synced(child0[o]) else At(child0, o);
      }
      assert child.coins == SyncAll(child0) by { Extensional(child.coins, SyncAll(child0)); }
    }
  }

  lemma Extensional(a: Coins, b: Coins)
    requires forall o :: At(a, o) == At(b, o)
    ensures a == b
  {
    assert forall o :: o in a <==> At(a, o).Some?;
    forall o | o in a ensures o in b && a[o] == b[o] {
      assert At(a, o) == At(b, o);
    }
    forall o | o in b ensures o in a {
      assert At(a, o) == At(b, o);
    }
  }

  lemma SameList(c: Coins, order: seq<OutPoint>, o: OutPoint, e: Entry)
    requires Lists(c, order) && o in c && (e.Flagged() <==> c[o].Flagged())
    ensures Lists(c[o := e], order)
  {
  }
}

/** The consistency check of the address manager (src/addrman.cpp): what it accepts, and what that is worth. */
module AddrChecks {
  import opened AddrMans

  // ---------------------------------------------------------------------------------------------
  // What the check accepts, part by part
  // ---------------------------------------------------------------------------------------------

  /** One entry: its times, its count of references, and the way to it by address and by position. */
  ghost predicate EntryFine(c: Core, id: int) {
    && id in c.mapInfo
    && var info := c.mapInfo[id];
    && InTime(info) && (if info.fInTried then info.nRefCount == 0 else 1 <= info.nRefCount <= NEW_BUCKETS_PER_ADDRESS)
    && info.addr in c.mapAddr && c.mapAddr[info.addr] == id
    && 0 <= info.nRandomPos < |c.vRandom| && c.vRandom[info.nRandomPos] == id
  }

  ghost predicate EntriesFine(c: Core) {
    forall id | id in c.mapInfo :: EntryFine(c, id)
  }

  ghost predicate TriedSlotFine(h: Hashes, c: Core, s: nat)
    requires s < |c.vvTried|
  {
    c.vvTried[s] != -1 ==>
      c.vvTried[s] in TriedIds(c.mapInfo) && s == TriedSlot(h, c.mapInfo[c.vvTried[s]].addr)
  }

  /** The tried table holds the tried entries, each in its own slot. */
  ghost predicate TriedFine(h: Hashes, c: Core) {
    && |c.vvTried| == TRIED_SIZE
    && (forall s: nat | s < TRIED_SIZE :: TriedSlotFine(h, c, s))
    && (forall id | id in TriedIds(c.mapInfo) :: id != -1 && c.vvTried[TriedSlot(h, c.mapInfo[id].addr)] == id)
  }

  ghost predicate NewSlotFine(h: Hashes, c: Core, s: nat)
    requires s < |c.vvNew| == NEW_SIZE
  {
    c.vvNew[s] != -1 ==>
      c.vvNew[s] in NewIds(c.mapInfo) && s == NewSlot(h, c.mapInfo[c.vvNew[s]].addr, s / BUCKET_SIZE)
  }

  /** The new table holds the new entries, each in its place of the bucket and as often as its count says. */
  ghost predicate NewFine(h: Hashes, c: Core) {
    && |c.vvNew| == NEW_SIZE
    && (forall s: nat | s < NEW_SIZE :: NewSlotFine(h, c, s))
    && (forall id | id in NewIds(c.mapInfo) :: id != -1 && multiset(c.vvNew)[id] == c.mapInfo[id].nRefCount)
  }

  ghost function Networks(m: map<int, Info>, ids: set<int>): set<nat> {
    set id | id in ids && id in m :: m[id].addr.network
  }

  ghost function TrueCounts(m: map<int, Info>, network: nat): Counts {
    Counts(|OfNetwork(m, NewIds(m), network)|, |OfNetwork(m, TriedIds(m), network)|)
  }

  /** The counters by network are right where there are any, and there are enough of them. */
  ghost predicate CountersFine(c: Core) {
    && |Networks(c.mapInfo, c.mapInfo.Keys)| <= |c.counts|
    && forall network | network in c.counts :: c.counts[network] == TrueCounts(c.mapInfo, network)
  }

  /** What the check accepts. */
  ghost predicate Checked(h: Hashes, c: Core) {
    && |c.vRandom| == c.nTried + c.nNew && |TriedIds(c.mapInfo)| == c.nTried && |NewIds(c.mapInfo)| == c.nNew
    && EntriesFine(c) && TriedFine(h, c) && NewFine(h, c) && CountersFine(c)
  }

  // ---------------------------------------------------------------------------------------------
  // What that is worth
  // ---------------------------------------------------------------------------------------------

  /** What the check does not look at: the range of the ids, addresses that lead nowhere, networks without counters. */
  ghost predicate Unchecked(c: Core) {
    && c.nIdCount >= 0 && (forall id | id in c.mapInfo :: 0 <= id < c.nIdCount)
    && (forall a | a in c.mapAddr :: c.mapAddr[a] in c.mapInfo && c.mapInfo[c.mapAddr[a]].addr == a)
    && (forall id | id in c.mapInfo :: c.mapInfo[id].addr.network in c.counts)
  }

  /** The invariant, with times after the epoch, is what the check accepts and what it does not look at. */
  lemma CheckedExact(h: Hashes, c: Core)
    ensures Inv(h, c, {}, {}) && Timed(c.mapInfo) <==> Checked(h, c) && Unchecked(c)
  {
    if Inv(h, c, {}, {}) && Timed(c.mapInfo) {
      InvChecked(h, c);
    }
    if Checked(h, c) && Unchecked(c) {
      CheckedInv(h, c);
    }
  }

  lemma InvChecked(h: Hashes, c: Core)
    requires Inv(h, c, {}, {}) && Timed(c.mapInfo)
    ensures Checked(h, c) && Unchecked(c)
  {
    InvEntries(h, c);
    InvTables(h, c);
    InvCounters(h, c);
    Capacity(h, c);
  }

  lemma InvEntries(h: Hashes, c: Core)
    requires Inv(h, c, {}, {}) && Timed(c.mapInfo)
    ensures EntriesFine(c) && Unchecked(c)
  {
    hide Tally, TriedSlot, NewSlot;
  }

  lemma InvTables(h: Hashes, c: Core)
    requires Inv(h, c, {}, {})
    ensures TriedFine(h, c) && NewFine(h, c)
  {
    hide Tally, TriedSlot, NewSlot;
  }

  lemma InvCounters(h: Hashes, c: Core)
    requires Inv(h, c, {}, {})
    ensures CountersFine(c) && |TriedIds(c.mapInfo)| == c.nTried && |NewIds(c.mapInfo)| == c.nNew
  {
    hide Indexed, InNew, InTried, Placed, Clocked;
    assert TriedIds(c.mapInfo) - {} == TriedIds(c.mapInfo) && NewIds(c.mapInfo) - {} == NewIds(c.mapInfo);
    SubsetSize(Networks(c.mapInfo, c.mapInfo.Keys), c.counts.Keys);
  }

  lemma CheckedInv(h: Hashes, c: Core)
    requires Checked(h, c) && Unchecked(c)
    ensures Inv(h, c, {}, {}) && Timed(c.mapInfo)
  {
    hide TriedFine, NewFine, CountersFine;
    CheckedIndexed(c);
    CheckedTables(h, c);
    CheckedCounters(c);
  }

  lemma CheckedTimed(h: Hashes, c: Core)
    ensures Checked(h, c) ==> Timed(c.mapInfo)
  {
    hide TriedFine, NewFine, CountersFine;
    assert EntriesFine(c) ==> forall id | id in c.mapInfo :: EntryFine(c, id);
  }

  lemma CheckedIndexed(c: Core)
    requires EntriesFine(c) && Unchecked(c) && |c.vRandom| == |TriedIds(c.mapInfo)| + |NewIds(c.mapInfo)|
    ensures Indexed(c)
  {
    assert c.mapInfo.Keys == TriedIds(c.mapInfo) + NewIds(c.mapInfo);
    forall i | 0 <= i < |c.vRandom|
      ensures c.vRandom[i] in c.mapInfo && c.mapInfo[c.vRandom[i]].nRandomPos == i {
      RandomOnto(c, i);
    }
  }

  /** As many positions as ids, and each id at its position: no position is left for anything else. */
  lemma RandomOnto(c: Core, i: nat)
    requires EntriesFine(c) && |c.vRandom| == |c.mapInfo.Keys| && i < |c.vRandom|
    ensures c.vRandom[i] in c.mapInfo && c.mapInfo[c.vRandom[i]].nRandomPos == i
  {
    if !(c.vRandom[i] in c.mapInfo && c.mapInfo[c.vRandom[i]].nRandomPos == i) {
      var others := c.vRandom[..i] + c.vRandom[i+1..];
      forall id | id in c.mapInfo.Keys ensures id in others {
        assert EntryFine(c, id);
        var p := c.mapInfo[id].nRandomPos;
        assert p != i;
        assert others[if p < i then p else p - 1] == id;
      }
      ElementsBound(others, c.mapInfo.Keys);
      assert false;
    }
  }

  lemma NotInNew(h: Hashes, c: Core, id: int)
    requires NewFine(h, c) && id != -1 && id !in NewIds(c.mapInfo)
    ensures multiset(c.vvNew)[id] == 0
  {
    hide NewSlot;
    forall s: nat | s < NEW_SIZE ensures c.vvNew[s] != id {
      assert NewSlotFine(h, c, s);
    }
  }

  lemma CheckedTables(h: Hashes, c: Core)
    requires EntriesFine(c) && TriedFine(h, c) && NewFine(h, c)
    ensures InNew(h, c) && InTried(h, c) && Placed(c, {})
  {
    hide TriedSlot, NewSlot;
    forall id | id in c.mapInfo
      ensures c.mapInfo[id].nRefCount == multiset(c.vvNew)[id] <= NEW_BUCKETS_PER_ADDRESS {
      assert EntryFine(c, id);
      if id in TriedIds(c.mapInfo) {
        NotInNew(h, c, id);
      }
    }
    forall s | 0 <= s < NEW_SIZE && c.vvNew[s] != -1
      ensures c.vvNew[s] in NewIds(c.mapInfo)
        && s == NewSlot(h, c.mapInfo[c.vvNew[s]].addr, s / BUCKET_SIZE) {
      assert NewSlotFine(h, c, s);
    }
    forall s | 0 <= s < TRIED_SIZE && c.vvTried[s] != -1
      ensures c.vvTried[s] in TriedIds(c.mapInfo) && s == TriedSlot(h, c.mapInfo[c.vvTried[s]].addr) {
      assert TriedSlotFine(h, c, s);
    }
  }

  lemma CheckedCounters(c: Core)
    requires CountersFine(c) && |TriedIds(c.mapInfo)| == c.nTried && |NewIds(c.mapInfo)| == c.nNew
    requires forall id | id in c.mapInfo :: c.mapInfo[id].addr.network in c.counts
    ensures Counted(c, {})
  {
    hide OfNetwork, NewIds, TriedIds;
    assert TriedIds(c.mapInfo) - {} == TriedIds(c.mapInfo) && NewIds(c.mapInfo) - {} == NewIds(c.mapInfo);
    forall network: nat ensures CountsOf(c.counts, network) == TrueCounts(c.mapInfo, network) {
      if network !in c.counts {
        NoneOfNetwork(c.mapInfo, NewIds(c.mapInfo), network);
        NoneOfNetwork(c.mapInfo, TriedIds(c.mapInfo), network);
      }
    }
  }

  lemma NoneOfNetwork(m: map<int, Info>, ids: set<int>, network: nat)
    requires forall id | id in m :: m[id].addr.network != network
    ensures OfNetwork(m, ids, network) == {}
  {
    assert forall id :: id in OfNetwork(m, ids, network) <==> id in {};
  }

  /** An address that leads nowhere: the check accepts a state that the invariant excludes. */
  lemma StaleAddressAccepted(h: Hashes, a: Addr)
    ensures var c := Core(map[], map[a := 0], [], 0, seq(NEW_SIZE, _ => -1), seq(TRIED_SIZE, _ => -1), 0, 0, map[], {},
                          true);
      Checked(h, c) && !Inv(h, c, {}, {})
  {
    var c := Core(map[], map[a := 0], [], 0, seq(NEW_SIZE, _ => -1), seq(TRIED_SIZE, _ => -1), 0, 0, map[], {}, true);
    assert TriedIds(c.mapInfo) == {} && NewIds(c.mapInfo) == {} && Networks(c.mapInfo, {}) == {};
    assert a in c.mapAddr;
  }

  // ---------------------------------------------------------------------------------------------
  // The entries
  // ---------------------------------------------------------------------------------------------

  /** The check of one entry of mapInfo. */
  function EntryError(info: Info, n: int, mapAddr: map<Addr, int>, vRandom: seq<int>): int {
    if info.fInTried && info.lastSuccess == 0 then -1
    else if info.fInTried && info.nRefCount != 0 then -2
    else if !info.fInTried && (info.nRefCount < 0 || info.nRefCount > NEW_BUCKETS_PER_ADDRESS) then -3
    else if !info.fInTried && info.nRefCount == 0 then -4
    else if info.addr !in mapAddr || mapAddr[info.addr] != n then -5
    else if info.nRandomPos < 0 || info.nRandomPos >= |vRandom| || vRandom[info.nRandomPos] != n then -14
    else if info.lastTry < 0 then -6
    else if info.lastSuccess < 0 then -8
    else 0
  }

  lemma EntryErrorIs(c: Core, n: int)
    requires n in c.mapInfo
    ensures EntryError(c.mapInfo[n], n, c.mapAddr, c.vRandom) == 0 <==> EntryFine(c, n)
  {
  }

  /** mapNew has the counts of references of the new entries. */
  ghost predicate CountsNew(m: map<int, Info>, mapNew: map<int, int>) {
    mapNew.Keys == NewIds(m) && forall id | id in mapNew && id in m :: mapNew[id] == m[id].nRefCount
  }

  /** The counters of the check count these ids. */
  ghost predicate LocalTally(c: Core, counts: map<nat, Counts>, news: set<int>, trieds: set<int>) {
    Tally(c.(nNew := |news|, nTried := |trieds|, counts := counts), news, trieds)
  }

  ghost predicate SeenIds(m: map<int, Info>, done: set<int>, setTried: set<int>, mapNew: map<int, int>) {
    && setTried == TriedIds(m) * done && mapNew.Keys == NewIds(m) * done
    && (forall id | id in mapNew && id in m :: mapNew[id] == m[id].nRefCount)
  }

  /** What the check has collected of the entries done. */
  ghost predicate Seen(c: Core, done: set<int>, setTried: set<int>, mapNew: map<int, int>,
                       localCounts: map<nat, Counts>) {
    && SeenIds(c.mapInfo, done, setTried, mapNew) && LocalTally(c, localCounts, mapNew.Keys, setTried)
    && localCounts.Keys == Networks(c.mapInfo, done)
  }

  lemma OneDone(all: set<int>, rest: set<int>, n: int)
    requires rest <= all && n in rest
    ensures all - rest + {n} == all - (rest - {n}) && rest - {n} <= all && n !in all - rest && n in all
  {
  }

  lemma NothingSeen(c: Core)
    ensures Seen(c, {}, {}, map[], map[])
  {
    forall network: nat ensures OfNetwork(c.mapInfo, {}, network) == {} {}
    assert Networks(c.mapInfo, {}) == {};
  }

  lemma DoneIds(m: map<int, Info>, done: set<int>, n: int)
    requires n in m && n !in done
    ensures TriedIds(m) * (done + {n}) == TriedIds(m) * done + (if m[n].fInTried then {n} else {})
    ensures NewIds(m) * (done + {n}) == NewIds(m) * done + (if m[n].fInTried then {} else {n})
    ensures n !in TriedIds(m) * done && n !in NewIds(m) * done
  {
  }

  lemma DoneNetworks(m: map<int, Info>, done: set<int>, n: int, counts: map<nat, Counts>, dNew: int, dTried: int)
    requires n in m && counts.Keys == Networks(m, done)
    ensures Bump(counts, m[n].addr.network, dNew, dTried).Keys == Networks(m, done + {n})
  {
    assert Networks(m, done + {n}) == Networks(m, done) + {m[n].addr.network};
  }

  lemma SeenNextTried(c: Core, done: set<int>, setTried: set<int>, mapNew: map<int, int>, localCounts: map<nat, Counts>,
                      n: int)
    requires Seen(c, done, setTried, mapNew, localCounts) && n in c.mapInfo && n !in done && c.mapInfo[n].fInTried
    ensures Seen(c, done + {n}, setTried + {n}, mapNew, Bump(localCounts, c.mapInfo[n].addr.network, 0, 1))
  {
    hide LocalTally, Bump, SeenIds, Networks;
    SeenIdsTried(c.mapInfo, done, setTried, mapNew, n);
    LocalMoreTried(c, localCounts, mapNew.Keys, setTried, n);
    DoneNetworks(c.mapInfo, done, n, localCounts, 0, 1);
  }

  lemma SeenIdsTried(m: map<int, Info>, done: set<int>, setTried: set<int>, mapNew: map<int, int>, n: int)
    requires SeenIds(m, done, setTried, mapNew) && n in m && n !in done && m[n].fInTried
    ensures SeenIds(m, done + {n}, setTried + {n}, mapNew) && n !in setTried
  {
    hide TriedIds, NewIds;
    DoneIds(m, done, n);
  }

  lemma LocalMoreTried(c: Core, counts: map<nat, Counts>, news: set<int>, trieds: set<int>, n: int)
    requires LocalTally(c, counts, news, trieds) && n in c.mapInfo && n !in trieds
    ensures LocalTally(c, Bump(counts, c.mapInfo[n].addr.network, 0, 1), news, trieds + {n})
  {
    hide Tally, Bump;
    OneMoreTried(c.(nNew := |news|, nTried := |trieds|, counts := counts), news, trieds, n);
  }

  lemma LocalMoreNew(c: Core, counts: map<nat, Counts>, news: set<int>, trieds: set<int>, n: int)
    requires LocalTally(c, counts, news, trieds) && n in c.mapInfo && n !in news
    ensures LocalTally(c, Bump(counts, c.mapInfo[n].addr.network, 1, 0), news + {n}, trieds)
  {
    hide Tally, Bump;
    OneMoreNew(c.(nNew := |news|, nTried := |trieds|, counts := counts), news, trieds, n);
  }

  lemma SeenIdsNew(m: map<int, Info>, done: set<int>, setTried: set<int>, mapNew: map<int, int>, n: int)
    requires SeenIds(m, done, setTried, mapNew) && n in m && n !in done && !m[n].fInTried
    ensures SeenIds(m, done + {n}, setTried, mapNew[n := m[n].nRefCount])
    ensures mapNew[n := m[n].nRefCount].Keys == mapNew.Keys + {n} && n !in mapNew.Keys
  {
    hide TriedIds, NewIds;
    DoneIds(m, done, n);
    assert mapNew[n := m[n].nRefCount].Keys == mapNew.Keys + {n};
  }

  lemma SeenNextNew(c: Core, done: set<int>, setTried: set<int>, mapNew: map<int, int>, localCounts: map<nat, Counts>,
                    n: int)
    requires Seen(c, done, setTried, mapNew, localCounts) && n in c.mapInfo && n !in done && !c.mapInfo[n].fInTried
    ensures Seen(c, done + {n}, setTried, mapNew[n := c.mapInfo[n].nRefCount],
                 Bump(localCounts, c.mapInfo[n].addr.network, 1, 0))
  {
    hide LocalTally, Bump, SeenIds, Networks;
    SeenIdsNew(c.mapInfo, done, setTried, mapNew, n);
    LocalMoreNew(c, localCounts, mapNew.Keys, setTried, n);
    DoneNetworks(c.mapInfo, done, n, localCounts, 1, 0);
  }

  lemma AllIds(m: map<int, Info>)
    ensures TriedIds(m) * m.Keys == TriedIds(m) && NewIds(m) * m.Keys == NewIds(m)
  {
  }

  lemma AllSeen(c: Core, setTried: set<int>, mapNew: map<int, int>, localCounts: map<nat, Counts>)
    requires Seen(c, c.mapInfo.Keys, setTried, mapNew, localCounts)
    ensures setTried == TriedIds(c.mapInfo) && |mapNew| == |NewIds(c.mapInfo)| && CountsNew(c.mapInfo, mapNew)
    ensures |localCounts| == |Networks(c.mapInfo, c.mapInfo.Keys)|
    ensures forall network :: CountsOf(localCounts, network) == TrueCounts(c.mapInfo, network)
  {
    hide TriedIds, NewIds, CountsOf, Networks, OfNetwork;
    AllIds(c.mapInfo);
    assert |mapNew| == |mapNew.Keys| && |localCounts| == |localCounts.Keys|;
  }

  // ---------------------------------------------------------------------------------------------
  // The tried table
  // ---------------------------------------------------------------------------------------------

  /** The ids in the first s slots. */
  ghost function Holds(v: seq<int>, s: nat): set<int>
    requires s <= |v|
  {
    set i | 0 <= i < s && v[i] != -1 :: v[i]
  }

  lemma HoldsNext(v: seq<int>, s: nat)
    requires s < |v|
    ensures Holds(v, s + 1) == Holds(v, s) + if v[s] == -1 then {} else {v[s]}
  {
  }

  lemma NothingHeld(v: seq<int>)
    ensures Holds(v, 0) == {}
  {
  }

  lemma NotFine(h: Hashes, c: Core, s: nat)
    requires s < |c.vvTried| && !TriedSlotFine(h, c, s)
    ensures !TriedFine(h, c)
  {
  }

  lemma TriedKnown(m: map<int, Info>, id: int)
    ensures id in TriedIds(m) <==> id in m && m[id].fInTried
  {
  }

  lemma SlotParts(h: Hashes, a: Addr, s: nat)
    ensures s == TriedSlot(h, a) <==>
      TriedBucket(h, a) == s / BUCKET_SIZE && Position(h, a, false, s / BUCKET_SIZE) == s % BUCKET_SIZE
  {
  }

  lemma NewSlotParts(h: Hashes, a: Addr, s: nat)
    requires s < NEW_SIZE
    ensures s == NewSlot(h, a, s / BUCKET_SIZE) <==> Position(h, a, true, s / BUCKET_SIZE) == s % BUCKET_SIZE
  {
  }

  /** An id met before would be in two slots of its own. */
  lemma MetTwice(h: Hashes, c: Core, s: nat)
    requires |c.vvTried| == TRIED_SIZE && s < TRIED_SIZE && c.vvTried[s] in Holds(c.vvTried, s)
    requires forall i: nat | i < s :: TriedSlotFine(h, c, i)
    ensures c.vvTried[s] != -1 && !TriedSlotFine(h, c, s)
  {
    hide TriedSlot;
    var i: nat :| i < s && c.vvTried[i] == c.vvTried[s] && c.vvTried[i] != -1;
    assert TriedSlotFine(h, c, i);
  }

  lemma TriedLeft(h: Hashes, c: Core)
    requires |c.vvTried| == TRIED_SIZE && forall s: nat | s < TRIED_SIZE :: TriedSlotFine(h, c, s)
    ensures TriedIds(c.mapInfo) - Holds(c.vvTried, TRIED_SIZE) == {} <==> TriedFine(h, c)
  {
    hide TriedSlot, TriedSlotFine, Holds;
    forall id | id in TriedIds(c.mapInfo)
      ensures id in Holds(c.vvTried, TRIED_SIZE) <==>
        id != -1 && c.vvTried[TriedSlot(h, c.mapInfo[id].addr)] == id {
      TriedAt(h, c, id);
    }
    NothingOver(TriedIds(c.mapInfo), Holds(c.vvTried, TRIED_SIZE));
  }

  lemma NothingOver(a: set<int>, b: set<int>)
    ensures a - b == {} <==> forall id | id in a :: id in b
  {
    if a - b == {} {
      forall id | id in a ensures id in b {
        assert id !in a - b;
      }
    }
    if forall id | id in a :: id in b {
      assert forall id :: id in a - b <==> id in {};
    }
  }

  lemma TriedAt(h: Hashes, c: Core, id: int)
    requires |c.vvTried| == TRIED_SIZE && forall s: nat | s < TRIED_SIZE :: TriedSlotFine(h, c, s)
    requires id in TriedIds(c.mapInfo)
    ensures id in Holds(c.vvTried, TRIED_SIZE) <==> id != -1 && c.vvTried[TriedSlot(h, c.mapInfo[id].addr)] == id
  {
    hide TriedSlot;
    if id in Holds(c.vvTried, TRIED_SIZE) {
      var i: nat :| i < TRIED_SIZE && c.vvTried[i] == id && c.vvTried[i] != -1;
      assert TriedSlotFine(h, c, i);
    }
  }

  // ---------------------------------------------------------------------------------------------
  // The new table
  // ---------------------------------------------------------------------------------------------

  /** How often an id is met in the first s slots; -1 is not met. */
  ghost function Met(v: seq<int>, s: nat, id: int): nat
    requires s <= |v|
  {
    if id == -1 then 0 else multiset(v[..s])[id]
  }

  lemma MetNext(v: seq<int>, s: nat, id: int)
    requires s < |v|
    ensures Met(v, s + 1, id) == Met(v, s, id) + if id == v[s] && id != -1 then 1 else 0
  {
    assert v[..s+1] == v[..s] + [v[s]];
  }

  lemma MetAll(v: seq<int>, s: nat, id: int)
    requires s <= |v|
    ensures Met(v, s, id) <= Met(v, |v|, id) && (id != -1 ==> Met(v, |v|, id) == multiset(v)[id])
  {
    assert v[..|v|] == v == v[..s] + v[s..];
  }

  /** mapNew has what the first s slots leave of the counts of references. */
  ghost predicate LeftAt(c: Core, s: nat, mapNew: map<int, int>) {
    && s <= |c.vvNew|
    && forall id :: LeftOf(c, s, mapNew, id)
  }

  ghost predicate LeftOf(c: Core, s: nat, mapNew: map<int, int>, id: int)
    requires s <= |c.vvNew|
  {
    if id in c.mapInfo && !c.mapInfo[id].fInTried then
      var rest := c.mapInfo[id].nRefCount - Met(c.vvNew, s, id);
      rest >= 0 && (id in mapNew <==> rest > 0) && (id in mapNew ==> mapNew[id] == rest)
    else id !in mapNew
  }

  function Less(mapNew: map<int, int>, id: int): map<int, int>
    requires id in mapNew
  {
    if mapNew[id] == 1 then mapNew - {id} else mapNew[id := mapNew[id] - 1]
  }

  lemma AllLeft(c: Core, news: map<int, int>)
    requires EntriesFine(c) && CountsNew(c.mapInfo, news)
    ensures LeftAt(c, 0, news)
  {
    forall id ensures LeftOf(c, 0, news, id) {
      assert id in c.mapInfo ==> EntryFine(c, id);
      assert id in news <==> id in news.Keys;
    }
  }

  lemma LeftNext(c: Core, s: nat, mapNew: map<int, int>)
    requires s < |c.vvNew| && LeftAt(c, s, mapNew)
    ensures c.vvNew[s] == -1 ==> LeftAt(c, s + 1, mapNew)
    ensures c.vvNew[s] != -1 && c.vvNew[s] in mapNew ==> LeftAt(c, s + 1, Less(mapNew, c.vvNew[s]))
  {
    hide Met;
    if c.vvNew[s] == -1 {
      var next := s + 1;
      forall id ensures LeftOf(c, next, mapNew, id) {
        MetNext(c.vvNew, s, id);
        assert LeftOf(c, s, mapNew, id);
      }
    } else if c.vvNew[s] in mapNew {
      var next, left := s + 1, Less(mapNew, c.vvNew[s]);
      forall id ensures LeftOf(c, next, left, id) {
        MetNext(c.vvNew, s, id);
        assert LeftOf(c, s, mapNew, id);
      }
    }
  }

  lemma LeftKnown(c: Core, s: nat, mapNew: map<int, int>, id: int)
    requires s <= |c.vvNew| && LeftAt(c, s, mapNew) && id in mapNew
    ensures id in c.mapInfo && id in NewIds(c.mapInfo) && mapNew[id] > 0
  {
    assert LeftOf(c, s, mapNew, id);
  }

  lemma NotFineNew(h: Hashes, c: Core, s: nat)
    requires s < |c.vvNew| == NEW_SIZE && !NewSlotFine(h, c, s)
    ensures !NewFine(h, c)
  {
  }

  /** An id with nothing left is met too often, or is not of a new entry. */
  lemma MetTooOften(h: Hashes, c: Core, s: nat, mapNew: map<int, int>)
    requires s < |c.vvNew| == NEW_SIZE && LeftAt(c, s, mapNew) && c.vvNew[s] != -1 && c.vvNew[s] !in mapNew
    ensures !NewFine(h, c)
  {
    hide Met, NewSlot;
    var id := c.vvNew[s];
    assert LeftOf(c, s, mapNew, id);
    MetNext(c.vvNew, s, id);
    MetAll(c.vvNew, s + 1, id);
    assert NewFine(h, c) ==> NewSlotFine(h, c, s);
  }

  lemma NewLeft(h: Hashes, c: Core, mapNew: map<int, int>)
    requires |c.vvNew| == NEW_SIZE && LeftAt(c, NEW_SIZE, mapNew) && EntriesFine(c)
    requires forall s: nat | s < NEW_SIZE :: NewSlotFine(h, c, s)
    ensures |mapNew| == 0 <==> NewFine(h, c)
  {
    hide Met, NewSlotFine;
    forall id
      ensures id in mapNew <==>
        id in NewIds(c.mapInfo) && !(id != -1 && multiset(c.vvNew)[id] == c.mapInfo[id].nRefCount) {
      assert LeftOf(c, NEW_SIZE, mapNew, id);
      MetAll(c.vvNew, NEW_SIZE, id);
      assert id in c.mapInfo ==> EntryFine(c, id);
      MinusOneNotMet(c.vvNew);
    }
    assert |mapNew| == 0 <==> forall id :: id !in mapNew;
  }

  lemma MinusOneNotMet(v: seq<int>)
    ensures Met(v, |v|, -1) == 0
  {
  }

  // ---------------------------------------------------------------------------------------------
  // Counting
  // ---------------------------------------------------------------------------------------------

  lemma SubsetSize(a: set<nat>, b: set<nat>)
    requires a <= b
    ensures |a| <= |b|
  {
    assert b == a + (b - a);
  }

  lemma {:induction false} ElementsBound(s: seq<int>, ids: set<int>)
    requires forall id | id in ids :: id in s
    ensures |ids| <= |s|
  {
    if s == [] {
      assert forall id :: id in ids <==> id in {};
    } else {
      ElementsBound(s[1..], ids - {s[0]});
    }
  }

  /** The tables bound the number of addresses; all are in vRandom, once. */
  lemma Capacity(h: Hashes, c: Core)
    requires Inv(h, c, {}, {})
    ensures c.nNew <= NEW_SIZE && c.nTried <= TRIED_SIZE && |c.vRandom| == c.nNew + c.nTried == |c.mapInfo|
  {
    var news, trieds := NewIds(c.mapInfo), TriedIds(c.mapInfo);
    assert news - {} == news && trieds - {} == trieds;
    forall id | id in news ensures id in c.vvNew {
      assert id in multiset(c.vvNew);
    }
    ElementsBound(c.vvNew, news);
    ElementsBound(c.vvTried, trieds);
    assert c.mapInfo.Keys == news + trieds;
    RandomCount(c);
  }

  lemma RandomCount(c: Core)
    requires Indexed(c)
    ensures |c.vRandom| == |c.mapInfo|
  {
    forall i, j | 0 <= i < j < |c.vRandom| ensures c.vRandom[i] != c.vRandom[j] {
      assert c.mapInfo[c.vRandom[i]].nRandomPos == i && c.mapInfo[c.vRandom[j]].nRandomPos == j;
    }
    DistinctIds(c.vRandom);
    var ids := set id | id in c.vRandom;
    forall id ensures id in ids <==> id in c.mapInfo.Keys {
      if id in c.mapInfo {
        assert c.vRandom[c.mapInfo[id].nRandomPos] == id;
      }
    }
    assert ids == c.mapInfo.Keys;
  }

  lemma {:induction false} DistinctIds(s: seq<int>)
    requires forall i, j | 0 <= i < j < |s| :: s[i] != s[j]
    ensures |set id | id in s| == |s|
  {
    if s != [] {
      DistinctIds(s[1..]);
      assert (set id | id in s) == (set id | id in s[1..]) + {s[0]};
    }
  }
}

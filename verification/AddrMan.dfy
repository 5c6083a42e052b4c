/** The address manager (src/addrman.cpp, src/addrman_impl.h): several redundant indexes over the known addresses,
    updated in place. */
module AddrMans {
  const TRIED_BUCKET_COUNT := 256
  const NEW_BUCKET_COUNT := 1024
  const BUCKET_SIZE := 64
  const TRIED_SIZE := TRIED_BUCKET_COUNT * BUCKET_SIZE
  const NEW_SIZE := NEW_BUCKET_COUNT * BUCKET_SIZE
  const NEW_BUCKETS_PER_ADDRESS := 8
  const SET_TRIED_COLLISION_SIZE := 10
  const MINUTE := 60
  const HOUR := 3600
  const HORIZON := 30 * 24 * HOUR
  const RETRIES := 3
  const MAX_FAILURES := 10
  const MIN_FAIL := 7 * 24 * HOUR
  const REPLACEMENT := 4 * HOUR
  const TEST_WINDOW := 40 * MINUTE

  /** An address with its port, and what the code asks of it. */
  datatype Addr = Addr(host: nat, port: nat, network: nat, netClass: nat, routable: bool, valid: bool)

  /** The keyed hashes that choose buckets and positions; nothing is known of them. */
  datatype Hashes = Hashes(tried: Addr -> nat, new_: (Addr, Addr) -> nat, position: (Addr, bool, nat) -> nat)

  /** AddrInfo; times are seconds since the epoch. */
  datatype Info = Info(addr: Addr, source: Addr, nTime: int, services: set<nat>, lastTry: int, lastCountAttempt: int,
                       lastSuccess: int, nAttempts: int, nRefCount: int, fInTried: bool, nRandomPos: int)

  datatype Counts = Counts(nNew: int, nTried: int)

  function TriedBucket(h: Hashes, a: Addr): nat { h.tried(a) % TRIED_BUCKET_COUNT }

  function NewBucket(h: Hashes, a: Addr, source: Addr): (b: nat)
    ensures b < NEW_BUCKET_COUNT
  {
    h.new_(a, source) % NEW_BUCKET_COUNT
  }

  function Position(h: Hashes, a: Addr, fNew: bool, bucket: nat): nat { h.position(a, fNew, bucket) % BUCKET_SIZE }

  /** The only slot of the tried table for an address. */
  function TriedSlot(h: Hashes, a: Addr): (s: nat)
    ensures s < TRIED_SIZE
  {
    TriedBucket(h, a) * BUCKET_SIZE + Position(h, a, false, TriedBucket(h, a))
  }

  /** The only slot of a bucket of the new table for an address. */
  function NewSlot(h: Hashes, a: Addr, bucket: nat): (s: nat)
    requires bucket < NEW_BUCKET_COUNT
    ensures s < NEW_SIZE && s / BUCKET_SIZE == bucket
  {
    bucket * BUCKET_SIZE + Position(h, a, true, bucket)
  }

  predicate IsTerrible(info: Info, now: int) {
    if now - info.lastTry <= MINUTE then false
    else
      || info.nTime > now + 10 * MINUTE
      || now - info.nTime > HORIZON
      || (info.lastSuccess == 0 && info.nAttempts >= RETRIES)
      || (now - info.lastSuccess > MIN_FAIL && info.nAttempts >= MAX_FAILURES)
  }

  /** The fields of AddrManImpl that have to agree. */
  datatype Core = Core(mapInfo: map<int, Info>, mapAddr: map<Addr, int>, vRandom: seq<int>, nIdCount: int,
                       vvNew: seq<int>, vvTried: seq<int>, nNew: int, nTried: int, counts: map<nat, Counts>,
                       collisions: set<int>, timed: bool)

  // ---------------------------------------------------------------------------------------------
  // The invariant, index by index
  // ---------------------------------------------------------------------------------------------

  /** mapInfo, mapAddr and vRandom are mutually inverse; ids are below nIdCount. */
  ghost predicate Indexed(c: Core) {
    && c.nIdCount >= 0
    && (forall id | id in c.mapInfo ::
          && 0 <= id < c.nIdCount && c.mapInfo[id].addr in c.mapAddr && c.mapAddr[c.mapInfo[id].addr] == id
          && 0 <= c.mapInfo[id].nRandomPos < |c.vRandom| && c.vRandom[c.mapInfo[id].nRandomPos] == id)
    && (forall a | a in c.mapAddr :: c.mapAddr[a] in c.mapInfo && c.mapInfo[c.mapAddr[a]].addr == a)
    && (forall i | 0 <= i < |c.vRandom| :: c.vRandom[i] in c.mapInfo && c.mapInfo[c.vRandom[i]].nRandomPos == i)
  }

  /** nRefCount counts the occurrences in the new table, each in the address's own place of the bucket. */
  ghost predicate InNew(h: Hashes, c: Core) {
    && |c.vvNew| == NEW_SIZE
    && (forall s | 0 <= s < NEW_SIZE && c.vvNew[s] != -1 ::
          c.vvNew[s] in c.mapInfo && !c.mapInfo[c.vvNew[s]].fInTried
            && s == NewSlot(h, c.mapInfo[c.vvNew[s]].addr, s / BUCKET_SIZE))
    && (forall id | id in c.mapInfo :: c.mapInfo[id].nRefCount == multiset(c.vvNew)[id] <= NEW_BUCKETS_PER_ADDRESS)
  }

  /** The tried entries are those in the tried table, each in its own slot. */
  ghost predicate InTried(h: Hashes, c: Core) {
    && |c.vvTried| == TRIED_SIZE
    && (forall s | 0 <= s < TRIED_SIZE && c.vvTried[s] != -1 ::
          c.vvTried[s] in c.mapInfo && c.mapInfo[c.vvTried[s]].fInTried
            && s == TriedSlot(h, c.mapInfo[c.vvTried[s]].addr))
    && (forall id | id in c.mapInfo && c.mapInfo[id].fInTried ::
          c.mapInfo[id].nRefCount == 0 && c.vvTried[TriedSlot(h, c.mapInfo[id].addr)] == id)
  }

  /** Every entry, except those in limbo, is in one of the tables. */
  ghost predicate Placed(c: Core, limbo: set<int>) {
    forall id | id in c.mapInfo && id !in limbo :: c.mapInfo[id].fInTried || c.mapInfo[id].nRefCount > 0
  }

  ghost function NewIds(mapInfo: map<int, Info>): set<int> {
    set id | id in mapInfo && !mapInfo[id].fInTried
  }

  ghost function TriedIds(mapInfo: map<int, Info>): set<int> {
    set id | id in mapInfo && mapInfo[id].fInTried
  }

  ghost function OfNetwork(mapInfo: map<int, Info>, ids: set<int>, network: nat): set<int> {
    set id | id in ids && id in mapInfo && mapInfo[id].addr.network == network
  }

  function CountsOf(counts: map<nat, Counts>, network: nat): Counts {
    if network in counts then counts[network] else Counts(0, 0)
  }

  /** A change of the counters of a network. */
  function Bump(counts: map<nat, Counts>, network: nat, dNew: int, dTried: int): map<nat, Counts> {
    counts[network := Counts(CountsOf(counts, network).nNew + dNew, CountsOf(counts, network).nTried + dTried)]
  }

  /** The counters count these ids, in all and by network. */
  ghost predicate Tally(c: Core, news: set<int>, trieds: set<int>) {
    && c.nNew == |news| && c.nTried == |trieds|
    && forall network ::
      CountsOf(c.counts, network) == Counts(|OfNetwork(c.mapInfo, news, network)|,
        |OfNetwork(c.mapInfo, trieds, network)|)
  }

  /** The counters are right, but for entries that are not counted for the moment. */
  ghost predicate Counted(c: Core, uncounted: set<int>) {
    && Tally(c, NewIds(c.mapInfo) - uncounted, TriedIds(c.mapInfo) - uncounted)
    && forall id | id in c.mapInfo :: c.mapInfo[id].addr.network in c.counts
  }

  predicate InTime(info: Info) {
    info.lastTry >= 0 && info.lastSuccess >= 0 && (info.fInTried ==> info.lastSuccess > 0)
  }

  ghost predicate Timed(mapInfo: map<int, Info>) {
    forall id | id in mapInfo :: InTime(mapInfo[id])
  }

  /** The timestamps are as they should be as long as no operation brought in one that is not (timed). */
  ghost predicate Clocked(c: Core) { c.timed ==> Timed(c.mapInfo) }

  /** A pending collision whose id still exists is with an occupied slot. */
  ghost predicate Colliding(h: Hashes, c: Core) {
    && |c.vvTried| == TRIED_SIZE && |c.collisions| <= SET_TRIED_COLLISION_SIZE
    && (forall id | id in c.collisions :: 0 <= id < c.nIdCount)
    && (forall id | id in c.collisions && id in c.mapInfo :: c.vvTried[TriedSlot(h, c.mapInfo[id].addr)] != -1)
  }

  ghost predicate Inv(h: Hashes, c: Core, limbo: set<int>, uncounted: set<int>) {
    Indexed(c) && InNew(h, c) && InTried(h, c) && Placed(c, limbo) && Counted(c, uncounted) && Clocked(c)
  }

  /** Ids are not reused, nor their address changed. */
  ghost predicate Kept(c: Core, d: Core) {
    && c.nIdCount <= d.nIdCount
    && forall id | id in d.mapInfo && id < c.nIdCount :: id in c.mapInfo && d.mapInfo[id].addr == c.mapInfo[id].addr
  }

  /** What no operation undoes: ids are kept, and a filled tried slot stays filled. */
  ghost predicate Onward(c: Core, d: Core) {
    Kept(c, d) && |c.vvTried| == |d.vvTried| && forall s | 0 <= s < |c.vvTried| && c.vvTried[s] != -1 ::
      d.vvTried[s] != -1
  }

  lemma KeptTransitive(c: Core, d: Core, e: Core)
    requires Kept(c, d) && Kept(d, e)
    ensures Kept(c, e)
  {
  }

  lemma OnwardTransitive(c: Core, d: Core, e: Core)
    requires Onward(c, d) && Onward(d, e)
    ensures Onward(c, e)
  {
  }

  /** Hence pending collisions stay collisions. */
  lemma OnwardColliding(h: Hashes, c: Core, d: Core)
    requires Colliding(h, c) && Onward(c, d) && d.collisions <= c.collisions && |d.collisions| <= |c.collisions|
    ensures Colliding(h, d)
  {
  }

  // ---------------------------------------------------------------------------------------------
  // Counting
  // ---------------------------------------------------------------------------------------------

  lemma NetworkMore(m: map<int, Info>, ids: set<int>, id: int, network: nat)
    requires id in m && id !in ids
    ensures |OfNetwork(m, ids + {id}, network)| == |OfNetwork(m, ids, network)| + if m[id].addr.network == network
      then 1 else 0
  {
    var here := OfNetwork(m, ids, network);
    if m[id].addr.network == network {
      assert OfNetwork(m, ids + {id}, network) == here + {id};
    } else {
      assert OfNetwork(m, ids + {id}, network) == here;
    }
  }

  lemma OneMoreNew(c: Core, news: set<int>, trieds: set<int>, id: int)
    requires Tally(c, news, trieds) && id in c.mapInfo && id !in news
    ensures Tally(c.(nNew := c.nNew + 1, counts := Bump(c.counts, c.mapInfo[id].addr.network, 1, 0)), news + {id},
      trieds)
  {
    var counts := Bump(c.counts, c.mapInfo[id].addr.network, 1, 0);
    forall network: nat
      ensures CountsOf(counts, network) == Counts(|OfNetwork(c.mapInfo, news + {id}, network)|,
        |OfNetwork(c.mapInfo, trieds, network)|) {
      NetworkMore(c.mapInfo, news, id, network);
      assert CountsOf(c.counts, network) == Counts(|OfNetwork(c.mapInfo, news, network)|,
        |OfNetwork(c.mapInfo, trieds, network)|);
    }
  }

  lemma OneLessNew(c: Core, news: set<int>, trieds: set<int>, id: int)
    requires Tally(c, news, trieds) && id in c.mapInfo && id in news
    ensures Tally(c.(nNew := c.nNew - 1, counts := Bump(c.counts, c.mapInfo[id].addr.network, -1, 0)), news - {id},
      trieds)
  {
    var counts := Bump(c.counts, c.mapInfo[id].addr.network, -1, 0);
    assert news - {id} + {id} == news;
    forall network: nat
      ensures CountsOf(counts, network) == Counts(|OfNetwork(c.mapInfo, news - {id}, network)|,
        |OfNetwork(c.mapInfo, trieds, network)|) {
      NetworkMore(c.mapInfo, news - {id}, id, network);
      assert CountsOf(c.counts, network) == Counts(|OfNetwork(c.mapInfo, news, network)|,
        |OfNetwork(c.mapInfo, trieds, network)|);
    }
  }

  lemma OneMoreTried(c: Core, news: set<int>, trieds: set<int>, id: int)
    requires Tally(c, news, trieds) && id in c.mapInfo && id !in trieds
    ensures Tally(c.(nTried := c.nTried + 1, counts := Bump(c.counts, c.mapInfo[id].addr.network, 0, 1)), news,
      trieds + {id})
  {
    var counts := Bump(c.counts, c.mapInfo[id].addr.network, 0, 1);
    forall network: nat
      ensures CountsOf(counts, network) == Counts(|OfNetwork(c.mapInfo, news, network)|,
        |OfNetwork(c.mapInfo, trieds + {id}, network)|) {
      NetworkMore(c.mapInfo, trieds, id, network);
      assert CountsOf(c.counts, network) == Counts(|OfNetwork(c.mapInfo, news, network)|,
        |OfNetwork(c.mapInfo, trieds, network)|);
    }
  }

  lemma OneLessTried(c: Core, news: set<int>, trieds: set<int>, id: int)
    requires Tally(c, news, trieds) && id in c.mapInfo && id in trieds
    ensures Tally(c.(nTried := c.nTried - 1, counts := Bump(c.counts, c.mapInfo[id].addr.network, 0, -1)), news,
      trieds - {id})
  {
    var counts := Bump(c.counts, c.mapInfo[id].addr.network, 0, -1);
    assert trieds - {id} + {id} == trieds;
    forall network: nat
      ensures CountsOf(counts, network) == Counts(|OfNetwork(c.mapInfo, news, network)|,
        |OfNetwork(c.mapInfo, trieds - {id}, network)|) {
      NetworkMore(c.mapInfo, trieds - {id}, id, network);
      assert CountsOf(c.counts, network) == Counts(|OfNetwork(c.mapInfo, news, network)|,
        |OfNetwork(c.mapInfo, trieds, network)|);
    }
  }

  /** Only the addresses of the counted entries matter. */
  lemma TallySame(c: Core, d: Core, news: set<int>, trieds: set<int>)
    requires Tally(c, news, trieds) && d.nNew == c.nNew && d.nTried == c.nTried && d.counts == c.counts
    requires forall id | id in news + trieds ::
      id in c.mapInfo && id in d.mapInfo && d.mapInfo[id].addr == c.mapInfo[id].addr
    ensures Tally(d, news, trieds)
  {
    forall network: nat ensures OfNetwork(d.mapInfo, news, network) == OfNetwork(c.mapInfo, news, network) {
      SameNetwork(c.mapInfo, d.mapInfo, news, network);
    }
    forall network: nat ensures OfNetwork(d.mapInfo, trieds, network) == OfNetwork(c.mapInfo, trieds, network) {
      SameNetwork(c.mapInfo, d.mapInfo, trieds, network);
    }
  }

  lemma SameNetwork(m: map<int, Info>, m': map<int, Info>, ids: set<int>, network: nat)
    requires forall id | id in ids :: id in m && id in m' && m'[id].addr == m[id].addr
    ensures OfNetwork(m', ids, network) == OfNetwork(m, ids, network)
  {
    forall id ensures id in OfNetwork(m', ids, network) <==> id in OfNetwork(m, ids, network) {
      assert id in ids ==> m'[id].addr == m[id].addr;
    }
  }

  // ---------------------------------------------------------------------------------------------
  // What each change keeps
  // ---------------------------------------------------------------------------------------------

  /** Only details of the entries changed: not which there are, their addresses or their places. */
  ghost predicate Alike(c: Core, d: Core) {
    && d == c.(mapInfo := d.mapInfo, vRandom := d.vRandom) && d.mapInfo.Keys == c.mapInfo.Keys
    && forall id | id in c.mapInfo ::
      d.mapInfo[id].addr == c.mapInfo[id].addr && d.mapInfo[id].nRefCount == c.mapInfo[id].nRefCount
                                      && d.mapInfo[id].fInTried == c.mapInfo[id].fInTried
  }

  lemma AlikeTables(h: Hashes, c: Core, d: Core, limbo: set<int>)
    requires Alike(c, d) && InNew(h, c) && InTried(h, c) && Placed(c, limbo)
    ensures InNew(h, d) && InTried(h, d) && Placed(d, limbo) && Kept(c, d)
  {
  }

  lemma AlikeFacts(c: Core, d: Core)
    requires Alike(c, d)
    ensures d.nNew == c.nNew && d.nTried == c.nTried && d.counts == c.counts && d.mapInfo.Keys == c.mapInfo.Keys
    ensures forall id | id in c.mapInfo ::
      d.mapInfo[id].addr == c.mapInfo[id].addr && d.mapInfo[id].fInTried == c.mapInfo[id].fInTried
  {
  }

  lemma CountedSame(c: Core, d: Core, uncounted: set<int>)
    requires Counted(c, uncounted) && d.nNew == c.nNew && d.nTried == c.nTried && d.counts == c.counts
      && d.mapInfo.Keys == c.mapInfo.Keys
    requires forall id | id in c.mapInfo ::
      d.mapInfo[id].addr == c.mapInfo[id].addr && d.mapInfo[id].fInTried == c.mapInfo[id].fInTried
    ensures Counted(d, uncounted)
  {
    SameIds(c.mapInfo, d.mapInfo);
    IdsKnown(c.mapInfo);
    hide NewIds, TriedIds, Tally;
    TallySame(c, d, NewIds(c.mapInfo) - uncounted, TriedIds(c.mapInfo) - uncounted);
    forall id | id in d.mapInfo ensures d.mapInfo[id].addr.network in d.counts {
      assert id in c.mapInfo.Keys;
    }
  }

  lemma SameIds(m: map<int, Info>, m': map<int, Info>)
    requires m'.Keys == m.Keys && forall id | id in m :: m'[id].fInTried == m[id].fInTried
    ensures NewIds(m') == NewIds(m) && TriedIds(m') == TriedIds(m)
  {
    forall id ensures (id in NewIds(m') <==> id in NewIds(m)) && (id in TriedIds(m') <==> id in TriedIds(m)) {
      assert id in m' <==> id in m'.Keys;
      assert id in m ==> m'[id].fInTried == m[id].fInTried;
    }
  }

  lemma AlikeKeeps(h: Hashes, c: Core, d: Core, limbo: set<int>, uncounted: set<int>)
    requires Inv(h, c, limbo, uncounted) && Alike(c, d) && Indexed(d) && Clocked(d)
    ensures Inv(h, d, limbo, uncounted) && Kept(c, d)
  {
    hide InNew, InTried, Placed, Counted, Indexed, Clocked, Alike, Kept;
    AlikeTables(h, c, d, limbo);
    AlikeFacts(c, d);
    CountedSame(c, d, uncounted);
  }

  /** A change of the statistics of one entry. */
  lemma DetailKeeps(h: Hashes, c: Core, id: int, info: Info)
    requires Inv(h, c, {}, {}) && id in c.mapInfo
    requires info == c.mapInfo[id].(nTime := info.nTime, services := info.services, lastTry := info.lastTry,
      lastCountAttempt := info.lastCountAttempt, lastSuccess := info.lastSuccess, nAttempts := info.nAttempts)
    requires c.timed ==> InTime(info)
    ensures Inv(h, c.(mapInfo := c.mapInfo[id := info]), {}, {}) && Kept(c, c.(mapInfo := c.mapInfo[id := info]))
  {
    hide InNew, InTried, Placed, Counted, Kept;
    AlikeKeeps(h, c, c.(mapInfo := c.mapInfo[id := info]), {}, {});
  }

  function Swapped(c: Core, p1: nat, p2: nat): Core
    requires p1 < |c.vRandom| && p2 < |c.vRandom| && c.vRandom[p1] in c.mapInfo && c.vRandom[p2] in c.mapInfo
  {
    var id1, id2 := c.vRandom[p1], c.vRandom[p2];
    var m := c.mapInfo[id1 := c.mapInfo[id1].(nRandomPos := p2)];
    c.(mapInfo := m[id2 := m[id2].(nRandomPos := p1)], vRandom := c.vRandom[p1 := id2][p2 := id1])
  }

  lemma SwapKeeps(h: Hashes, c: Core, p1: nat, p2: nat, limbo: set<int>, uncounted: set<int>)
    requires Inv(h, c, limbo, uncounted) && p1 < |c.vRandom| && p2 < |c.vRandom| && p1 != p2
    ensures c.vRandom[p1] in c.mapInfo && c.vRandom[p2] in c.mapInfo
    ensures Inv(h, Swapped(c, p1, p2), limbo, uncounted) && Kept(c, Swapped(c, p1, p2)) && Alike(c, Swapped(c, p1, p2))
  {
    assert c.vRandom[p1] in c.mapInfo && c.vRandom[p2] in c.mapInfo;
    SwapIndexed(c, p1, p2);
    SwapAlike(c, p1, p2);
    hide InNew, InTried, Placed, Counted, Kept, Indexed, Clocked, Alike, Swapped;
    AlikeKeeps(h, c, Swapped(c, p1, p2), limbo, uncounted);
  }

  lemma SwapAlike(c: Core, p1: nat, p2: nat)
    requires Indexed(c) && Clocked(c) && p1 < |c.vRandom| && p2 < |c.vRandom| && p1 != p2
    ensures c.vRandom[p1] in c.mapInfo && c.vRandom[p2] in c.mapInfo
    ensures var d := Swapped(c, p1, p2); Clocked(d) && Alike(c, d)
  {
    assert c.vRandom[p1] in c.mapInfo && c.vRandom[p2] in c.mapInfo;
    hide Indexed;
  }

  lemma SwapIndexed(c: Core, p1: nat, p2: nat)
    requires Indexed(c) && p1 < |c.vRandom| && p2 < |c.vRandom| && p1 != p2
    ensures c.vRandom[p1] in c.mapInfo && c.vRandom[p2] in c.mapInfo
    ensures Indexed(Swapped(c, p1, p2))
  {
    var id1, id2 := c.vRandom[p1], c.vRandom[p2];
    assert c.mapInfo[id1].nRandomPos == p1 && c.mapInfo[id2].nRandomPos == p2;
  }

  function Created(c: Core, info: Info): Core {
    c.(nIdCount := c.nIdCount + 1, mapInfo := c.mapInfo[c.nIdCount := info],
      mapAddr := c.mapAddr[info.addr := c.nIdCount],
       vRandom := c.vRandom + [c.nIdCount], nNew := c.nNew + 1, counts := Bump(c.counts, info.addr.network, 1, 0))
  }

  lemma CreateTables(h: Hashes, c: Core, info: Info)
    requires Inv(h, c, {}, {}) && info.nRefCount == 0 && !info.fInTried
    ensures var d := Created(c, info); InNew(h, d) && InTried(h, d) && Placed(d, {c.nIdCount}) && Kept(c, d)
  {
    hide Counted, Clocked, TriedSlot;
    assert c.nIdCount !in c.mapInfo;
    CreateInNew(h, c, info);
  }

  lemma CreateInNew(h: Hashes, c: Core, info: Info)
    requires InNew(h, c) && c.nIdCount !in c.mapInfo && c.nIdCount != -1 && info.nRefCount == 0 && !info.fInTried
    ensures InNew(h, Created(c, info))
  {
    hide NewSlot;
    assert c.nIdCount !in multiset(c.vvNew) by {
      assert forall s | 0 <= s < NEW_SIZE :: c.vvNew[s] != c.nIdCount;
    }
  }

  lemma NewEntryIds(m: map<int, Info>, id: int, info: Info)
    requires id !in m && !info.fInTried
    ensures NewIds(m[id := info]) == NewIds(m) + {id} && TriedIds(m[id := info]) == TriedIds(m) && id !in NewIds(m)
  {
  }

  lemma CreateCounted(c: Core, info: Info)
    requires c.nIdCount !in c.mapInfo && Counted(c, {}) && !info.fInTried
    ensures Counted(Created(c, info), {})
  {
    hide Tally, NewIds, TriedIds, Bump;
    var id, d := c.nIdCount, Created(c, info);
    var news, trieds := NewIds(c.mapInfo), TriedIds(c.mapInfo);
    NewEntryIds(c.mapInfo, id, info);
    NoneLess(news);
    NoneLess(trieds);
    NoneLess(news + {id});
    IdsKnown(c.mapInfo);
    var mid := c.(mapInfo := d.mapInfo);
    TallySame(c, mid, news, trieds);
    OneMoreNew(mid, news, trieds, id);
    TallyFields(mid.(nNew := d.nNew, counts := d.counts), d, news + {id}, trieds);
    BumpKeys(c.counts, info.addr.network, 1, 0);
  }

  lemma NoneLess(ids: set<int>)
    ensures ids - {} == ids
  {
  }

  lemma BumpKeys(counts: map<nat, Counts>, network: nat, dNew: int, dTried: int)
    ensures Bump(counts, network, dNew, dTried).Keys == counts.Keys + {network}
  {
  }

  lemma TallyFields(c: Core, d: Core, news: set<int>, trieds: set<int>)
    requires Tally(c, news, trieds) && d.nNew == c.nNew && d.nTried == c.nTried && d.counts == c.counts
      && d.mapInfo == c.mapInfo
    ensures Tally(d, news, trieds)
  {
  }

  lemma IdsKnown(m: map<int, Info>)
    ensures forall id | id in NewIds(m) + TriedIds(m) :: id in m
  {
  }

  lemma CreatedEntry(c: Core, info: Info, id: int)
    requires Indexed(c) && info.addr !in c.mapAddr && info.nRandomPos == |c.vRandom| && id in Created(c, info).mapInfo
    ensures var d := Created(c, info);
      && 0 <= id < d.nIdCount && d.mapInfo[id].addr in d.mapAddr && d.mapAddr[d.mapInfo[id].addr] == id
      && 0 <= d.mapInfo[id].nRandomPos < |d.vRandom| && d.vRandom[d.mapInfo[id].nRandomPos] == id
  {
    if id != c.nIdCount {
      assert id in c.mapInfo;
    }
  }

  lemma CreatedAddr(c: Core, info: Info, a: Addr)
    requires Indexed(c) && c.nIdCount !in c.mapInfo && info.addr !in c.mapAddr && a in Created(c, info).mapAddr
    ensures var d := Created(c, info); d.mapAddr[a] in d.mapInfo && d.mapInfo[d.mapAddr[a]].addr == a
  {
    if a != info.addr {
      assert a in c.mapAddr && c.mapAddr[a] in c.mapInfo;
    }
  }

  lemma CreateIndexed(c: Core, info: Info)
    requires Indexed(c) && info.addr !in c.mapAddr && info.nRandomPos == |c.vRandom|
    ensures c.nIdCount !in c.mapInfo && Indexed(Created(c, info))
  {
    var d := Created(c, info);
    assert c.nIdCount !in c.mapInfo;
    forall i | 0 <= i < |d.vRandom| ensures d.vRandom[i] in d.mapInfo && d.mapInfo[d.vRandom[i]].nRandomPos == i {
      assert i < |c.vRandom| ==> c.vRandom[i] in c.mapInfo;
    }
    forall a | a in d.mapAddr ensures d.mapAddr[a] in d.mapInfo && d.mapInfo[d.mapAddr[a]].addr == a {
      CreatedAddr(c, info, a);
    }
    forall id | id in d.mapInfo
      ensures && 0 <= id < d.nIdCount && d.mapInfo[id].addr in d.mapAddr && d.mapAddr[d.mapInfo[id].addr] == id
              && 0 <= d.mapInfo[id].nRandomPos < |d.vRandom| && d.vRandom[d.mapInfo[id].nRandomPos] == id
    {
      CreatedEntry(c, info, id);
    }
  }

  /** A new entry is in limbo until it is put into the new table. */
  lemma CreateKeeps(h: Hashes, c: Core, info: Info)
    requires Inv(h, c, {}, {}) && info.addr !in c.mapAddr && info.nRandomPos == |c.vRandom|
    requires info.nRefCount == 0 && !info.fInTried && info.lastTry >= 0 && info.lastSuccess >= 0
    ensures Inv(h, Created(c, info), {c.nIdCount}, {}) && Kept(c, Created(c, info))
  {
    hide InNew, InTried, Placed, Counted, Kept, Indexed;
    CreateTables(h, c, info);
    CreateIndexed(c, info);
    CreateCounted(c, info);
  }

  function Deleted(c: Core, id: int): Core
    requires id in c.mapInfo && c.vRandom != []
  {
    c.(mapInfo := c.mapInfo - {id}, mapAddr := c.mapAddr - {c.mapInfo[id].addr}, vRandom := c.vRandom[..|c.vRandom|-1],
       nNew := c.nNew - 1, counts := Bump(c.counts, c.mapInfo[id].addr.network, -1, 0))
  }

  lemma DeleteTables(h: Hashes, c: Core, id: int, limbo: set<int>)
    requires InNew(h, c) && InTried(h, c) && Placed(c, limbo) && id in c.mapInfo && c.vRandom != []
    requires !c.mapInfo[id].fInTried && c.mapInfo[id].nRefCount == 0
    ensures var d := Deleted(c, id); InNew(h, d) && InTried(h, d) && Placed(d, limbo - {id}) && Kept(c, d)
  {
    assert id !in multiset(c.vvNew);
    forall s | 0 <= s < NEW_SIZE ensures c.vvNew[s] != id {
      assert c.vvNew[s] in multiset(c.vvNew);
    }
  }

  lemma DeletedIds(m: map<int, Info>, id: int, uncounted: set<int>)
    requires id in m && !m[id].fInTried && id !in uncounted
    ensures NewIds(m - {id}) - uncounted == NewIds(m) - uncounted - {id}
      && TriedIds(m - {id}) - uncounted == TriedIds(m) - uncounted
    ensures id in NewIds(m) - uncounted
  {
  }

  lemma DeleteCounted(c: Core, id: int, uncounted: set<int>)
    requires Counted(c, uncounted) && id in c.mapInfo && c.vRandom != [] && !c.mapInfo[id].fInTried && id !in uncounted
    ensures Counted(Deleted(c, id), uncounted)
  {
    hide Tally, NewIds, TriedIds, Bump;
    var d := Deleted(c, id);
    var news, trieds := NewIds(c.mapInfo) - uncounted, TriedIds(c.mapInfo) - uncounted;
    DeletedIds(c.mapInfo, id, uncounted);
    IdsKnown(c.mapInfo);
    IdsKnown(d.mapInfo);
    OneLessNew(c, news, trieds, id);
    TallySame(c.(nNew := d.nNew, counts := d.counts), d, news - {id}, trieds);
    BumpKeys(c.counts, c.mapInfo[id].addr.network, -1, 0);
  }

  /** The entry to delete is the last of vRandom by now. */
  lemma DeleteKeeps(h: Hashes, c: Core, id: int, limbo: set<int>, uncounted: set<int>)
    requires Inv(h, c, limbo, uncounted) && id in c.mapInfo && !c.mapInfo[id].fInTried && c.mapInfo[id].nRefCount == 0
      && id !in uncounted
    requires c.vRandom != [] && c.vRandom[|c.vRandom|-1] == id
    ensures Inv(h, Deleted(c, id), limbo - {id}, uncounted) && Kept(c, Deleted(c, id))
  {
    hide InNew, InTried, Placed, Counted, Kept, Indexed;
    DeleteTables(h, c, id, limbo);
    DeleteCounted(c, id, uncounted);
    DeleteIndexed(c, id);
  }

  lemma DeleteIndexed(c: Core, id: int)
    requires Indexed(c) && id in c.mapInfo && c.vRandom != [] && c.vRandom[|c.vRandom|-1] == id
    ensures Indexed(Deleted(c, id))
  {
    var d := Deleted(c, id);
    forall x | x in d.mapInfo
      ensures d.mapInfo[x].addr in d.mapAddr && d.mapAddr[d.mapInfo[x].addr] == x
          && 0 <= d.mapInfo[x].nRandomPos < |d.vRandom| && d.vRandom[d.mapInfo[x].nRandomPos] == x {
      assert x in c.mapInfo && x != id;
    }
    forall a | a in d.mapAddr ensures d.mapAddr[a] in d.mapInfo && d.mapInfo[d.mapAddr[a]].addr == a {
      assert a in c.mapAddr;
    }
    forall i | 0 <= i < |d.vRandom| ensures d.vRandom[i] in d.mapInfo && d.mapInfo[d.vRandom[i]].nRandomPos == i {
      assert d.vRandom[i] == c.vRandom[i];
    }
  }

  /** One occurrence less in the new table; an entry left without any is in limbo. */
  function SlotCleared(c: Core, s: nat): Core
    requires s < |c.vvNew| && c.vvNew[s] in c.mapInfo
  {
    var id := c.vvNew[s];
    c.(vvNew := c.vvNew[s := -1], mapInfo := c.mapInfo[id := c.mapInfo[id].(nRefCount := c.mapInfo[id].nRefCount - 1)])
  }

  function SlotFilled(c: Core, s: nat, id: int): Core
    requires s < |c.vvNew| && id in c.mapInfo
  {
    c.(vvNew := c.vvNew[s := id], mapInfo := c.mapInfo[id := c.mapInfo[id].(nRefCount := c.mapInfo[id].nRefCount + 1)])
  }

  /** Changing one slot and the reference counts by it. */
  lemma SlotCount(v: seq<int>, s: nat, x: int)
    requires s < |v|
    ensures forall id ::
      multiset(v[s := x])[id] == multiset(v)[id] - (if id == v[s] then 1 else 0) + (if id == x then 1 else 0)
  {
  }

  lemma ClearTables(h: Hashes, c: Core, s: nat, limbo: set<int>)
    requires InNew(h, c) && InTried(h, c) && Placed(c, limbo) && Indexed(c) && s < NEW_SIZE && c.vvNew[s] != -1
    ensures c.vvNew[s] in c.mapInfo && c.mapInfo[c.vvNew[s]].nRefCount > 0
    ensures var d := SlotCleared(c, s); InNew(h, d) && InTried(h, d) && Placed(d, limbo + {c.vvNew[s]}) && Kept(c, d)
  {
    SlotOwner(h, c, s);
    ClearInNew(h, c, s);
    hide InNew, NewSlot, TriedSlot;
  }

  lemma ClearInNew(h: Hashes, c: Core, s: nat)
    requires InNew(h, c) && s < NEW_SIZE && c.vvNew[s] != -1 && c.vvNew[s] in c.mapInfo
    requires c.mapInfo[c.vvNew[s]].nRefCount > 0 && -1 !in c.mapInfo
    ensures InNew(h, SlotCleared(c, s))
  {
    hide NewSlot;
    SlotCount(c.vvNew, s, -1);
  }

  lemma FillTables(h: Hashes, c: Core, s: nat, id: int, limbo: set<int>)
    requires InNew(h, c) && InTried(h, c) && Placed(c, limbo) && Indexed(c) && s < NEW_SIZE && c.vvNew[s] == -1
    requires id in c.mapInfo && !c.mapInfo[id].fInTried && c.mapInfo[id].nRefCount < NEW_BUCKETS_PER_ADDRESS
    requires s == NewSlot(h, c.mapInfo[id].addr, s / BUCKET_SIZE)
    ensures var d := SlotFilled(c, s, id); InNew(h, d) && InTried(h, d) && Placed(d, limbo - {id}) && Kept(c, d)
  {
    FillInNew(h, c, s, id);
    hide InNew, NewSlot, TriedSlot;
  }

  lemma FillInNew(h: Hashes, c: Core, s: nat, id: int)
    requires InNew(h, c) && s < NEW_SIZE && c.vvNew[s] == -1 && -1 !in c.mapInfo
    requires id in c.mapInfo && !c.mapInfo[id].fInTried && c.mapInfo[id].nRefCount < NEW_BUCKETS_PER_ADDRESS
    requires s == NewSlot(h, c.mapInfo[id].addr, s / BUCKET_SIZE)
    ensures InNew(h, SlotFilled(c, s, id))
  {
    hide NewSlot;
    SlotCount(c.vvNew, s, id);
  }

  lemma SlotIndexed(c: Core, v: seq<int>, id: int, n: int)
    requires Indexed(c) && Clocked(c) && id in c.mapInfo
    ensures var d := c.(vvNew := v, mapInfo := c.mapInfo[id := c.mapInfo[id].(nRefCount := n)]);
      Indexed(d) && Clocked(d) && d.mapInfo.Keys == c.mapInfo.Keys
  {
    var d := c.(vvNew := v, mapInfo := c.mapInfo[id := c.mapInfo[id].(nRefCount := n)]);
    forall x | x in d.mapInfo
      ensures x in c.mapInfo && d.mapInfo[x] == c.mapInfo[x].(nRefCount := d.mapInfo[x].nRefCount) {}
  }

  /** A change of a reference count and a slot of the new table does not concern the other indexes. */
  lemma SlotOthers(c: Core, v: seq<int>, id: int, n: int, uncounted: set<int>)
    requires Indexed(c) && Counted(c, uncounted) && Clocked(c) && id in c.mapInfo
    ensures var d := c.(vvNew := v, mapInfo := c.mapInfo[id := c.mapInfo[id].(nRefCount := n)]);
      Indexed(d) && Counted(d, uncounted) && Clocked(d)
  {
    hide Counted, Indexed, Clocked;
    SlotIndexed(c, v, id, n);
    CountedSame(c, c.(vvNew := v, mapInfo := c.mapInfo[id := c.mapInfo[id].(nRefCount := n)]), uncounted);
  }

  lemma NewSize(h: Hashes, c: Core)
    requires InNew(h, c)
    ensures |c.vvNew| == NEW_SIZE
  {
  }

  lemma SlotOwner(h: Hashes, c: Core, s: nat)
    requires InNew(h, c) && s < NEW_SIZE && c.vvNew[s] != -1
    ensures c.vvNew[s] in c.mapInfo && c.mapInfo[c.vvNew[s]].nRefCount > 0 && !c.mapInfo[c.vvNew[s]].fInTried
  {
    assert c.vvNew[s] in multiset(c.vvNew);
  }

  lemma ClearKeeps(h: Hashes, c: Core, s: nat, limbo: set<int>, uncounted: set<int>)
    requires Inv(h, c, limbo, uncounted) && s < NEW_SIZE && c.vvNew[s] != -1
    ensures c.vvNew[s] in c.mapInfo && c.mapInfo[c.vvNew[s]].nRefCount > 0 && !c.mapInfo[c.vvNew[s]].fInTried
    ensures Inv(h, SlotCleared(c, s), limbo + {c.vvNew[s]}, uncounted) && Kept(c, SlotCleared(c, s))
  {
    SlotOwner(h, c, s);
    hide InNew, InTried, Placed, Counted, Kept, Indexed, Clocked;
    ClearTables(h, c, s, limbo);
    SlotOthers(c, c.vvNew[s := -1], c.vvNew[s], c.mapInfo[c.vvNew[s]].nRefCount - 1, uncounted);
  }

  lemma FillKeeps(h: Hashes, c: Core, s: nat, id: int, limbo: set<int>, uncounted: set<int>)
    requires Inv(h, c, limbo, uncounted) && s < NEW_SIZE && c.vvNew[s] == -1
    requires id in c.mapInfo && !c.mapInfo[id].fInTried && c.mapInfo[id].nRefCount < NEW_BUCKETS_PER_ADDRESS
    requires s == NewSlot(h, c.mapInfo[id].addr, s / BUCKET_SIZE)
    ensures Inv(h, SlotFilled(c, s, id), limbo - {id}, uncounted) && Kept(c, SlotFilled(c, s, id))
  {
    hide InNew, InTried, Placed, Counted, Kept, Indexed, Clocked, NewSlot;
    NewSize(h, c);
    FillTables(h, c, s, id, limbo);
    SlotOthers(c, c.vvNew[s := id], id, c.mapInfo[id].nRefCount + 1, uncounted);
  }

  // ---------------------------------------------------------------------------------------------
  // Moving between the tables
  // ---------------------------------------------------------------------------------------------

  /** An entry that is in no table is not counted for the moment. */
  function Uncount(c: Core, id: int): Core
    requires id in c.mapInfo
  {
    c.(nNew := c.nNew - 1, counts := Bump(c.counts, c.mapInfo[id].addr.network, -1, 0))
  }

  function CountNew(c: Core, id: int): Core
    requires id in c.mapInfo
  {
    c.(nNew := c.nNew + 1, counts := Bump(c.counts, c.mapInfo[id].addr.network, 1, 0))
  }

  lemma CountsOnly(h: Hashes, c: Core, d: Core, limbo: set<int>, uncounted: set<int>, uncounted': set<int>)
    requires Inv(h, c, limbo, uncounted) && d == c.(nNew := d.nNew, nTried := d.nTried, counts := d.counts)
      && Counted(d, uncounted')
    ensures Inv(h, d, limbo, uncounted') && Kept(c, d)
  {
  }

  lemma UncountedIds(m: map<int, Info>, id: int, uncounted: set<int>)
    requires id in m && !m[id].fInTried
    ensures NewIds(m) - (uncounted + {id}) == NewIds(m) - uncounted - {id}
      && TriedIds(m) - (uncounted + {id}) == TriedIds(m) - uncounted
    ensures NewIds(m) - (uncounted - {id}) == NewIds(m) - uncounted + {id}
      && TriedIds(m) - (uncounted - {id}) == TriedIds(m) - uncounted
    ensures id in NewIds(m)
  {
  }

  lemma UncountKeeps(h: Hashes, c: Core, id: int, limbo: set<int>, uncounted: set<int>)
    requires Inv(h, c, limbo, uncounted) && id in c.mapInfo && !c.mapInfo[id].fInTried && id !in uncounted
    ensures Inv(h, Uncount(c, id), limbo, uncounted + {id}) && Kept(c, Uncount(c, id))
  {
    hide Tally, NewIds, TriedIds, Indexed, InNew, InTried, Placed, Clocked, Bump;
    UncountedIds(c.mapInfo, id, uncounted);
    OneLessNew(c, NewIds(c.mapInfo) - uncounted, TriedIds(c.mapInfo) - uncounted, id);
    BumpKeys(c.counts, c.mapInfo[id].addr.network, -1, 0);
    CountsOnly(h, c, Uncount(c, id), limbo, uncounted, uncounted + {id});
  }

  lemma CountNewKeeps(h: Hashes, c: Core, id: int, limbo: set<int>, uncounted: set<int>)
    requires Inv(h, c, limbo, uncounted) && id in c.mapInfo && !c.mapInfo[id].fInTried && id in uncounted
    ensures Inv(h, CountNew(c, id), limbo, uncounted - {id}) && Kept(c, CountNew(c, id))
  {
    hide Tally, NewIds, TriedIds, Indexed, InNew, InTried, Placed, Clocked, Bump;
    UncountedIds(c.mapInfo, id, uncounted);
    OneMoreNew(c, NewIds(c.mapInfo) - uncounted, TriedIds(c.mapInfo) - uncounted, id);
    BumpKeys(c.counts, c.mapInfo[id].addr.network, 1, 0);
    CountsOnly(h, c, CountNew(c, id), limbo, uncounted, uncounted - {id});
  }

  /** The entry of a tried slot taken out of the table. */
  function Evicted(c: Core, s: nat): Core
    requires s < |c.vvTried| && c.vvTried[s] in c.mapInfo
  {
    var id := c.vvTried[s];
    c.(vvTried := c.vvTried[s := -1], mapInfo := c.mapInfo[id := c.mapInfo[id].(fInTried := false)],
       nTried := c.nTried - 1, counts := Bump(c.counts, c.mapInfo[id].addr.network, 0, -1))
  }

  /** An entry put into its empty tried slot. */
  function Promoted(c: Core, s: nat, id: int): Core
    requires s < |c.vvTried| && id in c.mapInfo
  {
    c.(vvTried := c.vvTried[s := id], mapInfo := c.mapInfo[id := c.mapInfo[id].(fInTried := true)],
       nTried := c.nTried + 1, counts := Bump(c.counts, c.mapInfo[id].addr.network, 0, 1))
  }

  lemma TriedIndexed(c: Core, d: Core, id: int, inTried: bool)
    requires Indexed(c) && id in c.mapInfo && d.mapInfo == c.mapInfo[id := c.mapInfo[id].(fInTried := inTried)]
    requires d.mapAddr == c.mapAddr && d.vRandom == c.vRandom && d.nIdCount == c.nIdCount
    ensures Indexed(d) && Kept(c, d)
  {
  }

  lemma EvictTables(h: Hashes, c: Core, s: nat, limbo: set<int>)
    requires InNew(h, c) && InTried(h, c) && Placed(c, limbo) && s < TRIED_SIZE && c.vvTried[s] != -1
    ensures c.vvTried[s] in c.mapInfo && c.mapInfo[c.vvTried[s]].fInTried
    ensures var d := Evicted(c, s); InNew(h, d) && InTried(h, d) && Placed(d, limbo + {c.vvTried[s]})
  {
  }

  lemma EvictCounted(c: Core, s: nat, uncounted: set<int>)
    requires Counted(c, uncounted) && s < |c.vvTried| && c.vvTried[s] in c.mapInfo && c.mapInfo[c.vvTried[s]].fInTried
      && c.vvTried[s] !in uncounted
    ensures Counted(Evicted(c, s), uncounted + {c.vvTried[s]})
  {
    hide Tally, NewIds, TriedIds, Bump;
    var id, d := c.vvTried[s], Evicted(c, s);
    var news, trieds := NewIds(c.mapInfo) - uncounted, TriedIds(c.mapInfo) - uncounted;
    EvictedIds(c.mapInfo, id, uncounted);
    IdsKnown(c.mapInfo);
    OneLessTried(c, news, trieds, id);
    TallySame(c.(nTried := d.nTried, counts := d.counts), d, news, trieds - {id});
    BumpKeys(c.counts, c.mapInfo[id].addr.network, 0, -1);
  }

  lemma PromoteCounted(c: Core, s: nat, id: int, uncounted: set<int>)
    requires Counted(c, uncounted) && s < |c.vvTried| && id in c.mapInfo && !c.mapInfo[id].fInTried && id in uncounted
    ensures Counted(Promoted(c, s, id), uncounted - {id})
  {
    hide Tally, NewIds, TriedIds, Bump;
    var d := Promoted(c, s, id);
    var news, trieds := NewIds(c.mapInfo) - uncounted, TriedIds(c.mapInfo) - uncounted;
    PromotedIds(c.mapInfo, id, uncounted);
    IdsKnown(c.mapInfo);
    OneMoreTried(c, news, trieds, id);
    TallySame(c.(nTried := d.nTried, counts := d.counts), d, news, trieds + {id});
    BumpKeys(c.counts, c.mapInfo[id].addr.network, 0, 1);
  }

  lemma EvictedIds(m: map<int, Info>, id: int, uncounted: set<int>)
    requires id in m && m[id].fInTried && id !in uncounted
    ensures var m' := m[id := m[id].(fInTried := false)];
      NewIds(m') - (uncounted + {id}) == NewIds(m) - uncounted
        && TriedIds(m') - (uncounted + {id}) == TriedIds(m) - uncounted - {id}
    ensures id in TriedIds(m) - uncounted
  {
    MovedIds(m, id, false);
  }

  lemma PromotedIds(m: map<int, Info>, id: int, uncounted: set<int>)
    requires id in m && !m[id].fInTried && id in uncounted
    ensures var m' := m[id := m[id].(fInTried := true)];
      NewIds(m') - (uncounted - {id}) == NewIds(m) - uncounted
        && TriedIds(m') - (uncounted - {id}) == TriedIds(m) - uncounted + {id}
    ensures id !in TriedIds(m) - uncounted
  {
    MovedIds(m, id, true);
  }

  lemma MovedIds(m: map<int, Info>, id: int, inTried: bool)
    requires id in m
    ensures var m' := m[id := m[id].(fInTried := inTried)];
      && NewIds(m') == (if inTried then NewIds(m) - {id} else NewIds(m) + {id})
      && TriedIds(m') == (if inTried then TriedIds(m) + {id} else TriedIds(m) - {id})
  {
  }

  lemma EvictKeeps(h: Hashes, c: Core, s: nat, limbo: set<int>, uncounted: set<int>)
    requires Inv(h, c, limbo, uncounted) && s < TRIED_SIZE && c.vvTried[s] != -1 && c.vvTried[s] !in uncounted
    ensures c.vvTried[s] in c.mapInfo && c.mapInfo[c.vvTried[s]].fInTried && c.mapInfo[c.vvTried[s]].nRefCount == 0
    ensures Inv(h, Evicted(c, s), limbo + {c.vvTried[s]}, uncounted + {c.vvTried[s]}) && Kept(c, Evicted(c, s))
  {
    EvictTables(h, c, s, limbo);
    hide InNew, Placed, Counted, Indexed;
    EvictCounted(c, s, uncounted);
    TriedIndexed(c, Evicted(c, s), c.vvTried[s], false);
  }

  lemma PromoteTables(h: Hashes, c: Core, id: int, limbo: set<int>)
    requires InNew(h, c) && InTried(h, c) && Placed(c, limbo) && id in c.mapInfo && !c.mapInfo[id].fInTried
      && c.mapInfo[id].nRefCount == 0
    requires -1 !in c.mapInfo && c.vvTried[TriedSlot(h, c.mapInfo[id].addr)] == -1
    ensures var d := Promoted(c, TriedSlot(h, c.mapInfo[id].addr), id);
      InNew(h, d) && InTried(h, d) && Placed(d, limbo - {id})
  {
    assert id !in multiset(c.vvNew);
    forall s | 0 <= s < NEW_SIZE ensures c.vvNew[s] != id {
      assert c.vvNew[s] in multiset(c.vvNew);
    }
  }

  lemma PromoteKeeps(h: Hashes, c: Core, id: int, limbo: set<int>, uncounted: set<int>)
    requires Inv(h, c, limbo, uncounted) && id in c.mapInfo && !c.mapInfo[id].fInTried && c.mapInfo[id].nRefCount == 0
    requires c.vvTried[TriedSlot(h, c.mapInfo[id].addr)] == -1 && id in uncounted
      && (c.timed ==> c.mapInfo[id].lastSuccess > 0)
    ensures var d := Promoted(c, TriedSlot(h, c.mapInfo[id].addr), id);
      Inv(h, d, limbo - {id}, uncounted - {id}) && Kept(c, d)
  {
    var s := TriedSlot(h, c.mapInfo[id].addr);
    assert -1 !in c.mapInfo;
    PromoteTables(h, c, id, limbo);
    hide InNew, Placed, Counted, Indexed;
    PromoteCounted(c, s, id, uncounted);
    TriedIndexed(c, Promoted(c, s, id), id, true);
  }
}

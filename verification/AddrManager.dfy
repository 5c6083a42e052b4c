/** AddrManImpl: the operations, each written as the changes of fields that the source makes (src/addrman.cpp). */
module AddrManagers {
  import opened AddrMans
  import opened AddrChecks
  import opened Options

  function Max(a: int, b: int): int { if a < b then b else a }

  /** A time that may be recorded as the last success of an entry, which will be tried or not. */
  predicate TimeOk(time: int, tried: bool) { time > 0 || (time == 0 && !tried) }

  /** No entries but those of ids changed, except for their places in vRandom, and none were added. */
  ghost predicate Spared(m: map<int, Info>, m': map<int, Info>, ids: set<int>) {
    && m'.Keys <= m.Keys
    && forall x | x in m && x !in ids :: x in m' && m'[x] == m[x].(nRandomPos := m'[x].nRandomPos)
  }

  /** The entry x has one place in the new table less, and is gone if that was its last. */
  ghost predicate Released(m: map<int, Info>, m': map<int, Info>, x: int) {
    x != -1 ==>
      (&& x in m
       && if m[x].nRefCount == 1 then x !in m'
          else x in m' && m'[x] == m[x].(nRefCount := m[x].nRefCount - 1, nRandomPos := m'[x].nRandomPos))
  }

  /** The table with all places of id emptied. */
  function Without(v: seq<int>, id: int): seq<int> {
    seq(|v|, i requires 0 <= i < |v| => if v[i] == id then -1 else v[i])
  }

  /** The place for an entry in the new table, by its own source. */
  function HomeSlot(h: Hashes, info: Info): nat { NewSlot(h, info.addr, NewBucket(h, info.addr, info.source)) }

  /** id, an entry of the tried table in c, is back in the new table in d. */
  ghost predicate Demoted(h: Hashes, c: Core, d: Core, id: int) {
    && id in c.mapInfo && |c.vvNew| == NEW_SIZE && HomeSlot(h, c.mapInfo[id]) < NEW_SIZE
    && var place := HomeSlot(h, c.mapInfo[id]);
       && d.vvNew == c.vvNew[place := id] && Released(c.mapInfo, d.mapInfo, c.vvNew[place])
       && Spared(c.mapInfo, d.mapInfo, {id, c.vvNew[place]})
       && id in d.mapInfo
         && d.mapInfo[id] == c.mapInfo[id].(fInTried := false, nRefCount := 1, nRandomPos := d.mapInfo[id].nRandomPos)
  }

  /** id has left the new table, and is in the tried slot; who was there before is in the new table again. */
  ghost predicate Replaces(h: Hashes, c: Core, d: Core, id: int, slot: nat) {
    && id in c.mapInfo && id in d.mapInfo && slot < |c.vvTried| && d.vvTried == c.vvTried[slot := id]
    && d.mapInfo[id] == c.mapInfo[id].(nRefCount := 0, fInTried := true, nRandomPos := d.mapInfo[id].nRandomPos)
    && var left := c.(vvNew := Without(c.vvNew, id), mapInfo := c.mapInfo[id := c.mapInfo[id].(nRefCount := 0)]);
       var entered := d.(mapInfo := d.mapInfo[id := d.mapInfo[id].(fInTried := false)]);
       if c.vvTried[slot] == -1 then entered.vvNew == left.vvNew && Spared(left.mapInfo, entered.mapInfo, {})
       else Demoted(h, left, entered, c.vvTried[slot])
  }

  /** The times that Good may be given: after the epoch, or at it if the entry is not tried and will not be. */
  predicate GoodTime(h: Hashes, c: Core, addr: Addr, testBeforeEvict: bool, time: int) {
    addr in c.mapAddr && c.mapAddr[addr] in c.mapInfo && |c.vvTried| == TRIED_SIZE ==>
      TimeOk(time, c.mapInfo[c.mapAddr[addr]].fInTried || !(testBeforeEvict && c.vvTried[TriedSlot(h, addr)] != -1))
  }

  /** What Good does, from c to d. */
  ghost predicate GoodOutcome(h: Hashes, c: Core, d: Core, addr: Addr, testBeforeEvict: bool, time: int, moved: bool) {
    if addr !in c.mapAddr || c.mapAddr[addr] !in c.mapInfo || |c.vvTried| != TRIED_SIZE then !moved && d == c
    else
      var id, slot := c.mapAddr[addr], TriedSlot(h, addr);
      && (moved <==> !c.mapInfo[id].fInTried && !(testBeforeEvict && c.vvTried[slot] != -1))
      && if moved then GoodMove(h, c, d, addr, time) else GoodStay(c, d, id, time)
  }

  /** The entry moves to the tried table. */
  ghost predicate GoodMove(h: Hashes, c: Core, d: Core, addr: Addr, time: int)
    requires addr in c.mapAddr && c.mapAddr[addr] in c.mapInfo
  {
    && addr in d.mapAddr && d.mapAddr[addr] == c.mapAddr[addr] && d.collisions == c.collisions
    && Replaces(h, c.(mapInfo := Recorded(c.mapInfo, c.mapAddr[addr], time)), d, c.mapAddr[addr], TriedSlot(h, addr))
  }

  /** It stays, and may become a pending collision. */
  ghost predicate GoodStay(c: Core, d: Core, id: int, time: int)
    requires id in c.mapInfo
  {
    && d == c.(mapInfo := Recorded(c.mapInfo, id, time), collisions := d.collisions, timed := d.timed)
    && d.collisions == c.collisions +
      if !c.mapInfo[id].fInTried && |c.collisions| < SET_TRIED_COLLISION_SIZE then {id} else {}
  }

  /** What the last part of AddSingle does: the entry gets the slot for its source if that is free, if its occupant is
      terrible, or if the occupant has other places and the entry has none; an entry left without a place is deleted. */
  ghost predicate Placement(h: Hashes, c: Core, d: Core, id: int, source: Addr, now: int, fInsert: bool) {
    && id in c.mapInfo && |c.vvNew| == NEW_SIZE
    && var info := c.mapInfo[id];
       var slot := NewSlot(h, info.addr, NewBucket(h, info.addr, source));
       var x := c.vvNew[slot];
       && (x != -1 ==> x in c.mapInfo)
       && (fInsert <==>
         x == -1 || (x != id && (IsTerrible(c.mapInfo[x], now) || (c.mapInfo[x].nRefCount > 1 && info.nRefCount == 0))))
       && if fInsert then
            && d.vvNew == c.vvNew[slot := id] && Released(c.mapInfo, d.mapInfo, x)
              && Spared(c.mapInfo, d.mapInfo, {id, x})
            && id in d.mapInfo
              && d.mapInfo[id] == info.(nRefCount := info.nRefCount + 1, nRandomPos := d.mapInfo[id].nRandomPos)
          else
            && d.vvNew == c.vvNew && d.mapAddr == (if info.nRefCount > 0 then c.mapAddr else c.mapAddr - {info.addr})
            && Spared(c.mapInfo, d.mapInfo, {id}) && (id in d.mapInfo <==> info.nRefCount > 0)
              && (info.nRefCount > 0 ==> d.mapInfo == c.mapInfo)
  }

  lemma PlacedFacts(h: Hashes, c: Core, d: Core, id: int, source: Addr, now: int, fInsert: bool)
    requires Placement(h, c, d, id, source, now, fInsert)
    ensures id in c.mapInfo
    ensures var info := c.mapInfo[id];
      && (fInsert ==>
        |d.vvNew| == NEW_SIZE && d.vvNew[NewSlot(h, info.addr, NewBucket(h, info.addr, source))] == id
          && id in d.mapInfo
                      && d.mapInfo[id] == info.(nRefCount := info.nRefCount + 1,
                        nRandomPos := d.mapInfo[id].nRandomPos))
      && (!fInsert ==>
        d.vvNew == c.vvNew && d.mapAddr == if info.nRefCount > 0 then c.mapAddr else c.mapAddr - {info.addr})
  {
    hide IsTerrible, Released, Spared;
  }

  function TimePenalty(addr: Addr, source: Addr, penalty: int): int { if addr.host == source.host then 0 else penalty }

  /** A known entry after its address was heard of again: services are added, and the time if it is much newer. */
  function Refreshed(info: Info, nTime: int, services: set<nat>, timePenalty: int, now: int): Info {
    var interval := if now - nTime < 24 * HOUR then HOUR else 24 * HOUR;
    info.(services := info.services + services,
          nTime := if info.nTime < nTime - interval - timePenalty then Max(0, nTime - timePenalty) else info.nTime)
  }

  /** Whether the address may get a place: always if it is unknown; otherwise if there is news, the entry is not tried
      and has room for another place, and the stochastic test is passed. */
  predicate GoesOn(c: Core, addr: Addr, nTime: int, timePenalty: int, now: int, lucky: bool) {
    addr in c.mapAddr && c.mapAddr[addr] in c.mapInfo ==>
      (var info := c.mapInfo[c.mapAddr[addr]];
       && nTime > Refreshed(info, nTime, {}, timePenalty, now).nTime
       && !info.fInTried && info.nRefCount < NEW_BUCKETS_PER_ADDRESS && lucky)
  }

  function NewInfo(addr: Addr, source: Addr, nTime: int, services: set<nat>, penalty: int): Info {
    Info(addr, source, Max(0, nTime - TimePenalty(addr, source, penalty)), services, 0, 0, 0, 0, 0, false, 0)
  }

  ghost predicate Prepared(c: Core, d: Core, id: int, addr: Addr, nTime: int, services: set<nat>, source: Addr,
                           penalty: int, now: int)
  {
    if addr in c.mapAddr && c.mapAddr[addr] in c.mapInfo then
      && id == c.mapAddr[addr] && c.mapInfo[id].addr == addr && c.mapInfo[id].nRefCount > 0
      && d == c.(mapInfo := c.mapInfo[id := Refreshed(c.mapInfo[id], nTime, services,
        TimePenalty(addr, source, penalty), now)])
    else
      && addr !in c.mapAddr && id == c.nIdCount && id !in c.mapInfo
      && d == Created(c, NewInfo(addr, source, nTime, services, penalty).(nRandomPos := |c.vRandom|))
  }

  /** Exactly when AddSingle inserts: the address is routable and goes on, and its slot is free, or is taken by another
      entry that is terrible, or by one with other places while the address is unknown. */
  ghost predicate Inserts(h: Hashes, c: Core, addr: Addr, nTime: int, source: Addr, penalty: int, now: int,
                          lucky: bool) {
    && addr.routable && GoesOn(c, addr, nTime, TimePenalty(addr, source, penalty), now, lucky) && |c.vvNew| == NEW_SIZE
    && var x := c.vvNew[NewSlot(h, addr, NewBucket(h, addr, source))];
       || x == -1
       || (&& x in c.mapInfo && (addr in c.mapAddr ==> c.mapAddr[addr] != x)
           && (IsTerrible(c.mapInfo[x], now) || (addr !in c.mapAddr && c.mapInfo[x].nRefCount > 1)))
  }

  lemma NotInserted(h: Hashes, c: Core, addr: Addr, nTime: int, source: Addr, penalty: int, now: int, lucky: bool)
    requires !addr.routable || !GoesOn(c, addr, nTime, TimePenalty(addr, source, penalty), now, lucky)
    ensures !Inserts(h, c, addr, nTime, source, penalty, now, lucky)
  {
  }

  lemma OnwardKept(c: Core, d: Core)
    requires Onward(c, d)
    ensures Kept(c, d)
  {
  }

  lemma SameTried(h: Hashes, c: Core, d: Core)
    requires Colliding(h, c) && Kept(c, d) && d.vvTried == c.vvTried && d.collisions == c.collisions
    ensures Colliding(h, d) && Onward(c, d)
  {
    OnwardColliding(h, c, d);
  }

  /** What an insertion leaves: the entry is in its slot, with one place more or newly made. */
  ghost predicate Inserted(h: Hashes, c: Core, e: Core, addr: Addr, nTime: int, services: set<nat>, source: Addr,
                           penalty: int) {
    && addr in e.mapAddr && e.mapAddr[addr] in e.mapInfo && |e.vvNew| == NEW_SIZE
    && e.vvNew[NewSlot(h, addr, NewBucket(h, addr, source))] == e.mapAddr[addr]
    && var info := e.mapInfo[e.mapAddr[addr]];
       if addr in c.mapAddr then
         && e.mapAddr[addr] == c.mapAddr[addr] && c.mapAddr[addr] in c.mapInfo
         && info.nRefCount == c.mapInfo[c.mapAddr[addr]].nRefCount + 1
       else info == NewInfo(addr, source, nTime, services, penalty).(nRefCount := 1, nRandomPos := info.nRandomPos)
  }

  /** The two parts of AddSingle together. */
  lemma InsertedFacts(h: Hashes, c: Core, d: Core, e: Core, id: int, addr: Addr, nTime: int, services: set<nat>,
                      source: Addr,
                      penalty: int, now: int, lucky: bool, fInsert: bool)
    requires Prepared(c, d, id, addr, nTime, services, source, penalty, now)
      && Placement(h, d, e, id, source, now, fInsert)
    requires addr.routable && GoesOn(c, addr, nTime, TimePenalty(addr, source, penalty), now, lucky)
    requires Inv(h, c, {}, {}) && Inv(h, e, {}, {})
    ensures fInsert <==> Inserts(h, c, addr, nTime, source, penalty, now, lucky)
    ensures fInsert ==> Inserted(h, c, e, addr, nTime, services, source, penalty)
    ensures !fInsert ==> e.vvNew == c.vvNew && e.mapAddr == c.mapAddr
  {
    hide Prepared, Placement, Inv, Inserts, Inserted, GoesOn, NewInfo, Indexed;
    ValidParts(h, c);
    KnownIds(c);
    FreshId(h, c);
    if fInsert { PlacedAddress(h, d, e, id, source, now); }
    if addr in c.mapAddr {
      InsertedKnown(h, c, d, e, id, addr, nTime, services, source, penalty, now, lucky, fInsert);
    } else {
      InsertedNew(h, c, d, e, id, addr, nTime, services, source, penalty, now, lucky, fInsert);
    }
  }

  lemma PlacedAddress(h: Hashes, d: Core, e: Core, id: int, source: Addr, now: int)
    requires Placement(h, d, e, id, source, now, true) && Inv(h, e, {}, {})
    ensures id in d.mapInfo && d.mapInfo[id].addr in e.mapAddr && e.mapAddr[d.mapInfo[id].addr] == id
  {
    hide Inv;
    PlacedFacts(h, d, e, id, source, now, true);
    KnownAddress(h, e, id);
  }

  lemma InsertedKnown(h: Hashes, c: Core, d: Core, e: Core, id: int, addr: Addr, nTime: int, services: set<nat>,
                      source: Addr,
                      penalty: int, now: int, lucky: bool, fInsert: bool)
    requires Prepared(c, d, id, addr, nTime, services, source, penalty, now)
      && Placement(h, d, e, id, source, now, fInsert)
    requires addr.routable && GoesOn(c, addr, nTime, TimePenalty(addr, source, penalty), now, lucky)
    requires addr in c.mapAddr && c.mapAddr[addr] in c.mapInfo
    requires fInsert ==> id in d.mapInfo && d.mapInfo[id].addr in e.mapAddr && e.mapAddr[d.mapInfo[id].addr] == id
    ensures fInsert <==> Inserts(h, c, addr, nTime, source, penalty, now, lucky)
    ensures fInsert ==> Inserted(h, c, e, addr, nTime, services, source, penalty)
    ensures !fInsert ==> e.vvNew == c.vvNew && e.mapAddr == c.mapAddr
  {
    hide NewSlot, NewBucket, IsTerrible, Released, Spared, GoesOn, NewInfo;
    PlacedFacts(h, d, e, id, source, now, fInsert);
  }

  lemma InsertedNew(h: Hashes, c: Core, d: Core, e: Core, id: int, addr: Addr, nTime: int, services: set<nat>,
                    source: Addr,
                    penalty: int, now: int, lucky: bool, fInsert: bool)
    requires Prepared(c, d, id, addr, nTime, services, source, penalty, now)
      && Placement(h, d, e, id, source, now, fInsert)
    requires addr.routable && GoesOn(c, addr, nTime, TimePenalty(addr, source, penalty), now, lucky)
      && addr !in c.mapAddr
    requires |c.vvNew| == NEW_SIZE && forall s | 0 <= s < NEW_SIZE :: c.vvNew[s] != c.nIdCount
    requires fInsert ==> id in d.mapInfo && d.mapInfo[id].addr in e.mapAddr && e.mapAddr[d.mapInfo[id].addr] == id
    ensures fInsert <==> Inserts(h, c, addr, nTime, source, penalty, now, lucky)
    ensures fInsert ==> Inserted(h, c, e, addr, nTime, services, source, penalty)
    ensures !fInsert ==> e.vvNew == c.vvNew && e.mapAddr == c.mapAddr
  {
    hide NewSlot, NewBucket, IsTerrible, Released, Spared, GoesOn, Bump;
    PlacedFacts(h, d, e, id, source, now, fInsert);
    if !fInsert { assert e.mapAddr == c.mapAddr[addr := id] - {addr} == c.mapAddr; }
  }

  lemma FreshId(h: Hashes, c: Core)
    requires Inv(h, c, {}, {})
    ensures |c.vvNew| == NEW_SIZE && forall s | 0 <= s < NEW_SIZE :: c.vvNew[s] != c.nIdCount
  {
    forall s | 0 <= s < NEW_SIZE ensures c.vvNew[s] != c.nIdCount {
      assert c.vvNew[s] in multiset(c.vvNew);
    }
  }

  lemma KnownIds(c: Core)
    requires Indexed(c)
    ensures forall a | a in c.mapAddr :: c.mapAddr[a] in c.mapInfo
  {
  }

  datatype Verdict = Drop | Move | Wait

  /** What becomes of a pending collision: the new entry takes the slot when that is free, when the old entry was tried
      without success lately but not just now, or when it could not be tested for long. */
  function VerdictOn(h: Hashes, c: Core, idNew: int, time: int): Verdict {
    if idNew !in c.mapInfo || !c.mapInfo[idNew].addr.valid || |c.vvTried| != TRIED_SIZE then Drop else
    var old_ := c.vvTried[TriedSlot(h, c.mapInfo[idNew].addr)];
    if old_ == -1 || old_ !in c.mapInfo then Move
    else if time - c.mapInfo[old_].lastSuccess < REPLACEMENT then Drop
    else if time - c.mapInfo[old_].lastTry < REPLACEMENT
      then (if time - c.mapInfo[old_].lastTry > 60 then Move else Wait)
    else if time - c.mapInfo[idNew].lastSuccess > TEST_WINDOW then Move else Wait
  }

  /** What becomes of everything else. */
  ghost predicate Resolved(h: Hashes, c: Core, d: Core, idNew: int, time: int) {
    if VerdictOn(h, c, idNew, time).Move?
    then GoodOutcome(h, c, d, c.mapInfo[idNew].addr, false, time, !c.mapInfo[idNew].fInTried)
    else d == c
  }

  /** One id: nothing if it is not pending; otherwise it is resolved, and stays pending if it has to wait. */
  ghost predicate ResolveStep(h: Hashes, c: Core, d: Core, id: int, time: int) {
    if id !in c.collisions then d == c
    else
      && d.collisions == (if VerdictOn(h, c, id, time).Wait? then c.collisions else c.collisions - {id})
      && Resolved(h, c, d.(collisions := c.collisions), id, time)
  }

  lemma StepSkipped(h: Hashes, c: Core, id: int, time: int)
    requires id !in c.collisions
    ensures ResolveStep(h, c, c, id, time)
  {
  }

  lemma StepResolved(h: Hashes, c: Core, e: Core, d: Core, id: int, time: int)
    requires id in c.collisions && Resolved(h, c, e, id, time) && e.collisions == c.collisions
    requires d == e.(collisions := if VerdictOn(h, c, id, time).Wait? then e.collisions else e.collisions - {id})
    ensures ResolveStep(h, c, d, id, time)
  {
    assert d.(collisions := c.collisions) == e;
  }

  lemma SameTable(c: Core, id: int)
    ensures Onward(c, c.(collisions := c.collisions - {id}))
  {
  }

  lemma OutcomeMoved(h: Hashes, c: Core, d: Core, addr: Addr, time: int, moved: bool)
    requires GoodOutcome(h, c, d, addr, false, time, moved) && addr in c.mapAddr && c.mapAddr[addr] in c.mapInfo
      && |c.vvTried| == TRIED_SIZE
    ensures moved == !c.mapInfo[c.mapAddr[addr]].fInTried && d.collisions == c.collisions
  {
  }

  lemma NotFound(h: Hashes, c: Core, addr: Addr, testBeforeEvict: bool, time: int)
    requires addr !in c.mapAddr
    ensures GoodOutcome(h, c, c, addr, testBeforeEvict, time, false)
  {
  }

  lemma Unmoved(h: Hashes, c: Core, d: Core, addr: Addr, testBeforeEvict: bool, time: int)
    requires addr in c.mapAddr && c.mapAddr[addr] in c.mapInfo && |c.vvTried| == TRIED_SIZE
    requires var id := c.mapAddr[addr];
      && (c.mapInfo[id].fInTried || (testBeforeEvict && c.vvTried[TriedSlot(h, addr)] != -1))
      && d == c.(mapInfo := Recorded(c.mapInfo, id, time), collisions := d.collisions, timed := d.timed)
      && d.collisions == if c.mapInfo[id].fInTried then c.collisions
                         else if |c.collisions| < SET_TRIED_COLLISION_SIZE then c.collisions + {id} else c.collisions
    ensures GoodOutcome(h, c, d, addr, testBeforeEvict, time, false)
  {
    hide TriedSlot;
  }

  lemma Moved(h: Hashes, c: Core, b: Core, d: Core, addr: Addr, testBeforeEvict: bool, time: int)
    requires addr in c.mapAddr && c.mapAddr[addr] in c.mapInfo && |c.vvTried| == TRIED_SIZE
    requires var id := c.mapAddr[addr];
      && !c.mapInfo[id].fInTried && !(testBeforeEvict && c.vvTried[TriedSlot(h, addr)] != -1)
      && b == c.(mapInfo := Recorded(c.mapInfo, id, time), timed := b.timed)
        && Replaces(h, b, d, id, TriedSlot(h, addr))
      && addr in d.mapAddr && d.mapAddr[addr] == id && d.collisions == c.collisions
    ensures GoodOutcome(h, c, d, addr, testBeforeEvict, time, true)
  {
    hide TriedSlot, Without, Recorded, Spared;
    var id := c.mapAddr[addr];
    if c.vvTried[TriedSlot(h, addr)] != -1 {
      hide Demoted;
      var b' := c.(mapInfo := b.mapInfo);
      var left := b.(vvNew := Without(b.vvNew, id), mapInfo := b.mapInfo[id := b.mapInfo[id].(nRefCount := 0)]);
      var left' := b'.(vvNew := Without(b.vvNew, id), mapInfo := b.mapInfo[id := b.mapInfo[id].(nRefCount := 0)]);
      var entered := d.(mapInfo := d.mapInfo[id := d.mapInfo[id].(fInTried := false)]);
      DemotedParts(h, left, entered, left', entered, c.vvTried[TriedSlot(h, addr)]);
    }
  }

  function Recorded(m: map<int, Info>, id: int, time: int): map<int, Info>
    requires id in m
  {
    m[id := m[id].(lastSuccess := time, lastTry := time, nAttempts := 0)]
  }

  class AddrMan {
    const h: Hashes
    var nIdCount: int
    var mapInfo: map<int, Info>
    var mapAddr: map<Addr, int>
    var vRandom: seq<int>
    var nTried: int
    var vvTried: seq<int>
    var nNew: int
    var vvNew: seq<int>
    var lastGood: int
    var triedCollisions: set<int>
    var networkCounts: map<nat, Counts>
    ghost var timed: bool

    ghost function S(): Core
      reads this
    {
      Core(mapInfo, mapAddr, vRandom, nIdCount, vvNew, vvTried, nNew, nTried, networkCounts, triedCollisions, timed)
    }

    ghost predicate Valid()
      reads this
    {
      Inv(h, S(), {}, {}) && Colliding(h, S())
    }

    constructor (h: Hashes)
      ensures Valid() && this.h == h && mapInfo == map[] && triedCollisions == {} && timed
    {
      this.h := h;
      nIdCount := 0;
      mapInfo := map[];
      mapAddr := map[];
      vRandom := [];
      nTried := 0;
      vvTried := seq(TRIED_SIZE, _ => -1);
      nNew := 0;
      vvNew := seq(NEW_SIZE, _ => -1);
      lastGood := 1;
      triedCollisions := {};
      networkCounts := map[];
      timed := true;
      new;
      EmptyInv(h, S());
    }

    /** Find: mapAddr and mapInfo agree, so that an id found has an entry. */
    method Find(addr: Addr) returns (nId: Option<int>)
      requires Indexed(S())
      ensures nId.Some? <==> addr in mapAddr
      ensures nId.Some? ==> nId.value in mapInfo && mapInfo[nId.value].addr == addr && mapAddr[addr] == nId.value
    {
      if addr in mapAddr && mapAddr[addr] in mapInfo {
        return Some(mapAddr[addr]);
      }
      return None;
    }

    method Create(addr: Addr, source: Addr, nTime: int, services: set<nat>) returns (nId: int)
      requires Inv(h, S(), {}, {}) && addr !in mapAddr
      modifies this
      ensures nId == old(nIdCount) && lastGood == old(lastGood) && timed == old(timed)
      ensures S() == Created(old(S()), Info(addr, source, nTime, services, 0, 0, 0, 0, 0, false, |old(vRandom)|))
      ensures Inv(h, S(), {nId}, {}) && Kept(old(S()), S())
    {
      hide Inv, Kept, Bump;
      CreateKeeps(h, S(), Info(addr, source, nTime, services, 0, 0, 0, 0, 0, false, |vRandom|));
      nId := nIdCount;
      nIdCount := nIdCount + 1;
      mapInfo := mapInfo[nId := Info(addr, source, nTime, services, 0, 0, 0, 0, 0, false, -1)];
      mapAddr := mapAddr[addr := nId];
      mapInfo := mapInfo[nId := mapInfo[nId].(nRandomPos := |vRandom|)];
      vRandom := vRandom + [nId];
      nNew := nNew + 1;
      networkCounts := Bump(networkCounts, addr.network, 1, 0);
      assert mapInfo == old(mapInfo)[nId := mapInfo[nId]];
    }

    method SwapRandom(pos1: nat, pos2: nat, ghost limbo: set<int>, ghost uncounted: set<int>)
      requires Inv(h, S(), limbo, uncounted) && (pos1 != pos2 ==> pos1 < |vRandom| && pos2 < |vRandom|)
      modifies this`mapInfo, this`vRandom
      ensures Inv(h, S(), limbo, uncounted) && Kept(old(S()), S()) && Reduced(old(S()), S(), -1)
        && mapInfo.Keys == old(mapInfo).Keys
      ensures pos1 == pos2 ==> vRandom == old(vRandom)
      ensures pos1 != pos2 ==> vRandom == old(vRandom)[pos1 := old(vRandom)[pos2]][pos2 := old(vRandom)[pos1]]
    {
      hide Inv, Kept, Alike, Reduced;
      if pos1 == pos2 {
        ReducedSelf(S(), -1);
        return;
      }
      SwapKeeps(h, S(), pos1, pos2, limbo, uncounted);
      ReducedSwap(S(), pos1, pos2);
      var id1, id2 := vRandom[pos1], vRandom[pos2];
      mapInfo := mapInfo[id1 := mapInfo[id1].(nRandomPos := pos2)];
      mapInfo := mapInfo[id2 := mapInfo[id2].(nRandomPos := pos1)];
      vRandom := vRandom[pos1 := id2];
      vRandom := vRandom[pos2 := id1];
    }

    /** Delete; the assertions of the source are preconditions here. */
    method Delete(nId: int, ghost limbo: set<int>, ghost uncounted: set<int>)
      requires Inv(h, S(), limbo, uncounted) && nId in mapInfo && !mapInfo[nId].fInTried && mapInfo[nId].nRefCount == 0
        && nId !in uncounted
      modifies this
      ensures Inv(h, S(), limbo - {nId}, uncounted) && Kept(old(S()), S()) && Reduced(old(S()), S(), nId)
        && lastGood == old(lastGood) && timed == old(timed)
      ensures vvNew == old(vvNew) && nId !in mapInfo && mapAddr == old(mapAddr) - {old(mapInfo)[nId].addr}
    {
      hide Inv, Kept, Alike, Reduced;
      InRandom(h, S(), nId, limbo, uncounted);
      ghost var c := S();
      SwapRandom(mapInfo[nId].nRandomPos, |vRandom| - 1, limbo, uncounted);
      ghost var d := S();
      ReducedEntry(c, d, -1, nId);
      DeleteKeeps(h, d, nId, limbo, uncounted);
      KeptTransitive(c, d, Deleted(d, nId));
      IsReduced(c, d, nId);
      var info := mapInfo[nId];
      networkCounts := Bump(networkCounts, info.addr.network, -1, 0);
      vRandom := vRandom[..|vRandom| - 1];
      mapAddr := mapAddr - {info.addr};
      mapInfo := mapInfo - {nId};
      nNew := nNew - 1;
    }

    /** Clear a position of the new table, deleting an entry that loses its last one. */
    method ClearNew(slot: nat, ghost limbo: set<int>, ghost uncounted: set<int>)
      requires Inv(h, S(), limbo, uncounted) && slot < NEW_SIZE && vvNew[slot] !in uncounted + limbo
      modifies this
      ensures Inv(h, S(), limbo, uncounted) && Kept(old(S()), S()) && vvNew == old(vvNew)[slot := -1]
        && lastGood == old(lastGood) && timed == old(timed)
      ensures Reduced(old(S()), S(), old(vvNew)[slot]) && Released(old(mapInfo), mapInfo, old(vvNew)[slot])
    {
      hide Inv, Kept, Reduced;
      ghost var c := S();
      Sizes(h, c, limbo, uncounted);
      if vvNew[slot] != -1 {
        var nIdDelete := vvNew[slot];
        ClearKeeps(h, c, slot, limbo, uncounted);
        mapInfo := mapInfo[nIdDelete := mapInfo[nIdDelete].(nRefCount := mapInfo[nIdDelete].nRefCount - 1)];
        vvNew := vvNew[slot := -1];
        ghost var d := S();
        ReducedBy(c, nIdDelete, mapInfo[nIdDelete].nRefCount, vvNew);
        if mapInfo[nIdDelete].nRefCount == 0 {
          Delete(nIdDelete, limbo + {nIdDelete}, uncounted);
          KeptTransitive(c, d, S());
          ReducedTransitive(c, d, S(), nIdDelete);
          assert limbo + {nIdDelete} - {nIdDelete} == limbo;
        } else {
          NotInLimbo(h, d, limbo, nIdDelete, uncounted);
        }
      } else {
        assert vvNew[slot := -1] == vvNew;
        ReducedSelf(c, -1);
      }
    }

    /** The first half of MakeTried: an entry of the new table is removed from all its buckets. */
    method RemoveFromNew(nId: int)
      requires Inv(h, S(), {}, {}) && nId in mapInfo && !mapInfo[nId].fInTried
      modifies this`vvNew, this`mapInfo
      ensures Inv(h, S(), {nId}, {}) && Kept(old(S()), S())
      ensures mapInfo == old(mapInfo)[nId := old(mapInfo)[nId].(nRefCount := 0)] && vvNew == Without(old(vvNew), nId)
    {
      hide Inv, Kept, Emptying, Without, NotIn, NewSlot, NewBucket, BucketAt;
      ghost var c := S();
      Sizes(h, c, {}, {});
      MoreLimbo(h, c, {}, nId, {});
      ReducedSelf(c, nId);
      assert {} + {nId} == {nId};
      NotInNone(h, vvNew, nId);
      EmptyingNone(vvNew, nId);
      var addr := mapInfo[nId].addr;
      var start := NewBucket(h, addr, mapInfo[nId].source);
      var n := 0;
      while n < NEW_BUCKET_COUNT
        invariant 0 <= n <= NEW_BUCKET_COUNT && Inv(h, S(), {nId}, {}) && Kept(c, S()) && nId in mapInfo
        invariant mapInfo == c.mapInfo[nId := c.mapInfo[nId].(nRefCount := mapInfo[nId].nRefCount)]
        invariant NotIn(h, vvNew, nId, addr, start, n) && Emptying(c.vvNew, vvNew, nId)
      {
        var bucket := BucketAt(start, n);
        var slot := NewSlot(h, addr, bucket);
        ghost var d := S();
        Sizes(h, d, {nId}, {});
        NotInNext(h, vvNew, nId, addr, start, n);
        if vvNew[slot] == nId {
          ClearKeeps(h, d, slot, {nId}, {});
          assert {nId} + {nId} == {nId};
          KeptTransitive(c, d, SlotCleared(d, slot));
          EmptyingNext(c.vvNew, vvNew, nId, slot);
          vvNew := vvNew[slot := -1];
          mapInfo := mapInfo[nId := mapInfo[nId].(nRefCount := mapInfo[nId].nRefCount - 1)];
          if mapInfo[nId].nRefCount == 0 {
            break;
          }
        }
        n := n + 1;
      }
      if mapInfo[nId].nRefCount != 0 {
        AllVisited(h, S(), nId, start, {nId});
      }
      AllEmptied(h, S(), c.vvNew, nId, {nId});
    }

    /** The eviction in MakeTried: the entry of the slot moves to the new table, deleting whatever is there. */
    method MakeSpace(slot: nat, nId: int)
      requires Inv(h, S(), {nId}, {nId}) && nId in mapInfo && !mapInfo[nId].fInTried && mapInfo[nId].nRefCount == 0
      requires slot < TRIED_SIZE && vvTried[slot] != -1
      modifies this
      ensures Inv(h, S(), {nId}, {nId}) && Kept(old(S()), S()) && lastGood == old(lastGood) && timed == old(timed)
      ensures vvTried == old(vvTried)[slot := -1] && triedCollisions == old(triedCollisions)
        && nIdCount == old(nIdCount)
      ensures nId in mapInfo && mapInfo[nId] == old(mapInfo)[nId].(nRandomPos := mapInfo[nId].nRandomPos)
      ensures Demoted(h, old(S()), S(), old(vvTried)[slot])
    {
      hide Inv, Kept, Reduced, Bump, NewSlot, NewBucket, Demoted;
      ghost var c := S();
      Sizes(h, c, {nId}, {nId});
      var nIdEvict := vvTried[slot];
      OccupantTried(h, c, slot, {nId}, {nId});
      EvictKeeps(h, c, slot, {nId}, {nId});
      mapInfo := mapInfo[nIdEvict := mapInfo[nIdEvict].(fInTried := false)];
      vvTried := vvTried[slot := -1];
      nTried := nTried - 1;
      networkCounts := Bump(networkCounts, mapInfo[nIdEvict].addr.network, 0, -1);
      ghost var d := S();
      assert d == Evicted(c, slot);
      OccupantHome(h, d, nIdEvict, {nId} + {nIdEvict}, {nId} + {nIdEvict});
      Reenter(nIdEvict, nId);
      KeptTransitive(c, d, S());
      DemotedBefore(h, c, d, S(), nIdEvict);
    }

    /** The evicted entry enters the new table again. */
    method Reenter(nIdEvict: int, ghost nId: int)
      requires Inv(h, S(), {nId} + {nIdEvict}, {nId} + {nIdEvict}) && nId != nIdEvict
      requires nId in mapInfo && mapInfo[nId].nRefCount == 0
      requires nIdEvict in mapInfo && !mapInfo[nIdEvict].fInTried && mapInfo[nIdEvict].nRefCount == 0
      modifies this
      ensures Inv(h, S(), {nId}, {nId}) && Kept(old(S()), S()) && lastGood == old(lastGood) && timed == old(timed)
      ensures vvTried == old(vvTried) && triedCollisions == old(triedCollisions) && nIdCount == old(nIdCount)
      ensures nId in mapInfo && mapInfo[nId] == old(mapInfo)[nId].(nRandomPos := mapInfo[nId].nRandomPos)
      ensures Demoted(h, old(S()), S(), nIdEvict)
    {
      hide Inv, Kept, Reduced, Bump, NewSlot, NewBucket, Released, Demoted;
      ghost var limbo := {nId} + {nIdEvict};
      ghost var d := S();
      Sizes(h, d, limbo, limbo);
      var bucket := NewBucket(h, mapInfo[nIdEvict].addr, mapInfo[nIdEvict].source);
      var newSlot := NewSlot(h, mapInfo[nIdEvict].addr, bucket);
      OccupantNew(h, d, newSlot, limbo, limbo);
      ClearNew(newSlot, limbo, limbo);
      ghost var e := S();
      ReducedEntry(d, e, d.vvNew[newSlot], nIdEvict);
      ReducedEntry(d, e, d.vvNew[newSlot], nId);
      ReducedRest(d, e, d.vvNew[newSlot]);
      FillKeeps(h, e, newSlot, nIdEvict, limbo, limbo);
      CountNewKeeps(h, SlotFilled(e, newSlot, nIdEvict), nIdEvict, limbo - {nIdEvict}, limbo);
      mapInfo := mapInfo[nIdEvict := mapInfo[nIdEvict].(nRefCount := 1)];
      vvNew := vvNew[newSlot := nIdEvict];
      nNew := nNew + 1;
      networkCounts := Bump(networkCounts, mapInfo[nIdEvict].addr.network, 1, 0);
      assert limbo - {nIdEvict} == {nId};
      assert S() == CountNew(SlotFilled(e, newSlot, nIdEvict), nIdEvict);
      KeptTransitive(d, e, SlotFilled(e, newSlot, nIdEvict));
      KeptTransitive(d, SlotFilled(e, newSlot, nIdEvict), S());
      IsDemoted(h, d, e, S(), nIdEvict);
    }

    /** The entry, by now in no table and not counted, enters its empty tried slot. */
    method EnterTried(slot: nat, nId: int)
      requires Inv(h, S(), {nId}, {nId}) && nId in mapInfo && !mapInfo[nId].fInTried && mapInfo[nId].nRefCount == 0
      requires (timed ==> mapInfo[nId].lastSuccess > 0) && slot == TriedSlot(h, mapInfo[nId].addr)
        && vvTried[slot] == -1
      modifies this`vvTried, this`nTried, this`mapInfo, this`networkCounts
      ensures Inv(h, S(), {}, {}) && Kept(old(S()), S())
      ensures mapInfo == old(mapInfo)[nId := old(mapInfo)[nId].(fInTried := true)]
        && vvTried == old(vvTried)[slot := nId]
    {
      hide Inv, Kept, Bump, TriedSlot;
      Sizes(h, S(), {nId}, {nId});
      PromoteKeeps(h, S(), nId, {nId}, {nId});
      assert {nId} - {nId} == {};
      vvTried := vvTried[slot := nId];
      nTried := nTried + 1;
      mapInfo := mapInfo[nId := mapInfo[nId].(fInTried := true)];
      networkCounts := Bump(networkCounts, mapInfo[nId].addr.network, 0, 1);
    }

    /** The entry leaves the new table and its count. */
    method LeaveNew(nId: int)
      requires Inv(h, S(), {}, {}) && nId in mapInfo && !mapInfo[nId].fInTried
      modifies this`vvNew, this`mapInfo, this`nNew, this`networkCounts
      ensures Inv(h, S(), {nId}, {nId}) && Kept(old(S()), S())
      ensures mapInfo == old(mapInfo)[nId := old(mapInfo)[nId].(nRefCount := 0)] && vvNew == Without(old(vvNew), nId)
    {
      hide Inv, Kept, Bump;
      ghost var c := S();
      RemoveFromNew(nId);
      ghost var d := S();
      UncountKeeps(h, d, nId, {nId}, {});
      KeptTransitive(c, d, Uncount(d, nId));
      assert {} + {nId} == {nId};
      nNew := nNew - 1;
      networkCounts := Bump(networkCounts, mapInfo[nId].addr.network, -1, 0);
    }

    method MakeTried(nId: int)
      requires Inv(h, S(), {}, {}) && nId in mapInfo && !mapInfo[nId].fInTried
        && (timed ==> mapInfo[nId].lastSuccess > 0)
      modifies this
      ensures Inv(h, S(), {}, {}) && Onward(old(S()), S()) && lastGood == old(lastGood) && timed == old(timed)
      ensures triedCollisions == old(triedCollisions) && nIdCount == old(nIdCount)
      ensures Replaces(h, old(S()), S(), nId, TriedSlot(h, old(mapInfo)[nId].addr))
    {
      hide Inv, Kept, TriedSlot, Demoted, Spared, Without;
      ghost var c := S();
      Sizes(h, c, {}, {});
      LeaveNew(nId);
      ghost var e := S();
      var slot := TriedSlot(h, mapInfo[nId].addr);
      if vvTried[slot] != -1 {
        MakeSpace(slot, nId);
        KeptTransitive(c, e, S());
      }
      ghost var f := S();
      EnterTried(slot, nId);
      KeptTransitive(c, f, S());
      assert vvTried == c.vvTried[slot := nId];
      SparedSelf(f.mapInfo);
      HasReplaced(h, c, e, f, S(), nId, slot);
    }

    /** Change the statistics of an entry. */
    method Update(nId: int, info: Info)
      requires Valid() && nId in mapInfo
      requires info == mapInfo[nId].(nTime := info.nTime, services := info.services, lastTry := info.lastTry,
        lastCountAttempt := info.lastCountAttempt, lastSuccess := info.lastSuccess, nAttempts := info.nAttempts)
      requires timed ==> InTime(info)
      modifies this`mapInfo
      ensures Valid() && Onward(old(S()), S()) && mapInfo == old(mapInfo)[nId := info]
    {
      hide Inv, Kept, Colliding;
      DetailKeeps(h, S(), nId, info);
      OnwardColliding(h, S(), S().(mapInfo := mapInfo[nId := info]));
      mapInfo := mapInfo[nId := info];
    }

    /** The last part of AddSingle: put the entry, which may still be in no table, into the bucket for the source. */
    method PlaceNew(nId: int, source: Addr, now: int) returns (fInsert: bool)
      requires Inv(h, S(), {nId}, {}) && nId in mapInfo && !mapInfo[nId].fInTried
        && mapInfo[nId].nRefCount < NEW_BUCKETS_PER_ADDRESS
      modifies this
      ensures Inv(h, S(), {}, {}) && Kept(old(S()), S()) && lastGood == old(lastGood) && timed == old(timed)
      ensures vvTried == old(vvTried) && triedCollisions == old(triedCollisions) && nIdCount == old(nIdCount)
      ensures Placement(h, old(S()), S(), nId, source, now, fInsert)
    {
      hide Inv, Kept, Reduced, Bump, NewSlot, NewBucket, IsTerrible, Released, Spared;
      ghost var c := S();
      Sizes(h, c, {nId}, {});
      ReducedSelf(c, nId);
      ReducedSpares(c, c, nId);
      var addr := mapInfo[nId].addr;
      var slot := NewSlot(h, addr, NewBucket(h, addr, source));
      OccupantNew(h, c, slot, {nId}, {});
      fInsert := vvNew[slot] == -1;
      if vvNew[slot] != nId {
        if !fInsert {
          var existing := mapInfo[vvNew[slot]];
          if IsTerrible(existing, now) || (existing.nRefCount > 1 && mapInfo[nId].nRefCount == 0) {
            fInsert := true;
          }
        }
        if fInsert {
          ClearNew(slot, {nId}, {});
          ghost var e := S();
          SlotTaken(h, c, e, slot, nId);
          mapInfo := mapInfo[nId := mapInfo[nId].(nRefCount := mapInfo[nId].nRefCount + 1)];
          vvNew := vvNew[slot := nId];
        } else if mapInfo[nId].nRefCount == 0 {
          Delete(nId, {nId}, {});
          ReducedRest(c, S(), nId);
          ReducedSpares(c, S(), nId);
          assert {nId} - {nId} == {};
        } else {
          assert {} + {nId} == {nId};
          NotInLimbo(h, c, {}, nId, {});
        }
      } else {
        assert {} + {nId} == {nId};
        NotInLimbo(h, c, {}, nId, {});
      }
    }

    /** Add one address to the new table. lucky is the outcome of the stochastic test, now the clock. */
    method AddSingle(addr: Addr, nTime: int, services: set<nat>, source: Addr, penalty: int, now: int, lucky: bool)
      returns (fInsert: bool)
      requires Valid()
      modifies this
      ensures Valid() && Onward(old(S()), S()) && lastGood == old(lastGood) && timed == old(timed)
      ensures vvTried == old(vvTried) && triedCollisions == old(triedCollisions)
      ensures fInsert <==> Inserts(h, old(S()), addr, nTime, source, penalty, now, lucky)
      ensures fInsert ==> Inserted(h, old(S()), S(), addr, nTime, services, source, penalty)
      ensures !fInsert ==> vvNew == old(vvNew) && mapAddr == old(mapAddr)
    {
      hide Inv, Kept, Colliding, Placement, Inserts, Inserted, Prepared, GoesOn, Onward;
      ghost var c := S();
      if !addr.routable {
        OnwardSelf(c);
        NotInserted(h, c, addr, nTime, source, penalty, now, lucky);
        return false;
      }
      var nId := Prepare(addr, nTime, services, source, penalty, now, lucky);
      if nId.None? {
        NotInserted(h, c, addr, nTime, source, penalty, now, lucky);
        return false;
      }
      ghost var d := S();
      fInsert := PlaceNew(nId.value, source, now);
      KeptTransitive(c, d, S());
      SameTried(h, c, S());
      InsertedFacts(h, c, d, S(), nId.value, addr, nTime, services, source, penalty, now, lucky, fInsert);
    }

    /** The first part of AddSingle: a known address is refreshed and may go no further, an unknown one is created. */
    method Prepare(addr: Addr, nTime: int, services: set<nat>, source: Addr, penalty: int, now: int, lucky: bool)
      returns (nId: Option<int>)
      requires Valid()
      modifies this
      ensures vvTried == old(vvTried) && triedCollisions == old(triedCollisions) && vvNew == old(vvNew)
      ensures lastGood == old(lastGood) && timed == old(timed) && Kept(old(S()), S())
      ensures nId.Some? <==> GoesOn(old(S()), addr, nTime, TimePenalty(addr, source, penalty), now, lucky)
      ensures nId.None? ==> Valid() && Onward(old(S()), S()) && mapAddr == old(mapAddr)
      ensures nId.Some? ==>
        (&& Inv(h, S(), {nId.value}, {})
          && Prepared(old(S()), S(), nId.value, addr, nTime, services, source, penalty, now)
         && nId.value in mapInfo && !mapInfo[nId.value].fInTried
           && mapInfo[nId.value].nRefCount < NEW_BUCKETS_PER_ADDRESS)
    {
      hide Inv, Kept, Colliding, Bump, Onward, Indexed;
      IsIndexed(h, S());
      var found := Find(addr);
      if found.Some? {
        var go := Refresh(found.value, nTime, services, TimePenalty(addr, source, penalty), now, lucky);
        OnwardKept(old(S()), S());
        if !go {
          return None;
        }
        MoreLimbo(h, S(), {}, found.value, {});
        assert {} + {found.value} == {found.value};
        return Some(found.value);
      }
      var created := Create(addr, source, Max(0, nTime - TimePenalty(addr, source, penalty)), services);
      return Some(created);
    }

    /** What AddSingle does with a known address before deciding whether to give it another place. */
    method Refresh(nId: int, nTime: int, services: set<nat>, timePenalty: int, now: int, lucky: bool) returns (go: bool)
      requires Valid() && nId in mapInfo
      modifies this`mapInfo
      ensures Valid() && Onward(old(S()), S()) && mapInfo.Keys == old(mapInfo).Keys
        && mapInfo[nId].addr == old(mapInfo)[nId].addr
      ensures mapInfo == old(mapInfo)[nId := Refreshed(old(mapInfo)[nId], nTime, services, timePenalty, now)]
      ensures go <==>
        nTime > mapInfo[nId].nTime && !mapInfo[nId].fInTried && mapInfo[nId].nRefCount < NEW_BUCKETS_PER_ADDRESS
          && lucky
      ensures go ==> mapInfo[nId].nRefCount > 0
    {
      hide Inv, Kept, Colliding;
      ValidParts(h, S());
      var info := mapInfo[nId];
      var updateInterval := if now - nTime < 24 * HOUR then HOUR else 24 * HOUR;
      if info.nTime < nTime - updateInterval - timePenalty {
        info := info.(nTime := Max(0, nTime - timePenalty));
      }
      info := info.(services := info.services + services);
      Update(nId, info);
      if nTime <= info.nTime || info.fInTried || info.nRefCount == NEW_BUCKETS_PER_ADDRESS {
        return false;
      }
      if info.nRefCount > 0 && !lucky {
        return false;
      }
      return true;
    }

    /** Record a success, and move the entry to the tried table unless it is there or, if asked, its slot is taken. */
    method Good(addr: Addr, testBeforeEvict: bool, time: int) returns (moved: bool)
      requires Valid()
      modifies this
      ensures Valid() && Onward(old(S()), S()) && lastGood == time
      ensures GoodOutcome(h, old(S()), S(), addr, testBeforeEvict, time, moved)
      ensures timed == (old(timed) && GoodTime(h, old(S()), addr, testBeforeEvict, time))
      ensures old(timed) ==> (timed <==> Timed(mapInfo))
    {
      hide Inv, Kept, Colliding, TriedSlot, Timed, InTime, Onward, Indexed, Replaces, GoodOutcome;
      ghost var c := S();
      IsIndexed(h, c);
      lastGood := time;
      var found := Find(addr);
      if found.None? {
        TimedIs(h, c);
        OnwardSelf(c);
        NotFound(h, c, addr, testBeforeEvict, time);
        return false;
      }
      var nId := found.value;
      RecordSuccess(nId, time);
      ghost var d := S();
      IsIndexed(h, d);
      EntryPlaced(h, d, nId);
      if mapInfo[nId].fInTried {
        Unmoved(h, c, d, addr, testBeforeEvict, time);
        return false;
      }
      if !(mapInfo[nId].nRefCount > 0) {
        return false;
      }
      var slot := TriedSlot(h, addr);
      if testBeforeEvict && vvTried[slot] != -1 {
        NoteCollision(nId);
        OnwardTransitive(c, d, S());
        Unmoved(h, c, S(), addr, testBeforeEvict, time);
        return false;
      }
      MoveToTried(nId, time);
      OnwardTransitive(c, d, S());
      Moved(h, c, d, S(), addr, testBeforeEvict, time);
      return true;
    }

    /** Remember that the entry collides, unless there are too many such already. */
    method NoteCollision(nId: int)
      requires Valid() && nId in mapInfo && |vvTried| == TRIED_SIZE && vvTried[TriedSlot(h, mapInfo[nId].addr)] != -1
      modifies this`triedCollisions
      ensures Valid() && Onward(old(S()), S())
      ensures triedCollisions == if |old(triedCollisions)| < SET_TRIED_COLLISION_SIZE then old(triedCollisions) + {nId}
        else old(triedCollisions)
    {
      hide Inv, Kept, Colliding, TriedSlot;
      ReducedSelf(S(), -1);
      if |triedCollisions| < SET_TRIED_COLLISION_SIZE {
        ghost var c := S();
        MoreColliding(h, c, nId);
        triedCollisions := triedCollisions + {nId};
      }
    }

    method RecordSuccess(nId: int, time: int)
      requires Valid() && nId in mapInfo
      modifies this`mapInfo, this`timed
      ensures Valid() && Onward(old(S()), S())
      ensures mapInfo == Recorded(old(mapInfo), nId, time)
      ensures timed == (old(timed) && TimeOk(time, mapInfo[nId].fInTried))
        && (old(timed) ==> (timed <==> Timed(mapInfo)))
    {
      hide Inv, Kept, Colliding, Timed;
      ghost var c := S();
      LessTimed(h, c, timed && TimeOk(time, mapInfo[nId].fInTried));
      timed := timed && TimeOk(time, mapInfo[nId].fInTried);
      ghost var b := S();
      Update(nId, mapInfo[nId].(lastSuccess := time, lastTry := time, nAttempts := 0));
      OnwardTransitive(c, b, S());
      TimedIs(h, S());
      NotTimed(S(), nId);
    }

    method MoveToTried(nId: int, time: int)
      requires Valid() && nId in mapInfo && !mapInfo[nId].fInTried
      requires mapInfo[nId].lastSuccess == time && mapInfo[nId].lastTry == time
      modifies this
      ensures Valid() && Onward(old(S()), S()) && lastGood == old(lastGood) && triedCollisions == old(triedCollisions)
      ensures var addr := old(mapInfo)[nId].addr;
        addr in mapAddr && mapAddr[addr] == nId && Replaces(h, old(S()), S(), nId, TriedSlot(h, addr))
      ensures timed == (old(timed) && TimeOk(time, true)) && (timed ==> Timed(mapInfo))
        && (!TimeOk(time, true) ==> !Timed(mapInfo))
    {
      hide Inv, Kept, Colliding, TriedSlot, Timed;
      ghost var c := S();
      LessTimed(h, c, timed && TimeOk(time, true));
      timed := timed && TimeOk(time, true);
      ghost var b := S();
      MakeTried(nId);
      OnwardTransitive(c, b, S());
      OnwardColliding(h, b, S());
      KnownAddress(h, S(), nId);
      TimedIs(h, S());
      NotTimed(S(), nId);
    }

    method Attempt(addr: Addr, fCountFailure: bool, time: int)
      requires Valid()
      modifies this`mapInfo, this`timed
      ensures Valid() && Onward(old(S()), S()) && timed == (old(timed) && (addr in mapAddr ==> time >= 0))
      ensures addr !in mapAddr ==> mapInfo == old(mapInfo)
      ensures addr in mapAddr ==>
        (var id := mapAddr[addr];
         && id in old(mapInfo)
         && var info := old(mapInfo)[id]; var counts := fCountFailure && info.lastCountAttempt < lastGood;
            mapInfo == old(mapInfo)[id := info.(lastTry := time,
              lastCountAttempt := if counts then time else info.lastCountAttempt,
                                                nAttempts := info.nAttempts + if counts then 1 else 0)])
      ensures old(timed) ==> (timed <==> Timed(mapInfo))
    {
      hide Inv, Kept, Colliding, Timed;
      ghost var c := S();
      IsIndexed(h, c);
      OnwardSelf(c);
      TimedIs(h, c);
      var found := Find(addr);
      if found.Some? {
        EntryInTime(h, c, found.value);
        var info := mapInfo[found.value].(lastTry := time);
        if fCountFailure && info.lastCountAttempt < lastGood {
          info := info.(lastCountAttempt := time, nAttempts := info.nAttempts + 1);
        }
        LessTimed(h, c, timed && time >= 0);
        timed := timed && time >= 0;
        ghost var d := S();
        Update(found.value, info);
        OnwardTransitive(c, d, S());
        TimedIs(h, S());
        NotTimed(S(), found.value);
      }
    }

    method Connected(addr: Addr, time: int)
      requires Valid()
      modifies this`mapInfo
      ensures Valid() && Onward(old(S()), S())
      ensures var known := addr in mapAddr && mapAddr[addr] in old(mapInfo);
        mapInfo == if known && time - old(mapInfo)[mapAddr[addr]].nTime > 20 * MINUTE
                   then old(mapInfo)[mapAddr[addr] := old(mapInfo)[mapAddr[addr]].(nTime := time)] else old(mapInfo)
    {
      hide Inv, Kept, Colliding;
      ReducedSelf(S(), -1);
      ValidParts(h, S());
      var found := Find(addr);
      if found.Some? && time - mapInfo[found.value].nTime > 20 * MINUTE {
        Update(found.value, mapInfo[found.value].(nTime := time));
      }
    }

    method SetServices(addr: Addr, services: set<nat>)
      requires Valid()
      modifies this`mapInfo
      ensures Valid() && Onward(old(S()), S())
      ensures mapInfo == if addr in mapAddr && mapAddr[addr] in old(mapInfo)
                         then old(mapInfo)[mapAddr[addr] := old(mapInfo)[mapAddr[addr]].(services := services)]
                           else old(mapInfo)
    {
      hide Inv, Kept, Colliding;
      ReducedSelf(S(), -1);
      ValidParts(h, S());
      var found := Find(addr);
      if found.Some? {
        Update(found.value, mapInfo[found.value].(services := services));
      }
    }

    /** Each pending collision, in order of the ids, is dropped, resolved by replacing the old entry, or left for later.
        clock gives the time at each of them, states the state before each id and the last. */
    method ResolveCollisions(clock: nat -> int) returns (ghost states: seq<Core>)
      requires Valid()
      modifies this
      ensures Valid() && Onward(old(S()), S()) && old(nIdCount) >= 0
      ensures |states| == old(nIdCount) + 1 && states[0] == old(S()) && states[old(nIdCount)] == S()
      ensures forall i | 0 <= i < old(nIdCount) :: ResolveStep(h, states[i], states[i+1], i, clock(i))
      ensures forall i | 0 <= i <= old(nIdCount) :: Inv(h, states[i], {}, {})
      ensures forall id :: id in triedCollisions <==>
        id in old(triedCollisions) && 0 <= id < old(nIdCount) && VerdictOn(h, states[id], id, clock(id)).Wait?
      ensures timed == old(timed)
    {
      hide Inv, Kept, Colliding, TriedSlot, VerdictOn, Onward, ResolveStep;
      ghost var c := S();
      OnwardSelf(c);
      CollisionIds(h, c);
      Sizes(h, c, {}, {});
      var last := nIdCount;
      states := [c];
      for idNew := 0 to last
        invariant Valid() && Onward(c, S()) && |states| == idNew + 1 && states[0] == c && states[idNew] == S()
        invariant forall i | 0 <= i < idNew :: ResolveStep(h, states[i], states[i+1], i, clock(i))
        invariant forall i | 0 <= i <= idNew :: Inv(h, states[i], {}, {})
        invariant forall id :: id in triedCollisions <==>
          id in c.collisions && (0 <= id < idNew ==> VerdictOn(h, states[id], id, clock(id)).Wait?)
        invariant timed == c.timed
      {
        ghost var d := S();
        ResolveId(idNew, clock(idNew));
        OnwardTransitive(c, d, S());
        states := states + [S()];
      }
    }

    /** One round of the loop: an id that is not pending is passed over. */
    method ResolveId(idNew: int, currentTime: int)
      requires Valid()
      modifies this
      ensures Valid() && Onward(old(S()), S()) && ResolveStep(h, old(S()), S(), idNew, currentTime)
      ensures triedCollisions == old(triedCollisions) - (if VerdictOn(h, old(S()), idNew, currentTime).Wait? then {}
        else {idNew})
      ensures timed == old(timed)
    {
      hide Inv, Kept, Colliding, VerdictOn, Onward, ResolveStep, Resolved, Timed;
      ghost var d := S();
      OnwardSelf(d);
      if idNew in triedCollisions {
        if d.timed && VerdictOn(h, d, idNew, currentTime).Move? {
          MoveAfterEpoch(h, d, idNew, currentTime);
        }
        var erase := ResolveOne(idNew, currentTime);
        ghost var e := S();
        if erase {
          FewerColliding(h, e, idNew);
          triedCollisions := triedCollisions - {idNew};
          SameTable(e, idNew);
          OnwardTransitive(d, e, S());
        }
        StepResolved(h, d, e, S(), idNew, currentTime);
      } else {
        StepSkipped(h, d, idNew, currentTime);
      }
    }

    /** One pending collision: dropped, resolved by moving the new entry to the slot, or left for later. */
    method ResolveOne(idNew: int, currentTime: int) returns (eraseCollision: bool)
      requires Valid()
      modifies this
      ensures Valid() && Onward(old(S()), S()) && triedCollisions == old(triedCollisions)
      ensures eraseCollision <==> !VerdictOn(h, old(S()), idNew, currentTime).Wait?
      ensures Resolved(h, old(S()), S(), idNew, currentTime)
      ensures timed == (old(timed) && (VerdictOn(h, old(S()), idNew, currentTime).Move? ==> currentTime > 0))
      ensures old(timed) ==> (timed <==> Timed(mapInfo))
    {
      hide Inv, Kept, Colliding, TriedSlot, GoodOutcome, Onward, Indexed;
      ghost var c := S();
      OnwardSelf(c);
      ValidParts(h, c);
      if idNew !in mapInfo {
        return true;
      }
      KnownAddress(h, c, idNew);
      var infoNew := mapInfo[idNew];
      var slot := TriedSlot(h, infoNew.addr);
      if !infoNew.addr.valid {
        return true;
      }
      if vvTried[slot] != -1 {
        OccupantTried(h, c, slot, {}, {});
        var infoOld := mapInfo[vvTried[slot]];
        if currentTime - infoOld.lastSuccess < REPLACEMENT {
          return true;
        } else if currentTime - infoOld.lastTry < REPLACEMENT {
          if !(currentTime - infoOld.lastTry > 60) {
            return false;
          }
        } else if !(currentTime - infoNew.lastSuccess > TEST_WINDOW) {
          return false;
        }
      }
      var moved := Good(infoNew.addr, false, currentTime);
      OutcomeMoved(h, c, S(), infoNew.addr, currentTime, moved);
      return true;
    }

    /** The address to test, given the collision that chance picked: the entry looked up is always a tried one. */
    method SelectTriedCollision(pick: int) returns (r: Option<Info>)
      requires Valid() && (triedCollisions != {} ==> pick in triedCollisions)
      modifies this`triedCollisions
      ensures Valid() && Onward(old(S()), S())
      ensures r.Some? <==> triedCollisions != {} && pick in mapInfo
      ensures r.Some? ==>
        (var id := vvTried[TriedSlot(h, mapInfo[pick].addr)];
          id != -1 && id in mapInfo && mapInfo[id].fInTried && r.value == mapInfo[id])
      ensures triedCollisions ==
        if old(triedCollisions) != {} && pick !in mapInfo then old(triedCollisions) - {pick} else old(triedCollisions)
    {
      hide Inv, Kept, Colliding, TriedSlot;
      ghost var c := S();
      ReducedSelf(c, -1);
      ValidParts(h, c);
      if triedCollisions == {} {
        return None;
      }
      if pick !in mapInfo {
        FewerColliding(h, c, pick);
        triedCollisions := triedCollisions - {pick};
        return None;
      }
      var slot := TriedSlot(h, mapInfo[pick].addr);
      CollidesWith(h, c, pick);
      OccupantTried(h, c, slot, {}, {});
      return Some(mapInfo[vvTried[slot]]);
    }

    /** A random selection of addresses. rnd is the source of chance. */
    method GetAddr(maxAddresses: nat, maxPct: nat, network: Option<nat>, filtered: bool, now: int, rnd: nat -> nat)
      returns (addresses: seq<Addr>)
      requires Valid()
      modifies this`mapInfo, this`vRandom
      ensures Valid() && Onward(old(S()), S()) && |addresses| <= Wanted(|old(vRandom)|, maxAddresses, maxPct)
      ensures forall i, j | 0 <= i < j < |addresses| :: addresses[i] != addresses[j]
      ensures forall a | a in addresses :: a in mapAddr && Eligible(mapInfo[mapAddr[a]], network, filtered, now)
      ensures |addresses| < Wanted(|old(vRandom)|, maxAddresses, maxPct) ==>
        (forall a | a in mapAddr && Eligible(mapInfo[mapAddr[a]], network, filtered, now) :: a in addresses)
    {
      hide Inv, Kept, Colliding, Eligible, Reduced, Wanted, Passed;
      ghost var c := S();
      ReducedSelf(c, -1);
      NonePassed(h, c, network, filtered, now);
      var nNodes := Wanted(|vRandom|, maxAddresses, maxPct);
      addresses := [];
      var n := 0;
      while n < |vRandom|
        invariant Inv(h, S(), {}, {}) && Kept(c, S()) && Reduced(c, S(), -1)
        invariant 0 <= n <= |vRandom| == |c.vRandom| && |addresses| <= nNodes && Distinct(addresses)
        invariant forall a :: a in addresses <==> Passed(S(), n, a, network, filtered, now)
      {
        if |addresses| >= nNodes {
          break;
        }
        var pos := rnd(n) % (|vRandom| - n) + n;
        ghost var d := S();
        SwapRandom(n, pos, {}, {});
        ReducedTransitive(c, d, S(), -1);
        KeptTransitive(c, d, S());
        PassedNext(h, d, S(), n, network, filtered, now);
        var ai := mapInfo[vRandom[n]];
        if Eligible(ai, network, filtered, now) {
          addresses := addresses + [ai.addr];
        }
        n := n + 1;
      }
      ReducedOnward(c, S());
      OnwardColliding(h, c, S());
      PassedFacts(h, S(), n, network, filtered, now);
    }

    /** The code's own consistency check, in any state; keyIsNull is about the hash key. */
    method CheckAddrman(keyIsNull: bool) returns (err: int)
      requires |vvTried| == TRIED_SIZE && |vvNew| == NEW_SIZE
      ensures err == 0 <==> !keyIsNull && Checked(h, S())
    {
      hide EntriesFine, TriedFine, NewFine, TrueCounts, Networks, TriedIds, NewIds, CountsNew;
      if |vRandom| != nTried + nNew {
        return -7;
      }
      var setTried, mapNew, localCounts;
      err, setTried, mapNew, localCounts := CheckEntries();
      if err != 0 {
        return;
      }
      if |setTried| != nTried {
        return -9;
      }
      if |mapNew| != nNew {
        return -10;
      }
      err, setTried := CheckTriedTable(setTried);
      if err != 0 {
        return;
      }
      err, mapNew := CheckNewTable(mapNew);
      if err != 0 {
        return;
      }
      if |setTried| != 0 {
        return -13;
      }
      if |mapNew| != 0 {
        return -15;
      }
      if keyIsNull {
        return -16;
      }
      if |networkCounts| < |localCounts| {
        return -20;
      }
      var networks := networkCounts.Keys;
      while networks != {}
        invariant networks <= networkCounts.Keys
        invariant forall network | network in networkCounts && network !in networks ::
          networkCounts[network] == TrueCounts(mapInfo, network)
        decreases |networks|
      {
        var network := PickAny(networks);
        if CountsOf(localCounts, network) != networkCounts[network] {
          return -21;
        }
        networks := networks - {network};
      }
      return 0;
    }

    method CheckEntries() returns (err: int, setTried: set<int>, mapNew: map<int, int>, localCounts: map<nat, Counts>)
      ensures err == 0 <==> EntriesFine(S())
      ensures err == 0 ==>
        setTried == TriedIds(mapInfo) && |mapNew| == |NewIds(mapInfo)| && CountsNew(mapInfo, mapNew)
      ensures err == 0 ==> |localCounts| == |Networks(mapInfo, mapInfo.Keys)|
      ensures err == 0 ==> forall network :: CountsOf(localCounts, network) == TrueCounts(mapInfo, network)
    {
      hide EntryError, EntryFine, Bump, CountsNew, TriedIds, NewIds, Seen, TrueCounts, Networks, CountsOf;
      setTried, mapNew, localCounts := {}, map[], map[];
      var rest := mapInfo.Keys;
      assert mapInfo.Keys - rest == {};
      NothingSeen(S());
      while rest != {}
        invariant rest <= mapInfo.Keys && Seen(S(), mapInfo.Keys - rest, setTried, mapNew, localCounts)
        invariant forall id | id in mapInfo && id !in rest :: EntryFine(S(), id)
        decreases |rest|
      {
        var n := PickAny(rest);
        var info := mapInfo[n];
        EntryErrorIs(S(), n);
        OneDone(mapInfo.Keys, rest, n);
        err := EntryError(info, n, mapAddr, vRandom);
        if err != 0 {
          return;
        }
        if info.fInTried {
          SeenNextTried(S(), mapInfo.Keys - rest, setTried, mapNew, localCounts, n);
          setTried := setTried + {n};
          localCounts := Bump(localCounts, info.addr.network, 0, 1);
        } else {
          SeenNextNew(S(), mapInfo.Keys - rest, setTried, mapNew, localCounts, n);
          mapNew := mapNew[n := info.nRefCount];
          localCounts := Bump(localCounts, info.addr.network, 1, 0);
        }
        rest := rest - {n};
      }
      err := 0;
      assert mapInfo.Keys - rest == mapInfo.Keys;
      AllSeen(S(), setTried, mapNew, localCounts);
    }

    method CheckTriedTable(tried: set<int>) returns (err: int, setTried: set<int>)
      requires |vvTried| == TRIED_SIZE && tried == TriedIds(mapInfo)
      ensures err == 0 && setTried == {} <==> TriedFine(h, S())
    {
      hide TriedBucket, Position, TriedSlot, Holds, TriedFine, TriedIds;
      setTried := tried;
      NothingHeld(vvTried);
      for s := 0 to TRIED_SIZE
        invariant setTried == tried - Holds(vvTried, s)
        invariant forall i: nat | i < s :: TriedSlotFine(h, S(), i)
      {
        HoldsNext(vvTried, s);
        var id := vvTried[s];
        if id != -1 {
          if id !in setTried {
            if id in tried {
              MetTwice(h, S(), s);
            }
            NotFine(h, S(), s);
            return -11, setTried;
          }
          TriedKnown(mapInfo, id);
          SlotParts(h, mapInfo[id].addr, s);
          if id !in mapInfo || TriedBucket(h, mapInfo[id].addr) != s / BUCKET_SIZE {
            NotFine(h, S(), s);
            return -17, setTried;
          }
          if Position(h, mapInfo[id].addr, false, s / BUCKET_SIZE) != s % BUCKET_SIZE {
            NotFine(h, S(), s);
            return -18, setTried;
          }
          setTried := setTried - {id};
        }
      }
      TriedLeft(h, S());
      return 0, setTried;
    }

    method CheckNewTable(news: map<int, int>) returns (err: int, mapNew: map<int, int>)
      requires |vvNew| == NEW_SIZE && EntriesFine(S()) && CountsNew(mapInfo, news)
      ensures err == 0 && |mapNew| == 0 <==> NewFine(h, S())
    {
      hide EntriesFine, CountsNew, Position, NewSlot, LeftAt, NewFine, NewIds;
      mapNew := news;
      AllLeft(S(), news);
      for s := 0 to NEW_SIZE
        invariant LeftAt(S(), s, mapNew)
        invariant forall i: nat | i < s :: NewSlotFine(h, S(), i)
      {
        LeftNext(S(), s, mapNew);
        var id := vvNew[s];
        if id != -1 {
          if id !in mapNew {
            MetTooOften(h, S(), s, mapNew);
            return -12, mapNew;
          }
          LeftKnown(S(), s, mapNew, id);
          NewSlotParts(h, mapInfo[id].addr, s);
          if id !in mapInfo || Position(h, mapInfo[id].addr, true, s / BUCKET_SIZE) != s % BUCKET_SIZE {
            NotFineNew(h, S(), s);
            return -19, mapNew;
          }
          ghost var before := mapNew;
          mapNew := mapNew[id := mapNew[id] - 1];
          if mapNew[id] == 0 {
            mapNew := mapNew - {id};
          }
          assert mapNew == Less(before, id);
        }
      }
      NewLeft(h, S(), mapNew);
      return 0, mapNew;
    }
  }

  method PickAny<T(==)>(s: set<T>) returns (x: T)
    requires s != {}
    ensures x in s
  {
    x :| x in s;
  }

  ghost predicate Distinct(s: seq<Addr>) {
    forall i, j | 0 <= i < j < |s| :: s[i] != s[j]
  }

  /** a is the address of an eligible entry among the first n of vRandom. */
  ghost predicate Passed(c: Core, n: nat, a: Addr, network: Option<nat>, filtered: bool, now: int) {
    && a in c.mapAddr && c.mapAddr[a] in c.mapInfo
    && c.mapInfo[c.mapAddr[a]].nRandomPos < n && Eligible(c.mapInfo[c.mapAddr[a]], network, filtered, now)
  }

  lemma NonePassed(h: Hashes, c: Core, network: Option<nat>, filtered: bool, now: int)
    requires Inv(h, c, {}, {})
    ensures forall a :: !Passed(c, 0, a, network, filtered, now)
  {
    forall a ensures !Passed(c, 0, a, network, filtered, now) {
      if a in c.mapAddr {
        InRandom(h, c, c.mapAddr[a], {}, {});
      }
    }
  }

  lemma PassedSame(h: Hashes, c: Core, d: Core, n: nat, a: Addr, network: Option<nat>, filtered: bool, now: int)
    requires Inv(h, c, {}, {}) && Inv(h, d, {}, {}) && Reduced(c, d, -1) && d.mapAddr == c.mapAddr
    requires n <= |c.vRandom| == |d.vRandom| && forall i | 0 <= i < n :: d.vRandom[i] == c.vRandom[i]
    ensures Passed(d, n, a, network, filtered, now) <==> Passed(c, n, a, network, filtered, now)
  {
    if a in c.mapAddr {
      var id := c.mapAddr[a];
      assert id in c.mapInfo && id in d.mapInfo && id != -1;
      var p, q := c.mapInfo[id].nRandomPos, d.mapInfo[id].nRandomPos;
      assert c.vRandom[p] == id && d.vRandom[q] == id;
      assert p < n ==> d.mapInfo[d.vRandom[p]].nRandomPos == p;
      assert q < n ==> c.mapInfo[c.vRandom[q]].nRandomPos == q;
    }
  }

  /** A swap beyond the first n entries, and one entry more. */
  lemma PassedNext(h: Hashes, c: Core, d: Core, n: nat, network: Option<nat>, filtered: bool, now: int)
    requires Inv(h, c, {}, {}) && Inv(h, d, {}, {}) && Reduced(c, d, -1) && d.mapAddr == c.mapAddr
    requires n < |c.vRandom| == |d.vRandom| && forall i | 0 <= i < n :: d.vRandom[i] == c.vRandom[i]
    ensures d.vRandom[n] in d.mapInfo && !Passed(c, n, d.mapInfo[d.vRandom[n]].addr, network, filtered, now)
    ensures forall a :: Passed(d, n + 1, a, network, filtered, now) <==>
      (Passed(c, n, a, network, filtered, now)
        || (a == d.mapInfo[d.vRandom[n]].addr && Eligible(d.mapInfo[d.vRandom[n]], network, filtered, now)))
  {
    hide Passed, Eligible, InNew, InTried, Placed, Counted, Clocked, Indexed, Reduced;
    forall a ensures Passed(d, n, a, network, filtered, now) <==> Passed(c, n, a, network, filtered, now) {
      PassedSame(h, c, d, n, a, network, filtered, now);
    }
    PassedOne(d, n, network, filtered, now);
  }

  lemma PassedOne(d: Core, n: nat, network: Option<nat>, filtered: bool, now: int)
    requires Indexed(d) && n < |d.vRandom|
    ensures d.vRandom[n] in d.mapInfo && !Passed(d, n, d.mapInfo[d.vRandom[n]].addr, network, filtered, now)
    ensures forall a :: Passed(d, n + 1, a, network, filtered, now) <==>
      (Passed(d, n, a, network, filtered, now)
        || (a == d.mapInfo[d.vRandom[n]].addr && Eligible(d.mapInfo[d.vRandom[n]], network, filtered, now)))
  {
    hide Eligible;
    var id := d.vRandom[n];
    assert d.mapInfo[id].nRandomPos == n && d.mapAddr[d.mapInfo[id].addr] == id;
    forall a ensures Passed(d, n + 1, a, network, filtered, now) <==>
      (Passed(d, n, a, network, filtered, now)
        || (a == d.mapInfo[id].addr && Eligible(d.mapInfo[id], network, filtered, now)))
    {
      if a in d.mapAddr && d.mapInfo[d.mapAddr[a]].nRandomPos == n {
        assert d.vRandom[n] == d.mapAddr[a];
      }
    }
  }

  lemma PassedFacts(h: Hashes, c: Core, n: nat, network: Option<nat>, filtered: bool, now: int)
    requires Inv(h, c, {}, {})
    ensures forall a | Passed(c, n, a, network, filtered, now) ::
      a in c.mapAddr && c.mapAddr[a] in c.mapInfo && Eligible(c.mapInfo[c.mapAddr[a]], network, filtered, now)
    ensures n >= |c.vRandom| ==>
      forall a | a in c.mapAddr && Eligible(c.mapInfo[c.mapAddr[a]], network, filtered, now) ::
        Passed(c, n, a, network, filtered, now)
  {
    if n >= |c.vRandom| {
      forall a | a in c.mapAddr && Eligible(c.mapInfo[c.mapAddr[a]], network, filtered, now)
        ensures Passed(c, n, a, network, filtered, now) {
        InRandom(h, c, c.mapAddr[a], {}, {});
      }
    }
  }

  function Wanted(n: nat, maxAddresses: nat, maxPct: nat): nat {
    var share := if maxPct != 0 then (if maxPct < 100 then maxPct else 100) * n / 100 else n;
    if maxAddresses != 0 && maxAddresses < share then maxAddresses else share
  }

  predicate Eligible(info: Info, network: Option<nat>, filtered: bool, now: int) {
    (network.Some? ==> info.addr.netClass == network.value) && !(IsTerrible(info, now) && filtered)
  }

  lemma ReducedOnward(c: Core, d: Core)
    requires Reduced(c, d, -1) && Kept(c, d)
    ensures Onward(c, d) && d.collisions == c.collisions
  {
  }

  lemma CollisionIds(h: Hashes, c: Core)
    requires Colliding(h, c)
    ensures forall id | id in c.collisions :: 0 <= id < c.nIdCount
  {
  }

  lemma FewerColliding(h: Hashes, c: Core, id: int)
    requires Inv(h, c, {}, {}) && Colliding(h, c)
    ensures var d := c.(collisions := c.collisions - {id}); Inv(h, d, {}, {}) && Colliding(h, d) && Onward(c, d)
  {
  }

  lemma CollidesWith(h: Hashes, c: Core, id: int)
    requires Inv(h, c, {}, {}) && Colliding(h, c) && id in c.collisions && id in c.mapInfo
    ensures c.vvTried[TriedSlot(h, c.mapInfo[id].addr)] != -1
  {
  }

  /** A pending entry moves only after the success of the one in its slot, which was after the epoch. */
  lemma MoveAfterEpoch(h: Hashes, c: Core, id: int, time: int)
    requires Inv(h, c, {}, {}) && Colliding(h, c) && c.timed && id in c.collisions
    requires VerdictOn(h, c, id, time).Move?
    ensures time > 0
  {
    hide Inv, Colliding, Indexed, TriedSlot;
    ValidParts(h, c);
    CollidesWith(h, c, id);
    OccupantTried(h, c, TriedSlot(h, c.mapInfo[id].addr), {}, {});
  }

  lemma MoreColliding(h: Hashes, c: Core, id: int)
    requires Inv(h, c, {}, {}) && Colliding(h, c) && id in c.mapInfo
      && c.vvTried[TriedSlot(h, c.mapInfo[id].addr)] != -1
    requires |c.collisions| < SET_TRIED_COLLISION_SIZE
    ensures var d := c.(collisions := c.collisions + {id}); Inv(h, d, {}, {}) && Colliding(h, d) && Kept(c, d)
  {
    hide Inv, Colliding, Kept, TriedSlot;
    Sizes(h, c, {}, {});
    OtherCollisions(h, c, c.collisions + {id});
    CollidingMore(h, c, id);
  }

  lemma CollidingMore(h: Hashes, c: Core, id: int)
    requires Colliding(h, c) && id in c.mapInfo && 0 <= id < c.nIdCount && |c.collisions| < SET_TRIED_COLLISION_SIZE
    requires c.vvTried[TriedSlot(h, c.mapInfo[id].addr)] != -1
    ensures var d := c.(collisions := c.collisions + {id}); Colliding(h, d) && Kept(c, d)
  {
    hide TriedSlot;
  }

  /** The pending collisions do not bear on the rest of the invariant. */
  lemma OtherCollisions(h: Hashes, c: Core, collisions: set<int>)
    requires Inv(h, c, {}, {})
    ensures Inv(h, c.(collisions := collisions), {}, {})
  {
    hide TriedSlot, NewSlot, Tally;
    assert Tally(c.(collisions := collisions), NewIds(c.mapInfo) - {}, TriedIds(c.mapInfo) - {}) by {
      TallyCollisions(c, collisions, NewIds(c.mapInfo) - {}, TriedIds(c.mapInfo) - {});
    }
  }

  lemma TallyCollisions(c: Core, collisions: set<int>, news: set<int>, trieds: set<int>)
    requires Tally(c, news, trieds)
    ensures Tally(c.(collisions := collisions), news, trieds)
  {
  }

  lemma KnownAddress(h: Hashes, c: Core, id: int)
    requires Inv(h, c, {}, {}) && id in c.mapInfo
    ensures c.mapInfo[id].addr in c.mapAddr && c.mapAddr[c.mapInfo[id].addr] == id
  {
  }

  lemma IsIndexed(h: Hashes, c: Core)
    requires Inv(h, c, {}, {})
    ensures Indexed(c) && |c.vvTried| == TRIED_SIZE
  {
  }

  lemma EntryPlaced(h: Hashes, c: Core, id: int)
    requires Inv(h, c, {}, {}) && id in c.mapInfo
    ensures c.mapInfo[id].fInTried || c.mapInfo[id].nRefCount > 0
  {
  }

  lemma EntryInTime(h: Hashes, c: Core, id: int)
    requires Inv(h, c, {}, {}) && id in c.mapInfo
    ensures c.timed ==> InTime(c.mapInfo[id])
  {
  }

  lemma ValidParts(h: Hashes, c: Core)
    requires Inv(h, c, {}, {})
    ensures Indexed(c) && |c.vvTried| == TRIED_SIZE
    ensures c.timed ==> forall id | id in c.mapInfo :: InTime(c.mapInfo[id])
    ensures forall id | id in c.mapInfo ::
      c.mapInfo[id].nRefCount <= NEW_BUCKETS_PER_ADDRESS && (c.mapInfo[id].fInTried || c.mapInfo[id].nRefCount > 0)
  {
  }

  /** Giving up on the timestamps changes nothing else. */
  lemma LessTimed(h: Hashes, c: Core, b: bool)
    requires Inv(h, c, {}, {}) && Colliding(h, c) && (b ==> c.timed)
    ensures var d := c.(timed := b); Inv(h, d, {}, {}) && Colliding(h, d) && Onward(c, d)
  {
  }

  lemma TimedIs(h: Hashes, c: Core)
    requires Inv(h, c, {}, {})
    ensures c.timed ==> Timed(c.mapInfo)
  {
  }

  lemma NotTimed(c: Core, id: int)
    requires id in c.mapInfo
    ensures !InTime(c.mapInfo[id]) ==> !Timed(c.mapInfo)
  {
  }

  lemma OccupantTried(h: Hashes, c: Core, s: nat, limbo: set<int>, uncounted: set<int>)
    requires Inv(h, c, limbo, uncounted) && s < TRIED_SIZE && c.vvTried[s] != -1
    ensures c.vvTried[s] in c.mapInfo && c.mapInfo[c.vvTried[s]].fInTried
  {
  }

  lemma OccupantNew(h: Hashes, c: Core, s: nat, limbo: set<int>, uncounted: set<int>)
    requires Inv(h, c, limbo, uncounted) && s < NEW_SIZE
    ensures c.vvNew[s] != -1 ==> c.vvNew[s] in c.mapInfo && c.mapInfo[c.vvNew[s]].nRefCount > 0
  {
    assert c.vvNew[s] in multiset(c.vvNew);
  }

  lemma ReducedRest(c: Core, d: Core, id: int)
    requires Reduced(c, d, id)
    ensures d.vvTried == c.vvTried && d.collisions == c.collisions && d.nIdCount == c.nIdCount
  {
  }

  /** The m-th bucket from start, round the table. */
  function BucketAt(start: nat, m: nat): (b: nat)
    ensures b < NEW_BUCKET_COUNT
  {
    (start + m) % NEW_BUCKET_COUNT
  }

  /** The slots of the first n buckets after start do not hold the id. */
  ghost predicate NotIn(h: Hashes, vvNew: seq<int>, id: int, addr: Addr, start: nat, n: nat)
  {
    |vvNew| == NEW_SIZE && forall m: nat | m < n :: vvNew[NewSlot(h, addr, BucketAt(start, m))] != id
  }

  lemma NotInNone(h: Hashes, vvNew: seq<int>, id: int)
    requires |vvNew| == NEW_SIZE
    ensures forall addr, start: nat :: NotIn(h, vvNew, id, addr, start, 0)
  {
  }

  lemma NotInNext(h: Hashes, vvNew: seq<int>, id: int, addr: Addr, start: nat, n: nat)
    requires NotIn(h, vvNew, id, addr, start, n) && id != -1
    ensures var slot := NewSlot(h, addr, BucketAt(start, n));
      && NotIn(h, vvNew[slot := -1], id, addr, start, n + 1)
      && (vvNew[slot] != id ==> NotIn(h, vvNew, id, addr, start, n + 1))
  {
  }

  /** Some places of id have been emptied. */
  ghost predicate Emptying(v: seq<int>, w: seq<int>, id: int) {
    |w| == |v| && forall s | 0 <= s < |v| :: w[s] == v[s] || (v[s] == id && w[s] == -1)
  }

  lemma EmptyingNone(v: seq<int>, id: int)
    ensures Emptying(v, v, id)
  {
  }

  lemma EmptyingNext(v: seq<int>, w: seq<int>, id: int, s: nat)
    requires Emptying(v, w, id) && s < |w| && w[s] == id && id != -1
    ensures Emptying(v, w[s := -1], id)
  {
  }

  lemma AllEmptied(h: Hashes, c: Core, v: seq<int>, id: int, limbo: set<int>)
    requires Inv(h, c, limbo, {}) && id in c.mapInfo && c.mapInfo[id].nRefCount == 0 && Emptying(v, c.vvNew, id)
    ensures c.vvNew == Without(v, id)
  {
    forall s | 0 <= s < |v| ensures c.vvNew[s] != id { assert c.vvNew[s] in multiset(c.vvNew); }
  }

  lemma AllVisited(h: Hashes, c: Core, id: int, start: nat, limbo: set<int>)
    requires Inv(h, c, limbo, {}) && id in c.mapInfo
      && NotIn(h, c.vvNew, id, c.mapInfo[id].addr, start, NEW_BUCKET_COUNT)
    requires start < NEW_BUCKET_COUNT
    ensures c.mapInfo[id].nRefCount == 0
  {
    forall s | 0 <= s < NEW_SIZE ensures c.vvNew[s] != id {
      var b := s / BUCKET_SIZE;
      var m := if b >= start then b - start else b - start + NEW_BUCKET_COUNT;
      assert BucketAt(start, m) == b;
    }
  }

  lemma MoreLimbo(h: Hashes, c: Core, limbo: set<int>, id: int, uncounted: set<int>)
    requires Inv(h, c, limbo, uncounted)
    ensures Inv(h, c, limbo + {id}, uncounted)
  {
  }

  /** All entries but id are as they were, except for their places in vRandom; only the new table's indexes changed. */
  ghost predicate Reduced(c: Core, d: Core, id: int) {
    && d.mapInfo.Keys <= c.mapInfo.Keys && d.vvTried == c.vvTried && d.collisions == c.collisions
      && d.nIdCount == c.nIdCount
    && forall x | x in c.mapInfo && x != id ::
      x in d.mapInfo && d.mapInfo[x] == c.mapInfo[x].(nRandomPos := d.mapInfo[x].nRandomPos)
  }

  lemma ReducedTransitive(c: Core, d: Core, e: Core, id: int)
    requires Reduced(c, d, id) && Reduced(d, e, id)
    ensures Reduced(c, e, id)
  {
  }

  lemma OnwardSelf(c: Core)
    ensures Onward(c, c)
  {
  }

  lemma ReducedSelf(c: Core, id: int)
    ensures Reduced(c, c, id) && Kept(c, c)
  {
  }

  lemma ReducedBy(c: Core, id: int, n: int, v: seq<int>)
    requires id in c.mapInfo
    ensures var d := c.(mapInfo := c.mapInfo[id := c.mapInfo[id].(nRefCount := n)], vvNew := v);
      Reduced(c, d, id) && Kept(c, d)
  {
  }

  lemma Sizes(h: Hashes, c: Core, limbo: set<int>, uncounted: set<int>)
    requires Inv(h, c, limbo, uncounted)
    ensures |c.vvNew| == NEW_SIZE && |c.vvTried| == TRIED_SIZE && -1 !in c.mapInfo && c.nIdCount >= 0
    ensures forall id | id in c.mapInfo :: 0 <= id < c.nIdCount && c.mapInfo[id].nRefCount >= 0
  {
  }

  lemma InRandom(h: Hashes, c: Core, id: int, limbo: set<int>, uncounted: set<int>)
    requires Inv(h, c, limbo, uncounted) && id in c.mapInfo
    ensures 0 <= c.mapInfo[id].nRandomPos < |c.vRandom| && c.vRandom[c.mapInfo[id].nRandomPos] == id && id >= 0
      && -1 !in c.mapInfo
  {
  }

  lemma ReducedEntry(c: Core, d: Core, id: int, x: int)
    requires Reduced(c, d, id) && x in c.mapInfo && x != id
    ensures x in d.mapInfo && d.mapInfo[x] == c.mapInfo[x].(nRandomPos := d.mapInfo[x].nRandomPos)
  {
  }

  lemma ReducedSwap(c: Core, p1: nat, p2: nat)
    requires p1 < |c.vRandom| && p2 < |c.vRandom| && c.vRandom[p1] in c.mapInfo && c.vRandom[p2] in c.mapInfo
    ensures Reduced(c, Swapped(c, p1, p2), -1) && Swapped(c, p1, p2).mapInfo.Keys == c.mapInfo.Keys
  {
  }

  lemma IsReduced(c: Core, d: Core, id: int)
    requires Reduced(c, d, -1) && -1 !in c.mapInfo && id in d.mapInfo && d.vRandom != []
    ensures Reduced(c, Deleted(d, id), id)
  {
  }

  lemma SparedSelf(m: map<int, Info>)
    ensures Spared(m, m, {})
  {
  }

  lemma HasReplaced(h: Hashes, c: Core, e: Core, f: Core, d: Core, id: int, slot: nat)
    requires id in c.mapInfo && slot < |c.vvTried| && !c.mapInfo[id].fInTried
    requires e.vvNew == Without(c.vvNew, id) && e.mapInfo == c.mapInfo[id := c.mapInfo[id].(nRefCount := 0)]
    requires id in f.mapInfo && f.mapInfo[id] == e.mapInfo[id].(nRandomPos := f.mapInfo[id].nRandomPos)
    requires d.mapInfo == f.mapInfo[id := f.mapInfo[id].(fInTried := true)] && d.vvTried == c.vvTried[slot := id]
      && d.vvNew == f.vvNew
    requires if c.vvTried[slot] == -1 then f.vvNew == e.vvNew
      && Spared(e.mapInfo, f.mapInfo, {}) else Demoted(h, e, f, c.vvTried[slot])
    ensures Replaces(h, c, d, id, slot)
  {
    hide Without, Demoted, Spared;
    var left := c.(vvNew := Without(c.vvNew, id), mapInfo := c.mapInfo[id := c.mapInfo[id].(nRefCount := 0)]);
    var entered := d.(mapInfo := d.mapInfo[id := d.mapInfo[id].(fInTried := false)]);
    assert entered.mapInfo == f.mapInfo;
    if c.vvTried[slot] != -1 { DemotedParts(h, e, f, left, entered, c.vvTried[slot]); }
  }

  /** Only mapInfo and the new table matter. */
  lemma DemotedParts(h: Hashes, c: Core, d: Core, c': Core, d': Core, id: int)
    requires Demoted(h, c, d, id) && c'.mapInfo == c.mapInfo && c'.vvNew == c.vvNew && d'.mapInfo == d.mapInfo
      && d'.vvNew == d.vvNew
    ensures Demoted(h, c', d', id)
  {
    hide NewSlot, NewBucket, Spared, Released;
  }

  lemma OccupantHome(h: Hashes, c: Core, id: int, limbo: set<int>, uncounted: set<int>)
    requires Inv(h, c, limbo, uncounted) && id in c.mapInfo && c.mapInfo[id].nRefCount == 0
    ensures |c.vvNew| == NEW_SIZE && c.vvNew[HomeSlot(h, c.mapInfo[id])] != id
  {
    var s := HomeSlot(h, c.mapInfo[id]);
    assert c.vvNew[s] in multiset(c.vvNew);
  }

  /** Whether the entry still counts as tried makes no difference to where it goes. */
  lemma DemotedBefore(h: Hashes, c: Core, d: Core, e: Core, id: int)
    requires id in c.mapInfo && d.mapInfo == c.mapInfo[id := c.mapInfo[id].(fInTried := false)] && d.vvNew == c.vvNew
    requires Demoted(h, d, e, id) && |c.vvNew| == NEW_SIZE && c.vvNew[HomeSlot(h, c.mapInfo[id])] != id
    ensures Demoted(h, c, e, id)
  {
    hide NewSlot, NewBucket;
  }

  lemma ReducedSpares(c: Core, d: Core, id: int)
    requires Reduced(c, d, id)
    ensures Spared(c.mapInfo, d.mapInfo, {id})
  {
  }

  /** The slot, cleared of what it held, is given to id. */
  lemma SlotTaken(h: Hashes, c: Core, e: Core, slot: nat, id: int)
    requires slot < NEW_SIZE && |c.vvNew| == NEW_SIZE && id in c.mapInfo && c.vvNew[slot] != id
    requires Inv(h, e, {id}, {}) && Kept(c, e) && e.vvNew == c.vvNew[slot := -1] && !c.mapInfo[id].fInTried
    requires Reduced(c, e, c.vvNew[slot]) && Released(c.mapInfo, e.mapInfo, c.vvNew[slot])
    requires c.mapInfo[id].nRefCount < NEW_BUCKETS_PER_ADDRESS
    requires slot == NewSlot(h, c.mapInfo[id].addr, slot / BUCKET_SIZE)
    ensures id in e.mapInfo && e.mapInfo[id] == c.mapInfo[id].(nRandomPos := e.mapInfo[id].nRandomPos)
    ensures e.vvTried == c.vvTried && e.collisions == c.collisions && e.nIdCount == c.nIdCount
    ensures Inv(h, SlotFilled(e, slot, id), {}, {}) && Kept(c, SlotFilled(e, slot, id))
    ensures var m := SlotFilled(e, slot, id).mapInfo;
      Spared(c.mapInfo, m, {id, c.vvNew[slot]}) && Released(c.mapInfo, m, c.vvNew[slot])
  {
    hide Inv, Kept, Reduced, NewSlot, Released, Spared;
    ReducedEntry(c, e, c.vvNew[slot], id);
    ReducedRest(c, e, c.vvNew[slot]);
    FillKeeps(h, e, slot, id, {id}, {});
    KeptTransitive(c, e, SlotFilled(e, slot, id));
    FilledSpares(c, e, SlotFilled(e, slot, id).mapInfo, id, c.vvNew[slot]);
    assert {id} - {id} == {};
  }

  lemma FilledSpares(c: Core, e: Core, m: map<int, Info>, id: int, x: int)
    requires Reduced(c, e, x) && id in e.mapInfo && id in m && m == e.mapInfo[id := m[id]] && id != x
      && Released(c.mapInfo, e.mapInfo, x)
    ensures Spared(c.mapInfo, m, {id, x}) && Released(c.mapInfo, m, x)
  {
  }

  lemma IsDemoted(h: Hashes, c: Core, e: Core, d: Core, id: int)
    requires id in c.mapInfo && |c.vvNew| == NEW_SIZE && HomeSlot(h, c.mapInfo[id]) < NEW_SIZE
      && !c.mapInfo[id].fInTried
    requires var place := HomeSlot(h, c.mapInfo[id]);
      && Reduced(c, e, c.vvNew[place]) && Released(c.mapInfo, e.mapInfo, c.vvNew[place]) && c.vvNew[place] != id
      && id in e.mapInfo && d.mapInfo == e.mapInfo[id := e.mapInfo[id].(nRefCount := 1)]
        && d.vvNew == c.vvNew[place := id]
    ensures Demoted(h, c, d, id)
  {
    hide NewSlot, NewBucket;
  }

  lemma NotInLimbo(h: Hashes, c: Core, limbo: set<int>, id: int, uncounted: set<int>)
    requires Inv(h, c, limbo + {id}, uncounted) && (id in c.mapInfo ==> c.mapInfo[id].nRefCount != 0)
    ensures Inv(h, c, limbo, uncounted)
  {
  }

  lemma EmptyInv(h: Hashes, c: Core)
    requires c == Core(map[], map[], [], 0, seq(NEW_SIZE, _ => -1), seq(TRIED_SIZE, _ => -1), 0, 0, map[], {}, true)
    ensures Inv(h, c, {}, {}) && Colliding(h, c)
  {
    assert NewIds(c.mapInfo) - {} == {} && TriedIds(c.mapInfo) - {} == {};
    forall network: nat
      ensures CountsOf(c.counts, network) == Counts(|OfNetwork(c.mapInfo, {}, network)|,
        |OfNetwork(c.mapInfo, {}, network)|) {
      assert OfNetwork(c.mapInfo, {}, network) == {};
    }
  }

  lemma EmptyManager(h: Hashes, c: Core)
    requires Inv(h, c, {}, {}) && c.mapInfo == map[]
    ensures c.mapAddr == map[] && |c.vvNew| == NEW_SIZE && |c.vvTried| == TRIED_SIZE
    ensures forall s | 0 <= s < NEW_SIZE :: c.vvNew[s] == -1
  {
    assert forall a :: a !in c.mapAddr;
    forall s | 0 <= s < NEW_SIZE ensures c.vvNew[s] == -1 {
      assert c.vvNew[s] in multiset(c.vvNew);
    }
  }

  lemma EmptyInserts(h: Hashes, c: Core, addr: Addr)
    requires Inv(h, c, {}, {}) && c.mapInfo == map[] && addr.routable
    ensures Inserts(h, c, addr, 0, addr, 0, 0, true)
  {
    EmptyManager(h, c);
  }

  lemma TriedAtEpoch(h: Hashes, c: Core, d: Core, addr: Addr)
    requires Inv(h, d, {}, {}) && Inserted(h, c, d, addr, 0, {}, addr, 0)
    ensures |d.vvTried| == TRIED_SIZE && !GoodTime(h, d, addr, false, 0)
  {
    Sizes(h, d, {}, {});
  }

  /** A success recorded at the epoch: the consistency check rejects the state that two calls lead to. */
  method RejectedTime(h: Hashes) returns (err: int)
    ensures err != 0
  {
    hide Inv, Colliding, Inserts, Inserted, GoodTime, Timed, GoodOutcome, Onward, Checked;
    var manager := new AddrMan(h);
    var addr := Addr(1, 1, 0, 0, true, true);
    ghost var c := manager.S();
    EmptyInserts(h, c, addr);
    var inserted := manager.AddSingle(addr, 0, {}, addr, 0, 0, true);
    TriedAtEpoch(h, c, manager.S(), addr);
    var moved := manager.Good(addr, false, 0);
    Sizes(h, manager.S(), {}, {});
    CheckedTimed(h, manager.S());
    err := manager.CheckAddrman(false);
  }

  lemma AddressKnown(h: Hashes, c: Core, d: Core, addr: Addr)
    requires Inserted(h, c, d, addr, 0, {}, addr, 0)
    ensures addr in d.mapAddr
  {
  }

  /** The same for an attempt recorded before the epoch. */
  method RejectedAttempt(h: Hashes) returns (err: int)
    ensures err != 0
  {
    hide Inv, Colliding, Inserts, Inserted, Timed, Onward, Checked;
    var manager := new AddrMan(h);
    var addr := Addr(1, 1, 0, 0, true, true);
    ghost var c := manager.S();
    EmptyInserts(h, c, addr);
    var inserted := manager.AddSingle(addr, 0, {}, addr, 0, 0, true);
    AddressKnown(h, c, manager.S(), addr);
    manager.Attempt(addr, false, -1);
    Sizes(h, manager.S(), {}, {});
    CheckedTimed(h, manager.S());
    err := manager.CheckAddrman(false);
  }
}

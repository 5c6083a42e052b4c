/** What the policies of the address manager promise (src/addrman.cpp, src/addrman_impl.h): which addresses are given
    out, when a known address is refreshed, and when a collision in the tried table is resolved. */
module AddrPolicies {
  import opened AddrMans
  import opened AddrManagers
  import Integers
  import opened Options

  /** As many as there are, within both limits. */
  lemma WantedIs(n: nat, maxAddresses: nat, maxPct: nat, w: nat)
    ensures w <= Wanted(n, maxAddresses, maxPct) <==>
      w <= n && (maxAddresses != 0 ==> w <= maxAddresses) && (maxPct != 0 ==> 100 * w <= maxPct * n)
  {
    if maxPct >= 100 {
      Integers.MulMono(100, maxPct, n);
    } else {
      Integers.MulMono(maxPct, 100, n);
    }
  }

  /** The filter drops no address of the network that was heard of within 30 days, and not from the future, and was
      never tried since its last success, or succeeded within a week; nor one just tried. Others it drops, if they were
      not heard of in that time, or failed three times without ever a success. */
  lemma FilterExact(info: Info, network: Option<nat>, now: int)
    requires network.Some? ==> info.addr.netClass == network.value
    ensures var heard := now - 30 * 86400 <= info.nTime <= now + 600;
      && (heard && info.nAttempts == 0 ==> Eligible(info, network, true, now))
      && (heard && info.lastSuccess != 0 && now - info.lastSuccess <= 7 * 86400 ==> Eligible(info, network, true, now))
      && (heard && info.lastSuccess != 0 && info.nAttempts < 10 ==> Eligible(info, network, true, now))
      && (now - info.lastTry <= 60 ==> Eligible(info, network, true, now))
      && (!heard && now - info.lastTry > 60 ==> !Eligible(info, network, true, now))
      && (info.lastSuccess == 0 && info.nAttempts >= 3 && now - info.lastTry > 60 ==>
        !Eligible(info, network, true, now))
      && Eligible(info, network, false, now)
  {
  }

  // ---------------------------------------------------------------------------------------------
  // Places
  // ---------------------------------------------------------------------------------------------

  /** Every slot of the two tables may be that of an address: it depends on nothing but the hashes. */
  lemma AnySlot(a: Addr, source: Addr, tried: nat, new_: nat) returns (h: Hashes)
    requires tried < TRIED_SIZE && new_ < NEW_SIZE
    ensures TriedSlot(h, a) == tried && NewSlot(h, a, NewBucket(h, a, source)) == new_
  {
    h := Hashes((x: Addr) => tried / BUCKET_SIZE, (x: Addr, y: Addr) => new_ / BUCKET_SIZE,
                (x: Addr, fNew: bool, bucket: nat) => if fNew then new_ % BUCKET_SIZE else tried % BUCKET_SIZE);
  }

  // ---------------------------------------------------------------------------------------------
  // Refreshing
  // ---------------------------------------------------------------------------------------------

  /** Hearing of an address again never makes it older, forgets no service, and changes nothing the second time. The
      time goes up only if by more than an hour, for an address on line, or a day; and never passes the time heard. */
  lemma RefreshLaws(info: Info, nTime: int, services: set<nat>, timePenalty: int, now: int)
    requires timePenalty >= 0 && nTime >= 0
    ensures var r := Refreshed(info, nTime, services, timePenalty, now);
      && r.nTime >= info.nTime && r.services == info.services + services
      && Refreshed(r, nTime, services, timePenalty, now) == r
      && (r.nTime != info.nTime ==> info.nTime < r.nTime <= nTime && r.nTime - info.nTime > 3600 - timePenalty)
      && (now - nTime >= 86400 && nTime - timePenalty - info.nTime <= 86400 ==> r.nTime == info.nTime)
      && (nTime - timePenalty - info.nTime > 86400 && nTime >= timePenalty ==> r.nTime == nTime - timePenalty)
  {
  }

  /** A new address has the time it was announced with, less the penalty if another announced it, and no history. */
  lemma AnnouncedTime(addr: Addr, source: Addr, nTime: int, services: set<nat>, penalty: int)
    requires nTime >= 0 && penalty >= 0
    ensures var r := NewInfo(addr, source, nTime, services, penalty);
      && (addr.host == source.host ==> r.nTime == nTime)
      && (addr.host != source.host ==> r.nTime + penalty == nTime || (r.nTime == 0 && nTime < penalty))
      && r.addr == addr && r.source == source && r.services == services && r.nAttempts == 0 && r.nRefCount == 0
      && r.lastTry == 0 && r.lastSuccess == 0 && !r.fInTried
  {
  }

  // ---------------------------------------------------------------------------------------------
  // Collisions
  // ---------------------------------------------------------------------------------------------

  /** An entry of the tried table gives way only if it has not succeeded for four hours, and either was tried in that
      time, but not within the last minute, or the newcomer has been waiting for forty minutes. */
  lemma EvictionLaws(h: Hashes, c: Core, idNew: int, time: int)
    requires |c.vvTried| == TRIED_SIZE && idNew in c.mapInfo && VerdictOn(h, c, idNew, time).Move?
    ensures var id := c.vvTried[TriedSlot(h, c.mapInfo[idNew].addr)];
      id in c.mapInfo && id != -1 ==>
        (&& time - c.mapInfo[id].lastSuccess >= 4 * 3600
         && (60 < time - c.mapInfo[id].lastTry < 4 * 3600 || time - c.mapInfo[idNew].lastSuccess > 40 * 60))
  {
  }

  /** The times of an entry after others were resolved: as before, or those of its own success. */
  ghost predicate SameTimes(c: Core, d: Core, done: int, time: int) {
    forall x | x in d.mapInfo && x != -1 ::
      && x in c.mapInfo
      && (|| (d.mapInfo[x].lastTry == c.mapInfo[x].lastTry && d.mapInfo[x].lastSuccess == c.mapInfo[x].lastSuccess)
          || (x < done && d.mapInfo[x].lastSuccess == time))
  }

  /** At this time no entry was tried within the last minute, and no pending one came within forty minutes. */
  ghost predicate Ripe(c: Core, time: int) {
    && (forall x | x in c.mapInfo :: time - c.mapInfo[x].lastTry > 60)
    && (forall x | x in c.collisions && x in c.mapInfo :: time - c.mapInfo[x].lastSuccess > 40 * 60)
  }

  lemma SparedTimes(m: map<int, Info>, m': map<int, Info>, ids: set<int>, x: int)
    requires Spared(m, m', ids) && x in m' && x !in ids
    ensures x in m && m'[x].lastTry == m[x].lastTry && m'[x].lastSuccess == m[x].lastSuccess
  {
  }

  lemma DemotedTimes(h: Hashes, c: Core, d: Core, id: int, x: int)
    requires Demoted(h, c, d, id) && x in d.mapInfo && x != -1
    ensures x in c.mapInfo && d.mapInfo[x].lastTry == c.mapInfo[x].lastTry
      && d.mapInfo[x].lastSuccess == c.mapInfo[x].lastSuccess
  {
    hide HomeSlot, Spared;
    var y := c.vvNew[HomeSlot(h, c.mapInfo[id])];
    if x != id && x != y {
      SparedTimes(c.mapInfo, d.mapInfo, {id, y}, x);
    }
  }

  /** Moving an entry to the tried table changes the times of no other. */
  lemma ReplacesTimes(h: Hashes, c: Core, d: Core, id: int, slot: nat, x: int)
    requires Replaces(h, c, d, id, slot) && x in d.mapInfo && x != id && x != -1
    ensures x in c.mapInfo && d.mapInfo[x].lastTry == c.mapInfo[x].lastTry
      && d.mapInfo[x].lastSuccess == c.mapInfo[x].lastSuccess
  {
    hide Demoted, Spared, Without;
    var left := c.(vvNew := Without(c.vvNew, id), mapInfo := c.mapInfo[id := c.mapInfo[id].(nRefCount := 0)]);
    var entered := d.(mapInfo := d.mapInfo[id := d.mapInfo[id].(fInTried := false)]);
    if c.vvTried[slot] == -1 {
      SparedTimes(left.mapInfo, entered.mapInfo, {}, x);
    } else {
      DemotedTimes(h, left, entered, c.vvTried[slot], x);
    }
  }

  lemma OutcomeTimes(h: Hashes, c: Core, d: Core, addr: Addr, time: int, moved: bool, x: int)
    requires GoodOutcome(h, c, d, addr, false, time, moved) && x in d.mapInfo && x != -1
    ensures x in c.mapInfo
    ensures
      if addr in c.mapAddr && x == c.mapAddr[addr] && |c.vvTried| == TRIED_SIZE then d.mapInfo[x].lastSuccess == time
      else d.mapInfo[x].lastTry == c.mapInfo[x].lastTry && d.mapInfo[x].lastSuccess == c.mapInfo[x].lastSuccess
  {
    hide Replaces, TriedSlot;
    if moved {
      var id := c.mapAddr[addr];
      var b := c.(mapInfo := Recorded(c.mapInfo, id, time));
      if x != id {
        ReplacesTimes(h, b, d, id, TriedSlot(h, addr), x);
      } else {
        ReplacesOwn(h, b, d, id, TriedSlot(h, addr));
      }
    }
  }

  lemma ReplacesOwn(h: Hashes, c: Core, d: Core, id: int, slot: nat)
    requires Replaces(h, c, d, id, slot)
    ensures id in c.mapInfo && id in d.mapInfo && d.mapInfo[id].lastSuccess == c.mapInfo[id].lastSuccess
  {
    hide Demoted, Spared, Without;
  }

  /** One round changes the times of no entry but its own, which becomes a success of that time. */
  lemma StepTimes(h: Hashes, c: Core, d: Core, id: int, time: int)
    requires ResolveStep(h, c, d, id, time) && Indexed(c)
    ensures SameTimes(c, d, id + 1, time)
  {
    hide VerdictOn, GoodOutcome;
    if id in c.collisions && VerdictOn(h, c, id, time).Move? {
      var e := d.(collisions := c.collisions);
      MovedKnown(h, c, id, time);
      var addr := c.mapInfo[id].addr;
      forall x | x in d.mapInfo && x != -1
        ensures x in c.mapInfo
        ensures (d.mapInfo[x].lastTry == c.mapInfo[x].lastTry && d.mapInfo[x].lastSuccess == c.mapInfo[x].lastSuccess)
          || (x == id && d.mapInfo[x].lastSuccess == time)
      {
        OutcomeTimes(h, c, e, addr, time, !c.mapInfo[id].fInTried, x);
      }
    }
  }

  lemma MovedKnown(h: Hashes, c: Core, id: int, time: int)
    requires VerdictOn(h, c, id, time).Move?
    ensures id in c.mapInfo
  {
  }

  /** The states of a call of ResolveCollisions at one time. */
  ghost predicate Rounds(h: Hashes, states: seq<Core>, time: int) {
    && |states| > 0 && (forall i | 0 <= i < |states| :: Inv(h, states[i], {}, {}))
    && forall i | 0 <= i < |states| - 1 :: ResolveStep(h, states[i], states[i+1], i, time)
  }

  lemma {:induction false} RoundsTimes(h: Hashes, states: seq<Core>, time: int, i: nat)
    requires Rounds(h, states, time) && i < |states|
    ensures SameTimes(states[0], states[i], i, time)
    decreases i
  {
    hide Inv, ResolveStep, Indexed;
    if i > 0 {
      RoundsTimes(h, states, time, i - 1);
      IsIndexed(h, states[i-1]);
      assert ResolveStep(h, states[i-1], states[i-1+1], i - 1, time);
      StepTimes(h, states[i-1], states[i], i - 1, time);
    }
  }

  /** No collision waits for ever: when all are ripe, one call resolves every one of them. */
  lemma RipeResolved(h: Hashes, states: seq<Core>, time: int, id: nat)
    requires Rounds(h, states, time) && id < |states| && Ripe(states[0], time) && id in states[0].collisions
    ensures !VerdictOn(h, states[id], id, time).Wait?
  {
    hide Rounds, TriedSlot;
    RoundsTimes(h, states, time, id);
    var c := states[id];
    if id in c.mapInfo && |c.vvTried| == TRIED_SIZE {
      var old_ := c.vvTried[TriedSlot(h, c.mapInfo[id].addr)];
      assert time - c.mapInfo[id].lastSuccess > 40 * 60;
      if old_ in c.mapInfo && old_ != -1 {
        assert c.mapInfo[old_].lastSuccess == time || time - c.mapInfo[old_].lastTry > 60;
      }
    }
  }
}

/** Headers pre-synchronization (src/headerssync.cpp, src/headerssync.h): a peer's headers are downloaded twice, and
    those of the second download are only released once enough bits committed to in the first have been checked. */
module HeadersSyncs {
  import Integers

  type Hash = nat

  datatype Header = Header(version: int, prev: Hash, merkleRoot: Hash, time: nat, bits: nat, nonce: nat)

  /** A header without the hash of its predecessor. */
  datatype Compressed = Compressed(version: int, merkleRoot: Hash, time: nat, bits: nat, nonce: nat) {
    function Full(prev: Hash): Header {
      Header(version, prev, merkleRoot, time, bits, nonce)
    }
  }

  function Compress(h: Header): Compressed {
    Compressed(h.version, h.merkleRoot, h.time, h.bits, h.nonce)
  }

  /** Hashing, the salted one-bit hash, the work of a target and the difficulty rule, of which nothing is assumed; and
      the parameters of a synchronization. */
  datatype Setup = Setup(hash: Header -> Hash, bit: Hash -> bool, proof: nat -> nat, permitted: (int, nat, nat) -> bool,
                         period: nat, offset: nat, bufferSize: nat, maxCommitments: nat,
                         start: Header, startHeight: nat, startWork: nat, minimumWork: nat)
  {
    predicate Sound() {
      offset < period
    }

    /** A commitment is made to the header at this height. */
    predicate Due(height: int)
      requires Sound()
    {
      height % period == offset
    }

    predicate CommitsAt(i: nat)
      requires Sound()
    {
      Due(startHeight + 1 + i)
    }

    ghost predicate EndsRound(height: int, q: int) {
      height == q * period + offset
    }

    /** The commitments are at the heights that are a multiple of the period above the offset. */
    lemma DueExact(height: int)
      requires Sound()
      ensures Due(height) <==> exists q :: EndsRound(height, q)
    {
      var q, r := (height - offset) / period, (height - offset) % period;
      DueIs(height, q, r);
      if r == 0 {
        assert EndsRound(height, q);
      }
      forall p | EndsRound(height, p) ensures Due(height) {
        DueIs(height, p, 0);
      }
    }

    lemma DueIs(height: int, q: int, r: int)
      requires Sound() && 0 <= r < period && height - offset == q * period + r
      ensures (Due(height) <==> r == 0) && Rounds(height) == q
    {
      Integers.DivModIs(height - offset, period, q, r);
      if r + offset < period {
        Integers.DivModIs(height, period, q, r + offset);
      } else {
        Integers.DivModIs(height, period, q + 1, r + offset - period);
      }
    }

    /** The number of the last round that ends at this height or before. */
    ghost function Rounds(height: int): int
      requires Sound()
    {
      (height - offset) / period
    }

    lemma RoundsNext(height: int)
      requires Sound()
      ensures Rounds(height + 1) == Rounds(height) + if Due(height + 1) then 1 else 0
    {
      var q, r := (height - offset) / period, (height - offset) % period;
      DueIs(height, q, r);
      if r + 1 < period {
        DueIs(height + 1, q, r + 1);
      } else {
        DueIs(height + 1, q + 1, 0);
      }
    }

    lemma RoundsBetween(height: int, n: nat)
      requires Sound()
      ensures n / period <= Rounds(height + n) - Rounds(height) <= n / period + 1
    {
      hide Due, Rounds;
      RoundsApart(height, n, (height - offset) / period, (height - offset) % period, n / period, n % period);
    }

    lemma RoundsApart(height: int, n: nat, q: int, r: int, m: int, t: int)
      requires Sound() && 0 <= r < period && 0 <= t < period
      requires height - offset == q * period + r && n == m * period + t
      ensures m <= Rounds(height + n) - Rounds(height) <= m + 1
    {
      hide Due, Rounds;
      DueIs(height, q, r);
      assert q * period + m * period == (q + m) * period;
      if r + t < period {
        DueIs(height + n, q + m, r + t);
      } else {
        assert (q + m) * period + period == (q + m + 1) * period;
        DueIs(height + n, q + m + 1, r + t - period);
      }
    }

    /** The hash that the header at index i must name as its predecessor. */
    function HashBefore(headers: seq<Header>, i: nat): Hash
      requires i <= |headers|
    {
      if i == 0 then hash(start) else hash(headers[i-1])
    }

    function BitsBefore(headers: seq<Header>, i: nat): nat
      requires i <= |headers|
    {
      if i == 0 then start.bits else headers[i-1].bits
    }

    function Work(headers: seq<Header>): nat {
      if headers == [] then startWork else Work(headers[..|headers|-1]) + proof(headers[|headers|-1].bits)
    }

    /** The commitments to the headers from index i on. */
    function Commits(headers: seq<Header>, i: nat): seq<bool>
      requires Sound()
      decreases |headers| - i
    {
      if i >= |headers| then []
      else (if CommitsAt(i) then [bit(hash(headers[i]))] else []) + Commits(headers, i + 1)
    }

    /** Of the headers from index i on, one in every period is committed to: their number is that of the periods they
        fill, or one more. */
    lemma {:induction false} CommitsCount(headers: seq<Header>, i: nat)
      requires Sound() && i <= |headers|
      ensures |Commits(headers, i)| == Rounds(startHeight + |headers|) - Rounds(startHeight + i)
      ensures (|headers| - i) / period <= |Commits(headers, i)| <= (|headers| - i) / period + 1
      decreases |headers| - i
    {
      hide Due, Rounds;
      if i < |headers| {
        CommitsCount(headers, i + 1);
        RoundsNext(startHeight + i);
      }
      RoundsBetween(startHeight + i, |headers| - i);
    }

    /** Among any period of consecutive indices exactly one is committed to. */
    lemma OncePerPeriod(i: nat) returns (j: nat)
      requires Sound()
      ensures i <= j < i + period && CommitsAt(j)
      ensures forall k | i <= k < i + period && CommitsAt(k) :: k == j
    {
      hide Due;
      var x := startHeight + i - offset;
      var q, r := x / period, x % period;
      j := i + period - 1 - r;
      assert q * period + period == (q + 1) * period;
      DueIs(startHeight + 1 + j, q + 1, 0);
      forall k | i <= k < i + period && CommitsAt(k) ensures k == j {
        if k < j {
          DueIs(startHeight + 1 + k, q, r + 1 + k - i);
        } else if k > j {
          DueIs(startHeight + 1 + k, q + 1, k - j);
        }
      }
    }

    /** Each header names the one before it, back to the starting point. */
    ghost predicate Linked(headers: seq<Header>) {
      forall i | 0 <= i < |headers| :: headers[i].prev == HashBefore(headers, i)
    }

    /** The difficulty rule for the header at index i. */
    predicate Allows(i: nat, before: nat, bits: nat) {
      permitted(startHeight + 1 + i, before, bits)
    }

    ghost predicate Permitted(headers: seq<Header>) {
      forall i | 0 <= i < |headers| :: Allows(i, BitsBefore(headers, i), headers[i].bits)
    }

    /** Wherever a commitment was due before the work sufficed, the two downloads agree in the committed bit. */
    ghost predicate Matched(first: seq<Header>, second: seq<Header>)
      requires Sound()
    {
      forall i | 0 <= i < |second| && CommitsAt(i) && Work(second[..i+1]) < minimumWork ::
        i < |first| && bit(hash(second[i])) == bit(hash(first[i]))
    }

    lemma {:induction false} WorkGrows(headers: seq<Header>, i: nat)
      requires i <= |headers|
      ensures Work(headers[..i]) <= Work(headers)
      decreases |headers|
    {
      if i == |headers| {
        assert headers[..i] == headers;
      } else {
        assert headers[..|headers|-1][..i] == headers[..i];
        WorkGrows(headers[..|headers|-1], i);
      }
    }

    /** While the work does not suffice, the bits of the second download from any index on are the first of those
        committed to; and there is one for every period. */
    lemma {:induction false} BitsAgree(first: seq<Header>, second: seq<Header>, i: nat)
      requires Sound() && i <= |second| && Matched(first, second) && Work(second) < minimumWork
      ensures Commits(second, i) <= Commits(first, i)
      ensures |Commits(second, i)| >= (|second| - i) / period
      decreases |second| - i
    {
      hide Due, Work, Rounds;
      CommitsCount(second, i);
      if i < |second| {
        BitsAgree(first, second, i + 1);
        if CommitsAt(i) {
          WorkGrows(second, i + 1);
        }
      }
    }

    /** From index i on the bits of the second download are the first of those committed to, at least one for every
        period of the buffer. */
    ghost predicate Confirmed(first: seq<Header>, second: seq<Header>, i: nat)
      requires Sound()
    {
      Commits(second, i) <= Commits(first, i) && |Commits(second, i)| >= bufferSize / period
    }

    lemma BufferConfirms(first: seq<Header>, second: seq<Header>, i: nat)
      requires Sound() && i <= |second| && Matched(first, second) && Work(second) < minimumWork
      requires |second| - i >= bufferSize
      ensures Confirmed(first, second, i)
    {
      hide Commits, Work, Matched;
      BitsAgree(first, second, i);
      Integers.DivMono(bufferSize, |second| - i, period);
    }

    /** Of a period of consecutive headers of the second download, before the work suffices, exactly one has had its bit
        compared. */
    lemma ComparedOnce(first: seq<Header>, second: seq<Header>, i: nat) returns (j: nat)
      requires Sound() && i + period <= |second| && Matched(first, second) && Work(second[..i+period]) < minimumWork
      ensures i <= j < i + period && CommitsAt(j) && forall k | i <= k < i + period && CommitsAt(k) :: k == j
      ensures j < |first| && bit(hash(second[j])) == bit(hash(first[j]))
    {
      hide Due, Work, CommitsAt;
      j := OncePerPeriod(i);
      assert second[..i+period][..j+1] == second[..j+1];
      WorkGrows(second[..i+period], j + 1);
    }

    /** PRESYNC takes h after the headers s. */
    predicate PresyncStep(s: seq<Header>, h: Header)
      requires Sound()
    {
      Allows(|s|, BitsBefore(s, |s|), h.bits) && |Commits(s + [h], 0)| <= maxCommitments
    }

    /** REDOWNLOAD takes h after the headers s, of which released are no longer in the buffer. */
    predicate RedownloadStep(first: seq<Header>, s: seq<Header>, released: nat, h: Header)
      requires Sound()
    {
      var i := |s|;
      && h.prev == HashBefore(s, i)
      && Allows(i, if released < i then BitsBefore(s, i) else start.bits, h.bits)
      && (CommitsAt(i) && Work(s + [h]) < minimumWork ==> i < |first| && bit(hash(h)) == bit(hash(first[i])))
    }

    /** Length alone refuses no header of a chain that fills fewer periods than commitments are allowed, and every
        header of one that fills more. */
    lemma LengthRefuses(s: seq<Header>, h: Header)
      requires Sound()
      ensures (|s| + 1) / period < maxCommitments ==>
        (PresyncStep(s, h) <==> Allows(|s|, BitsBefore(s, |s|), h.bits))
      ensures (|s| + 1) / period > maxCommitments ==> !PresyncStep(s, h)
    {
      hide Allows, Commits, Rounds, Due;
      CommitsCount(s + [h], 0);
    }

    /** The rule is that of the header's height, which is one above that of its predecessor. */
    lemma RuleOf(headers: seq<Header>, i: nat)
      requires Permitted(headers) && i < |headers|
      ensures if i == 0 then permitted(startHeight + 1, start.bits, headers[0].bits)
        else permitted(startHeight + i + 1, headers[i-1].bits, headers[i].bits)
    {
      assert Allows(i, BitsBefore(headers, i), headers[i].bits);
    }

    ghost predicate Presyncs(s: seq<Header>, headers: seq<Header>)
      requires Sound()
    {
      forall k | 0 <= k < |headers| :: PresyncStep(s + headers[..k], headers[k])
    }

    ghost predicate Redownloads(first: seq<Header>, s: seq<Header>, released: nat, headers: seq<Header>)
      requires Sound()
    {
      forall k | 0 <= k < |headers| :: RedownloadStep(first, s + headers[..k], released, headers[k])
    }

    /** The header after s is compared with its true predecessor if that is still in the buffer, or if it is the first;
        otherwise with the starting point, and then the rule may or may not allow it after s. */
    predicate Obeys(s: seq<Header>, released: nat, h: Header) {
      released < |s| || s == [] || Allows(|s|, s[|s|-1].bits, h.bits)
    }

    /** After an accepted message the second download obeys the difficulty rule if and only if it did before and the
        first header of the message obeys it; the others always do. */
    lemma MessagePermitted(first: seq<Header>, s: seq<Header>, released: nat, headers: seq<Header>)
      requires Sound() && released <= |s| && headers != [] && Redownloads(first, s, released, headers)
      ensures Permitted(s + headers) <==> Permitted(s) && Obeys(s, released, headers[0])
    {
      hide Work, Commits, Allows, Redownloads;
      var t := s + headers;
      forall i | 0 <= i < |s| ensures t[i] == s[i] && BitsBefore(t, i) == BitsBefore(s, i) {}
      forall k | 0 <= k < |headers|
        ensures t[|s| + k] == headers[k] && BitsBefore(t, |s| + k) == BitsBefore(s + headers[..k], |s| + k)
        ensures k > 0 ==> Allows(|s| + k, BitsBefore(t, |s| + k), headers[k].bits)
      {
        StepOf(first, s, released, headers, k);
      }
      StepOf(first, s, released, headers, 0);
      assert s + headers[..0] == s;
      if Permitted(t) {
        assert Allows(|s|, BitsBefore(t, |s|), t[|s|].bits);
        forall i | 0 <= i < |s| ensures Allows(i, BitsBefore(s, i), s[i].bits) {
          assert Allows(i, BitsBefore(t, i), t[i].bits);
        }
      }
      if Permitted(s) && Obeys(s, released, headers[0]) {
        forall i | 0 <= i < |t| ensures Allows(i, BitsBefore(t, i), t[i].bits) {
          assert i > |s| ==> t[i] == headers[i - |s|];
        }
      }
    }

    lemma StepOf(first: seq<Header>, s: seq<Header>, released: nat, headers: seq<Header>, k: nat)
      requires Sound() && released <= |s| && k < |headers| && Redownloads(first, s, released, headers)
      ensures var t := s + headers[..k];
        Allows(|t|, if released < |t| then BitsBefore(t, |t|) else start.bits, headers[k].bits)
    {
      assert RedownloadStep(first, s + headers[..k], released, headers[k]);
    }

    /** The same for one header. */
    lemma DifficultyExact(first: seq<Header>, s: seq<Header>, released: nat, h: Header)
      requires Sound() && released <= |s| && RedownloadStep(first, s, released, h)
      ensures Permitted(s + [h]) <==> Permitted(s) && Obeys(s, released, h)
    {
      hide RedownloadStep;
      assert s + [h][..0] == s;
      MessagePermitted(first, s, released, [h]);
    }

    lemma {:induction false} CommitsAppend(headers: seq<Header>, h: Header, i: nat)
      requires Sound() && i <= |headers|
      ensures Commits(headers + [h], i) == Commits(headers, i) + if CommitsAt(|headers|) then [bit(hash(h))] else []
      decreases |headers| - i
    {
      if i < |headers| {
        CommitsAppend(headers, h, i + 1);
      } else {
        assert Commits(headers + [h], i + 1) == [];
      }
    }

    lemma WorkAppend(headers: seq<Header>, h: Header)
      ensures Work(headers + [h]) == Work(headers) + proof(h.bits)
    {
      assert (headers + [h])[..|headers|] == headers;
    }

    lemma WorkNone()
      ensures Work([]) == startWork
    {
    }

    /** Headers taken one at a time extend the chain that is there. */
    lemma LinkedAppend(headers: seq<Header>, h: Header)
      requires Linked(headers) && h.prev == HashBefore(headers, |headers|)
      ensures Linked(headers + [h])
    {
      forall i | 0 <= i < |headers + [h]| ensures (headers + [h])[i].prev == HashBefore(headers + [h], i) {
        assert i <= |headers| && HashBefore(headers + [h], i) == HashBefore(headers, i);
      }
    }

    lemma PermittedAppend(headers: seq<Header>, h: Header)
      requires Permitted(headers) && Allows(|headers|, BitsBefore(headers, |headers|), h.bits)
      ensures Permitted(headers + [h])
    {
      hide Allows;
      var more := headers + [h];
      forall i | 0 <= i < |more| ensures Allows(i, BitsBefore(more, i), more[i].bits) {
        assert i < |headers| ==> more[i] == headers[i];
        assert BitsBefore(more, i) == BitsBefore(headers, i);
      }
    }

    lemma CommitsNext(headers: seq<Header>, i: nat)
      requires Sound()
      ensures !CommitsAt(i) ==> Commits(headers, i + 1) == Commits(headers, i)
      ensures CommitsAt(i) ==> (Commits(headers, i) == [] <==> i >= |headers|)
      ensures CommitsAt(i) && i < |headers| ==>
        Commits(headers, i)[0] == bit(hash(headers[i])) && Commits(headers, i)[1..] == Commits(headers, i + 1)
    {
    }

    /** A header that connects, keeps to the rule and has the bit that is due extends the second download. */
    lemma Extended(first: seq<Header>, second: seq<Header>, h: Header)
      requires Sound() && Linked(second) && Matched(first, second)
      ensures h.prev == HashBefore(second, |second|) ==> Linked(second + [h])
      ensures Permitted(second) && Allows(|second|, BitsBefore(second, |second|), h.bits) ==> Permitted(second + [h])
      ensures (CommitsAt(|second|) && Work(second + [h]) < minimumWork ==>
        |second| < |first| && bit(hash(h)) == bit(hash(first[|second|])))
        ==> Matched(first, second + [h])
      ensures second != [] ==> BitsBefore(second, |second|) == second[|second|-1].bits
      ensures second == [] ==> BitsBefore(second, |second|) == start.bits
    {
      if h.prev == HashBefore(second, |second|) {
        LinkedAppend(second, h);
      }
      if Permitted(second) && Allows(|second|, BitsBefore(second, |second|), h.bits) {
        PermittedAppend(second, h);
      }
      if CommitsAt(|second|) && Work(second + [h]) < minimumWork ==>
        |second| < |first| && bit(hash(h)) == bit(hash(first[|second|])) {
        MatchedAppend(first, second, h);
      }
    }

    lemma NothingMatched(first: seq<Header>)
      requires Sound()
      ensures Matched(first, [])
    {
    }

    lemma MatchedAppend(first: seq<Header>, second: seq<Header>, h: Header)
      requires Sound() && Matched(first, second)
      requires CommitsAt(|second|) && Work(second + [h]) < minimumWork ==>
        |second| < |first| && bit(hash(h)) == bit(hash(first[|second|]))
      ensures Matched(first, second + [h])
    {
      var more := second + [h];
      forall i | 0 <= i < |more| && CommitsAt(i) && Work(more[..i+1]) < minimumWork
        ensures i < |first| && bit(hash(more[i])) == bit(hash(first[i]))
      {
        if i < |second| {
          assert more[..i+1] == second[..i+1];
        } else {
          assert more[..i+1] == more;
        }
      }
    }
  }

  lemma CompressPush(headers: seq<Header>, k: nat, h: Header)
    requires k <= |headers|
    ensures CompressAll((headers + [h])[k..]) == CompressAll(headers[k..]) + [Compress(h)]
  {
    assert (headers + [h])[k..] == headers[k..] + [h];
  }

  ghost function CompressAll(headers: seq<Header>): seq<Compressed> {
    seq(|headers|, i requires 0 <= i < |headers| => Compress(headers[i]))
  }

  datatype State = Presync | Redownload | Final

  datatype ProcessingResult = ProcessingResult(headers: seq<Header>, success: bool, requestMore: bool)

  class HeadersSyncState {
    const setup: Setup
    var state: State
    var commitments: seq<bool>
    var lastHeader: Header
    var currentHeight: int
    var currentWork: nat
    var redownloaded: seq<Compressed>
    var bufferLastHeight: int
    var bufferLastHash: Hash
    var bufferFirstPrevHash: Hash
    var redownloadWork: nat
    var processAll: bool

    /** The headers accepted in the two downloads, and those released. */
    ghost var presync: seq<Header>
    ghost var redownload: seq<Header>
    ghost var released: seq<Header>

    ghost predicate PresyncOk()
      reads this
      requires setup.Sound()
    {
      && redownload == [] && released == [] && !processAll
      && currentHeight == setup.startHeight + |presync| && currentWork == setup.Work(presync)
      && lastHeader == (if presync == [] then setup.start else presync[|presync|-1])
      && commitments == setup.Commits(presync, 0) && |commitments| <= setup.maxCommitments
    }

    ghost predicate RedownloadOk()
      reads this
      requires setup.Sound()
    {
      && setup.Work(presync) >= setup.minimumWork && |released| <= |redownload|
      && redownloaded == CompressAll(redownload[|released|..])
      && bufferLastHeight == setup.startHeight + |redownload|
      && bufferLastHash == setup.HashBefore(redownload, |redownload|)
      && bufferFirstPrevHash == setup.HashBefore(redownload, |released|)
      && redownloadWork == setup.Work(redownload)
      && (processAll <==> redownload != [] && redownloadWork >= setup.minimumWork)
      && (!processAll ==> commitments == setup.Commits(presync, |redownload|))
    }

    /** What is true in every state: the released headers are a prefix of those redownloaded, which are a chain from the
        starting point that agrees with the first download in every bit that was due. */
    ghost predicate Common()
      reads this
    {
      && setup.Sound()
      && released <= redownload && setup.Linked(redownload) && setup.Permitted(presync)
        && setup.Matched(presync, redownload)
      && (setup.bufferSize > 0 ==> setup.Permitted(redownload))
    }

    /** With a buffer, the last header redownloaded is still in it. */
    ghost predicate Lookahead()
      reads this
    {
      setup.bufferSize > 0 && redownload != [] ==> |released| < |redownload|
    }

    ghost predicate Valid()
      reads this
    {
      && Common()
      && (state.Presync? ==> PresyncOk())
      && (state.Redownload? ==> RedownloadOk() && Lookahead())
    }

    constructor (setup: Setup)
      requires setup.Sound()
      ensures Valid() && this.setup == setup && state.Presync? && presync == []
    {
      this.setup := setup;
      state := Presync;
      commitments := [];
      lastHeader := setup.start;
      currentHeight := setup.startHeight;
      currentWork := setup.startWork;
      redownloaded := [];
      bufferLastHeight := 0;
      bufferLastHash := 0;
      bufferFirstPrevHash := 0;
      redownloadWork := 0;
      processAll := false;
      presync := [];
      redownload := [];
      released := [];
    }

    method Finalize()
      requires Common()
      modifies this
      ensures Valid() && state.Final? && presync == old(presync) && redownload == old(redownload)
        && released == old(released)
      ensures commitments == [] && redownloaded == []
    {
      commitments := [];
      lastHeader := Header(0, 0, 0, 0, 0, 0);
      redownloaded := [];
      bufferLastHash := 0;
      bufferFirstPrevHash := 0;
      processAll := false;
      currentHeight := 0;
      state := Final;
    }

    /** PRESYNC, one header: on failure the object is only good for Finalize. */
    method ValidateAndProcessSingleHeader(current: Header) returns (ok: bool)
      requires Valid() && state.Presync?
      modifies this`commitments, this`currentWork, this`lastHeader, this`currentHeight, this`presync
      ensures Common() && (ok ==> Valid() && presync == old(presync) + [current])
      ensures !ok ==> presync == old(presync)
      ensures ok <==> setup.PresyncStep(old(presync), current)
    {
      hide Setup.Permitted, Setup.Matched, Setup.Linked, Setup.Work, Setup.Commits, Setup.Due;
      setup.CommitsAppend(presync, current, 0);
      setup.WorkAppend(presync, current);
      setup.NothingMatched(presync + [current]);
      var nextHeight := currentHeight + 1;
      if !setup.permitted(nextHeight, lastHeader.bits, current.bits) {
        return false;
      }
      if setup.Due(nextHeight) {
        commitments := commitments + [setup.bit(setup.hash(current))];
        if |commitments| > setup.maxCommitments {
          return false;
        }
      }
      setup.PermittedAppend(presync, current);
      currentWork := currentWork + setup.proof(current.bits);
      lastHeader := current;
      currentHeight := nextHeight;
      presync := presync + [current];
      return true;
    }

    /** PRESYNC, one message; enough work switches to REDOWNLOAD. */
    method ValidateAndStoreHeadersCommitments(headers: seq<Header>) returns (ok: bool)
      requires Valid() && state.Presync? && headers != []
      modifies this
      ensures Common() && redownload == [] && released == [] && old(presync) <= presync
      ensures ok <==>
        headers[0].prev == setup.HashBefore(old(presync), |old(presync)|) && setup.Presyncs(old(presync), headers)
      ensures ok ==> Valid() && presync == old(presync) + headers
      ensures ok ==> state == if setup.Work(presync) >= setup.minimumWork then Redownload else Presync
    {
      hide Setup.Permitted, Setup.Matched, Setup.Linked, Setup.Work, Setup.Commits, Setup.Due, Setup.PresyncStep;
      if headers[0].prev != setup.hash(lastHeader) {
        return false;
      }
      for i := 0 to |headers|
        invariant Valid() && state.Presync? && presync == old(presync) + headers[..i]
        invariant forall k | 0 <= k < i :: setup.PresyncStep(old(presync) + headers[..k], headers[k])
      {
        assert headers[..i+1] == headers[..i] + [headers[i]];
        ok := ValidateAndProcessSingleHeader(headers[i]);
        if !ok {
          return false;
        }
      }
      assert headers[..|headers|] == headers;
      if currentWork >= setup.minimumWork {
        setup.WorkNone();
        redownloaded := [];
        bufferLastHeight := setup.startHeight;
        bufferFirstPrevHash := setup.hash(setup.start);
        bufferLastHash := setup.hash(setup.start);
        redownloadWork := setup.startWork;
        state := Redownload;
      }
      return true;
    }

    /** A commitment is due for the header at index i: the next one stored is that of the first download's header i. */
    method CheckCommitment(header: Header, ghost i: nat) returns (ok: bool)
      requires setup.Sound() && setup.CommitsAt(i) && commitments == setup.Commits(presync, i)
      modifies this`commitments
      ensures ok <==> i < |presync| && setup.bit(setup.hash(header)) == setup.bit(setup.hash(presync[i]))
      ensures ok ==> commitments == setup.Commits(presync, i + 1)
    {
      setup.CommitsNext(presync, i);
      if |commitments| == 0 {
        return false;
      }
      var commitment := setup.bit(setup.hash(header));
      var expected := commitments[0];
      commitments := commitments[1..];
      return commitment == expected;
    }

    /** REDOWNLOAD, one header: it must connect, keep to the difficulty rule, and have the bit committed to, if due. */
    method ValidateAndStoreRedownloadedHeader(header: Header) returns (ok: bool)
      requires Valid() && state.Redownload?
      modifies this`commitments, this`redownloaded, this`bufferLastHeight, this`bufferLastHash, this`redownloadWork,
        this`processAll, this`redownload
      ensures Common() && (ok ==> Valid() && redownload == old(redownload) + [header])
      ensures !ok ==> redownload == old(redownload)
      ensures ok <==> setup.RedownloadStep(presync, old(redownload), |released|, header)
    {
      hide Setup.Permitted, Setup.Matched, Setup.Linked, Setup.Work, CompressAll, Setup.Commits, Setup.HashBefore,
        Setup.BitsBefore, Setup.Due;
      setup.WorkAppend(redownload, header);
      setup.CommitsNext(presync, |redownload|);
      setup.Extended(presync, redownload, header);
      LastBits(redownload, |released|);
      var nextHeight := bufferLastHeight + 1;
      if header.prev != bufferLastHash {
        return false;
      }
      var previousBits := if redownloaded != [] then redownloaded[|redownloaded|-1].bits else setup.start.bits;
      if !setup.permitted(nextHeight, previousBits, header.bits) {
        return false;
      }
      redownloadWork := redownloadWork + setup.proof(header.bits);
      if redownloadWork >= setup.minimumWork {
        processAll := true;
      }
      if !processAll && setup.Due(nextHeight) {
        ok := CheckCommitment(header, |redownload|);
        if !ok {
          return false;
        }
      }
      Store(header);
      return true;
    }

    /** The end of ValidateAndStoreRedownloadedHeader: a header that passed the checks enters the buffer. */
    method Store(header: Header)
      requires setup.Sound() && state.Redownload? && released <= redownload && setup.Work(presync) >= setup.minimumWork
      requires setup.Permitted(presync) && (setup.bufferSize > 0 ==> setup.Permitted(redownload + [header]))
      requires setup.Linked(redownload + [header]) && setup.Matched(presync, redownload + [header])
      requires redownloaded == CompressAll(redownload[|released|..])
        && bufferLastHeight == setup.startHeight + |redownload|
      requires bufferFirstPrevHash == setup.HashBefore(redownload, |released|)
        && redownloadWork == setup.Work(redownload + [header])
      requires (processAll <==> redownloadWork >= setup.minimumWork)
        && (!processAll ==> commitments == setup.Commits(presync, |redownload| + 1))
      modifies this`redownloaded, this`bufferLastHeight, this`bufferLastHash, this`redownload
      ensures Valid() && redownload == old(redownload) + [header]
    {
      hide Setup.Permitted, Setup.Matched, Setup.Linked, Setup.Work, CompressAll, Setup.Commits;
      CompressPush(redownload, |released|, header);
      redownloaded := redownloaded + [Compress(header)];
      bufferLastHeight := bufferLastHeight + 1;
      bufferLastHash := setup.hash(header);
      redownload := redownload + [header];
    }

    /** Release what has enough later headers on top, or everything once the work suffices; each header is rebuilt from
        the hash of the one before. */
    method PopHeadersReadyForAcceptance() returns (ret: seq<Header>)
      requires Valid() && state.Redownload?
      modifies this`redownloaded, this`bufferFirstPrevHash, this`released
      ensures Common() && RedownloadOk() && (!processAll ==> Lookahead()) && released == old(released) + ret
      ensures |released| == if processAll
        || |redownload| - |old(released)| <= setup.bufferSize
          then (if processAll then |redownload| else |old(released)|)
                            else |redownload| - setup.bufferSize
    {
      hide Setup.Permitted, Setup.Matched, Setup.Work, Setup.Linked, CompressAll;
      ret := [];
      LastBits(redownload, |released|);
      while |redownloaded| > setup.bufferSize || (|redownloaded| > 0 && processAll)
        invariant Common() && RedownloadOk() && released == old(released) + ret
          && |redownloaded| == |redownload| - |released|
        invariant !processAll && |redownload| - |old(released)| <= setup.bufferSize ==> ret == []
        invariant !processAll && |redownload| - |old(released)| > setup.bufferSize ==>
          |redownloaded| >= setup.bufferSize
        decreases |redownloaded|
      {
        Rebuild(setup, redownload, released);
        var full := redownloaded[0].Full(bufferFirstPrevHash);
        ret := ret + [full];
        redownloaded := redownloaded[1..];
        bufferFirstPrevHash := setup.hash(full);
        released := released + [full];
      }
    }

    /** One message of headers. */
    method ProcessNextHeaders(received: seq<Header>, fullMessage: bool) returns (r: ProcessingResult)
      requires Valid()
      modifies this
      ensures Valid() && released == old(released) + r.headers && old(presync) <= presync
        && old(redownload) <= redownload
      ensures received == [] || old(state).Final? ==>
        r == ProcessingResult([], false, false) && state == old(state) && presync == old(presync)
          && redownload == old(redownload)
      ensures old(state).Presync? ==>
        redownload == [] && (received != [] && r.success ==> presync == old(presync) + received)
      ensures old(state).Presync? && received != [] ==>
        (&& (r.success <==>
          received[0].prev == setup.HashBefore(old(presync), |old(presync)|) && setup.Presyncs(old(presync), received))
         && (r.requestMore <==> r.success && (fullMessage || setup.Work(presync) >= setup.minimumWork)))
      ensures old(state).Redownload? && received != [] ==>
        (&& (r.success <==> setup.Redownloads(presync, old(redownload), |old(released)|, received))
         && (r.requestMore <==> r.success && fullMessage && setup.Work(redownload) < setup.minimumWork))
      ensures old(state).Redownload? && received != [] && r.success ==>
        |released| == (if setup.Work(redownload) >= setup.minimumWork then |redownload|
                       else if |redownload| - |old(released)| <= setup.bufferSize then |old(released)|
                         else |redownload| - setup.bufferSize)
      ensures old(state).Redownload? ==> presync == old(presync) && redownload <= old(redownload) + received
      ensures old(state).Redownload? && r.success ==> redownload == old(redownload) + received
      ensures received != [] && !old(state).Final? ==>
        (state.Final? <==> !(r.success && r.requestMore)) && (!r.success ==> r.headers == [])
      ensures old(state).Presync? && received != [] && r.success && r.requestMore ==>
        state == if setup.Work(presync) >= setup.minimumWork then Redownload else Presync
      ensures state.Redownload? && old(state).Presync? ==> setup.Work(presync) >= setup.minimumWork
      ensures old(state).Redownload? && received != [] && r.success ==>
        (setup.Permitted(redownload) <==>
           setup.Permitted(old(redownload)) && setup.Obeys(old(redownload), |old(released)|, received[0]))
      ensures r.headers != [] ==>
        |redownload| - |released| >= setup.bufferSize || setup.Work(redownload) >= setup.minimumWork
      ensures r.headers != [] ==>
        setup.Confirmed(presync, redownload, |released|) || setup.Work(redownload) >= setup.minimumWork
      ensures state.Presync? ==>
        |presync| / setup.period <= |commitments| <= |presync| / setup.period + 1
    {
      hide Setup.Permitted, Setup.Matched, Setup.Work, Setup.Linked, CompressAll, Setup.Commits, Setup.Presyncs,
           Setup.Redownloads, Setup.Obeys, Setup.Confirmed, Setup.Due, Setup.Rounds, Setup.HashBefore,
           Setup.BitsBefore;
      r := ProcessingResult([], false, false);
      setup.CommitsCount(presync, 0);
      if received == [] || state.Final? {
        return;
      }
      if state.Presync? {
        var ok := ValidateAndStoreHeadersCommitments(received);
        setup.CommitsCount(presync, 0);
        r := r.(success := ok, requestMore := ok && (fullMessage || state.Redownload?));
      } else {
        var ok := StoreAll(received);
        r := r.(success := ok);
        if ok {
          setup.MessagePermitted(presync, old(redownload), |old(released)|, received);
          var headers := PopHeadersReadyForAcceptance();
          r := r.(headers := headers);
          LastBits(redownload, |released|);
          if headers != [] && setup.Work(redownload) < setup.minimumWork {
            setup.BufferConfirms(presync, redownload, |released|);
          }
          if !(|redownloaded| == 0 && processAll) && fullMessage {
            r := r.(requestMore := true);
          }
        }
      }
      if !(r.success && r.requestMore) {
        Finalize();
      }
    }

    /** The loop over the headers of a message in REDOWNLOAD. */
    method StoreAll(received: seq<Header>) returns (ok: bool)
      requires Valid() && state.Redownload?
      modifies this`commitments, this`redownloaded, this`bufferLastHeight, this`bufferLastHash, this`redownloadWork,
        this`processAll, this`redownload
      ensures Common() && old(redownload) <= redownload <= old(redownload) + received
      ensures ok ==> Valid() && redownload == old(redownload) + received
      ensures ok <==> setup.Redownloads(presync, old(redownload), |released|, received)
    {
      hide Setup.Permitted, Setup.Matched, Setup.Work, Setup.Linked, CompressAll, Setup.Commits, Setup.RedownloadStep;
      for i := 0 to |received|
        invariant Valid() && redownload == old(redownload) + received[..i]
        invariant forall k | 0 <= k < i ::
          setup.RedownloadStep(presync, old(redownload) + received[..k], |released|, received[k])
      {
        assert received[..i+1] == received[..i] + [received[i]];
        ok := ValidateAndStoreRedownloadedHeader(received[i]);
        if !ok {
          return false;
        }
      }
      return true;
    }
  }

  /** A rule that only allows a change from a difficulty of zero, no buffer, and a starting point of difficulty zero. */
  const UNBUFFERED := Setup((h: Header) => 0, (x: Hash) => true, (bits: nat) => bits,
                            (height: int, before: nat, bits: nat) => before == 0,
                            3, 0, 0, 10, Header(0, 0, 0, 0, 0, 0), 0, 0, 7)

  /** Without a buffer the rule may be broken: the second of two headers follows one of difficulty one, and is accepted
      as it is compared with the starting point. */
  method BrokenRule() returns (s: HeadersSyncState)
    ensures s.Valid() && s.state.Redownload? && |s.redownload| == 2 && !s.setup.Permitted(s.redownload)
  {
    var setup := UNBUFFERED;
    var high, low := Header(0, 0, 0, 0, 7, 0), Header(0, 0, 0, 0, 1, 0);
    s := new HeadersSyncState(setup);
    UnbufferedSteps(high, low);
    hide Setup.Work, Setup.Presyncs, Setup.Redownloads, Setup.Permitted, HeadersSyncState.Valid;
    var r := s.ProcessNextHeaders([high], true);
    r := s.ProcessNextHeaders([low], true);
    r := s.ProcessNextHeaders([low], true);
  }

  lemma UnbufferedSteps(high: Header, low: Header)
    requires high == Header(0, 0, 0, 0, 7, 0) && low == Header(0, 0, 0, 0, 1, 0)
    ensures var s := UNBUFFERED;
      && s.Sound() && s.Work([high]) == 7 && s.Work([low]) == 1 && s.Work([low, low]) == 2
      && s.Presyncs([], [high]) && s.Redownloads([high], [], 0, [low]) && s.Redownloads([high], [low], 1, [low])
      && !s.Permitted([low, low])
  {
    var s := UNBUFFERED;
    assert [high][..0] == [] && [low][..0] == [] && [low, low][..1] == [low];
    assert s.Commits([high], 0) == s.Commits([high], 1) == [];
    assert !s.CommitsAt(0) && !s.CommitsAt(1);
    assert [] + [high] == [high] && s.PresyncStep([], high);
    assert !s.Allows(1, s.BitsBefore([low, low], 1), low.bits);
  }

  /** The first header of the buffer with the hash before it is the header that was received. */
  lemma Rebuild(setup: Setup, redownload: seq<Header>, released: seq<Header>)
    requires setup.Linked(redownload) && released <= redownload && |released| < |redownload|
    ensures var k := |released|; var rest := CompressAll(redownload[k..]);
      && |rest| == |redownload| - k && rest[0].Full(setup.HashBefore(redownload, k)) == redownload[k]
      && rest[1..] == CompressAll(redownload[k+1..])
      && released + [redownload[k]] <= redownload && setup.hash(redownload[k]) == setup.HashBefore(redownload, k + 1)
  {
  }

  lemma LastBits(headers: seq<Header>, k: nat)
    requires k <= |headers|
    ensures |CompressAll(headers[k..])| == |headers| - k
    ensures k < |headers| ==> CompressAll(headers[k..])[|headers|-k-1].bits == headers[|headers|-1].bits
  {
  }
}

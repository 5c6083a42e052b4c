/** Feerate diagrams of linearizations, and what it means for one to be nowhere below another.
    f gives each transaction its fee and size. */
module Diagram {
  import opened FeeFracs

  type Fees = nat -> FeeFrac

  function Total(f: Fees, s: seq<nat>): FeeFrac {
    if s == [] then EMPTY else f(s[0]).Plus(Total(f, s[1..]))
  }

  /** The largest Excess of any prefix of s at the rate of r: how far the upper concave hull of
      the points (size, fee) of s reaches above a line of that rate through the origin. */
  function Peak(f: Fees, s: seq<nat>, r: FeeFrac): int {
    if s == [] then 0 else
    var rest := Excess(f(s[0]), r) + Peak(f, s[1..], r);
    if rest >= 0 then rest else 0
  }

  /** The diagram of m is nowhere below that of s, in terms of supporting lines. */
  ghost predicate AtLeast(f: Fees, m: seq<nat>, s: seq<nat>) {
    forall r: FeeFrac | r.size > 0 :: Peak(f, m, r) >= Peak(f, s, r)
  }

  lemma {:induction false} TotalConcat(f: Fees, a: seq<nat>, b: seq<nat>)
    ensures Total(f, a + b) == Total(f, a).Plus(Total(f, b))
  {
    if a == [] {
      assert a + b == b;
    } else {
      assert (a + b)[0] == a[0] && (a + b)[1..] == a[1..] + b;
      TotalConcat(f, a[1..], b);
    }
  }

  lemma TotalOne(f: Fees, x: nat)
    ensures Total(f, [x]) == f(x)
  {
    assert Total(f, [x][1..]) == EMPTY;
  }

  lemma {:induction false} PeakConcat(f: Fees, a: seq<nat>, b: seq<nat>, r: FeeFrac)
    ensures Peak(f, a + b, r) ==
            (var through := Excess(Total(f, a), r) + Peak(f, b, r);
             if through >= Peak(f, a, r) then through else Peak(f, a, r))
    ensures Peak(f, a, r) >= 0 && Peak(f, a, r) >= Excess(Total(f, a), r)
  {
    if a == [] {
      assert a + b == b;
      PeakNonNegative(f, b, r);
    } else {
      PeakConcat(f, a[1..], b, r);
      assert (a + b)[1..] == a[1..] + b;
      ExcessPlus(f(a[0]), Total(f, a[1..]), r);
    }
  }

  lemma PeakNonNegative(f: Fees, s: seq<nat>, r: FeeFrac)
    ensures Peak(f, s, r) >= 0
  {
  }

  /** Some prefix reaches the peak, and no prefix exceeds it. */
  lemma {:induction false} PeakIsMaximum(f: Fees, s: seq<nat>, r: FeeFrac) returns (k: nat)
    ensures k <= |s| && Peak(f, s, r) == Excess(Total(f, s[..k]), r)
    ensures forall j | 0 <= j <= |s| :: Excess(Total(f, s[..j]), r) <= Peak(f, s, r)
  {
    k := PeakReached(f, s, r);
    forall j | 0 <= j <= |s| ensures Excess(Total(f, s[..j]), r) <= Peak(f, s, r) {
      assert s == s[..j] + s[j..];
      PeakConcat(f, s[..j], s[j..], r);
    }
  }

  lemma {:induction false} PeakReached(f: Fees, s: seq<nat>, r: FeeFrac) returns (k: nat)
    ensures k <= |s| && Peak(f, s, r) == Excess(Total(f, s[..k]), r)
  {
    if Peak(f, s, r) == 0 {
      k := 0;
    } else {
      var j := PeakReached(f, s[1..], r);
      k := j + 1;
      assert s[..k][1..] == s[1..][..j];
      ExcessPlus(f(s[0]), Total(f, s[1..][..j]), r);
    }
  }

  predicate Sized(f: Fees, s: seq<nat>) { forall x | x in s :: f(x).size > 0 }

  lemma TotalPositive(f: Fees, s: seq<nat>)
    requires Sized(f, s)
    ensures s != [] ==> Total(f, s).size > 0
    ensures s == [] ==> Total(f, s) == EMPTY
  {
  }

  // ---- Chunks

  function Flatten(pieces: seq<seq<nat>>): seq<nat> {
    if pieces == [] then [] else pieces[0] + Flatten(pieces[1..])
  }

  /** A piece every proper prefix of which has a strictly lower feerate than the whole. */
  ghost predicate Solid(f: Fees, c: seq<nat>) {
    c != [] && forall k | 0 < k < |c| :: Lower(Total(f, c[..k]), Total(f, c))
  }

  /** What a chunking is, said without an algorithm: the pieces concatenate to s, each is solid,
      and their feerates never increase. */
  ghost predicate IsChunking(f: Fees, pieces: seq<seq<nat>>, s: seq<nat>) {
    && Flatten(pieces) == s
    && (forall c | c in pieces :: Solid(f, c))
    && NonIncreasing(f, pieces)
  }

  ghost predicate NonIncreasing(f: Fees, pieces: seq<seq<nat>>) {
    forall i | 0 < i < |pieces| :: !Higher(Total(f, pieces[i]), Total(f, pieces[i-1]))
  }

  lemma {:induction false} FlattenConcat(a: seq<seq<nat>>, b: seq<seq<nat>>)
    ensures Flatten(a + b) == Flatten(a) + Flatten(b)
  {
    if a == [] {
      assert a + b == b;
    } else {
      var c, t := a[0], a[1..];
      FlattenConcat(t, b);
      assert Flatten(a + b) == c + Flatten(t + b) by { assert (a + b)[1..] == t + b; }
      hide Flatten;
      ConcatAssoc(c, Flatten(t), Flatten(b));
    }
  }

  lemma ConcatAssoc(a: seq<nat>, b: seq<nat>, c: seq<nat>)
    ensures a + (b + c) == a + b + c
  {
  }

  lemma FlattenOne(c: seq<nat>)
    ensures Flatten([c]) == c
  {
    assert Flatten([c][1..]) == [];
  }

  lemma {:induction false} SizedPieces(f: Fees, pieces: seq<seq<nat>>)
    requires Sized(f, Flatten(pieces))
    ensures forall c | c in pieces :: Sized(f, c)
  {
    if pieces != [] {
      assert Sized(f, pieces[0]) by {
        forall x | x in pieces[0] ensures f(x).size > 0 { assert x in Flatten(pieces); }
      }
      assert Sized(f, Flatten(pieces[1..])) by {
        forall x | x in Flatten(pieces[1..]) ensures f(x).size > 0 { assert x in Flatten(pieces); }
      }
      SizedPieces(f, pieces[1..]);
    }
  }

  /** The rest of a solid piece after a proper prefix has a strictly higher feerate. */
  lemma SolidSplit(f: Fees, c: seq<nat>, k: nat)
    requires Solid(f, c) && 0 < k < |c|
    ensures Total(f, c) == Total(f, c[..k]).Plus(Total(f, c[k..]))
    ensures Higher(Total(f, c[k..]), Total(f, c))
    ensures Lower(Total(f, c[..k]), Total(f, c))
  {
    assert c == c[..k] + c[k..];
    assert Lower(Total(f, c[..k]), Total(f, c));
    hide Total, Solid;
    TotalConcat(f, c[..k], c[k..]);
    RestHigher(Total(f, c[..k]), Total(f, c[k..]));
  }

  lemma RestHigher(a: FeeFrac, b: FeeFrac)
    requires Lower(a, a.Plus(b))
    ensures Higher(b, a.Plus(b))
  {
    SumBetween(a, b);
  }

  lemma SolidMerge(f: Fees, a: seq<nat>, b: seq<nat>)
    requires Sized(f, a + b) && Solid(f, a) && Solid(f, b)
    requires Higher(Total(f, b), Total(f, a))
    ensures Solid(f, a + b)
  {
    assert Sized(f, a) by { forall x | x in a ensures f(x).size > 0 { assert x in a + b; } }
    assert Sized(f, b) by { forall x | x in b ensures f(x).size > 0 { assert x in a + b; } }
    var ta, tb, t := Total(f, a), Total(f, b), Total(f, a + b);
    TotalConcat(f, a, b);
    TotalPositive(f, a); TotalPositive(f, b);
    SumBetween(ta, tb);
    forall k | 0 < k < |a + b| ensures Lower(Total(f, (a + b)[..k]), t) {
      if k < |a| {
        assert (a + b)[..k] == a[..k];
        TotalPositive(f, a[..k]);
        ExcessTransfer(t, ta, Total(f, a[..k]));
      } else if k == |a| {
        assert (a + b)[..k] == a;
      } else {
        assert (a + b)[..k] == a + b[..k-|a|];
        SolidMergeLate(f, a, b, k - |a|);
      }
    }
  }

  lemma SolidMergeLate(f: Fees, a: seq<nat>, b: seq<nat>, k: nat)
    requires Sized(f, b) && Solid(f, b) && 0 < k < |b| && a != [] && Sized(f, a)
    requires Higher(Total(f, b), Total(f, a))
    ensures Lower(Total(f, a + b[..k]), Total(f, a + b))
  {
    var p, q := b[..k], b[k..];
    var ta, tb, tp, tq := Total(f, a), Total(f, b), Total(f, p), Total(f, q);
    SolidSplit(f, b, k);
    TotalConcat(f, a, p);
    TotalConcat(f, a, b);
    TotalPositive(f, a);
    TotalPositive(f, b);
    TotalPositive(f, q);
    hide Total, Solid, Sized;
    var t := ta.Plus(tb);
    SumBetween(ta, tb);
    ExcessTransfer(tq, tb, t);
    SumBetween(ta.Plus(tp), tq);
    assert t == ta.Plus(tp).Plus(tq);
  }

  /** Inside a solid piece no point rises above the line through its ends. */
  lemma SolidPeak(f: Fees, c: seq<nat>, r: FeeFrac)
    requires Sized(f, c) && Solid(f, c) && r.size > 0
    ensures Peak(f, c, r) == if Excess(Total(f, c), r) >= 0 then Excess(Total(f, c), r) else 0
  {
    hide Total, Peak;
    PeakConcat(f, c, [], r);
    var k := PeakIsMaximum(f, c, r);
    assert c[..|c|] == c;
    assert Excess(Total(f, c[..0]), r) == 0 by { TotalPositive(f, c[..0]); }
    TotalPositive(f, c);
    if 0 < k < |c| {
      SolidSplit(f, c, k);
      var p, q, t := Total(f, c[..k]), Total(f, c[k..]), Total(f, c);
      TotalPositive(f, c[..k]); TotalPositive(f, c[k..]);
      ExcessPlus(p, q, r);
      if Excess(p, r) > 0 {
        ExcessTransfer(t, p, r);
        ExcessTransfer(q, t, r);
      }
    }
  }

  // ---- The chunking algorithm

  /** Append c as a new last chunk, absorbing earlier chunks of strictly lower feerate. */
  function Absorb(f: Fees, pieces: seq<seq<nat>>, c: seq<nat>): seq<seq<nat>>
    decreases |pieces|
  {
    if pieces != [] && Higher(Total(f, c), Total(f, pieces[|pieces|-1]))
    then Absorb(f, pieces[..|pieces|-1], pieces[|pieces|-1] + c)
    else pieces + [c]
  }

  function Chunking(f: Fees, s: seq<nat>): seq<seq<nat>> {
    if s == [] then [] else Absorb(f, Chunking(f, s[..|s|-1]), [s[|s|-1]])
  }

  lemma {:induction false} AbsorbChunks(f: Fees, pieces: seq<seq<nat>>, c: seq<nat>, s: seq<nat>)
    requires Sized(f, s + c) && IsChunking(f, pieces, s) && Solid(f, c)
    ensures IsChunking(f, Absorb(f, pieces, c), s + c)
    decreases |pieces|
  {
    if pieces != [] && Higher(Total(f, c), Total(f, pieces[|pieces|-1])) {
      var init, last := pieces[..|pieces|-1], pieces[|pieces|-1];
      assert pieces == init + [last];
      FlattenConcat(init, [last]);
      FlattenOne(last);
      assert s + c == Flatten(init) + (last + c);
      assert Sized(f, last + c) by {
        forall x | x in last + c ensures f(x).size > 0 { assert x in s + c; }
      }
      SolidMerge(f, last, c);
      AbsorbChunks(f, init, last + c, Flatten(init));
    } else {
      FlattenConcat(pieces, [c]);
      FlattenOne(c);
    }
  }

  /** The algorithm computes a chunking ... */
  lemma {:induction false} ChunkingIsChunking(f: Fees, s: seq<nat>)
    requires Sized(f, s)
    ensures IsChunking(f, Chunking(f, s), s)
  {
    if s != [] {
      var init, last := s[..|s|-1], [s[|s|-1]];
      assert s == init + last;
      ChunkingIsChunking(f, init);
      AbsorbChunks(f, Chunking(f, init), last, init);
    }
  }

  /** ... and there is only one. */
  lemma {:induction false} ChunkingUnique(f: Fees, p: seq<seq<nat>>, q: seq<seq<nat>>, s: seq<nat>)
    requires Sized(f, s) && IsChunking(f, p, s) && IsChunking(f, q, s)
    ensures p == q
    decreases |p|
  {
    assert p != [] ==> Solid(f, p[0]);
    assert q != [] ==> Solid(f, q[0]);
    if p == [] || q == [] {
    } else {
      FirstNotShorter(f, p, q, s);
      FirstNotShorter(f, q, p, s);
      assert p[0] == s[..|p[0]|] == q[0];
      assert Flatten(p[1..]) == s[|p[0]|..] == Flatten(q[1..]);
      TailChunking(f, p, s);
      TailChunking(f, q, s);
      ChunkingUnique(f, p[1..], q[1..], s[|p[0]|..]);
      assert p == [p[0]] + p[1..] && q == [q[0]] + q[1..];
    }
  }

  lemma TailChunking(f: Fees, p: seq<seq<nat>>, s: seq<nat>)
    requires p != [] && IsChunking(f, p, s)
    ensures p[0] == s[..|p[0]|] && IsChunking(f, p[1..], s[|p[0]|..])
  {
    forall i | 0 < i < |p[1..]|
      ensures !Higher(Total(f, p[1..][i]), Total(f, p[1..][i-1]))
    {
      assert p[1..][i] == p[i+1] && p[1..][i-1] == p[i];
    }
  }

  lemma FirstNotShorter(f: Fees, p: seq<seq<nat>>, q: seq<seq<nat>>, s: seq<nat>)
    requires Sized(f, s) && IsChunking(f, p, s) && IsChunking(f, q, s) && p != [] && q != []
    ensures |p[0]| >= |q[0]|
  {
    var n, k := |q[0]|, |p[0]|;
    assert p[0] in p && q[0] in q;
    if k < n {
      SizedPieces(f, p);
      TotalPositive(f, p[0]);
      var r := Total(f, p[0]);
      assert q[0] == s[..n] && p[0] == s[..k] == q[0][..k];
      SolidSplit(f, q[0], k);
      SumBetween(r, Total(f, q[0][k..]));
      var tail := Flatten(p[1..]);
      assert tail == s[k..];
      assert q[0][k..] == tail[..n - k];
      FirstIsHighest(f, p);
      PeakOfLowPieces(f, p[1..], r);
      var _ := PeakIsMaximum(f, tail, r);
    }
  }

  /** In a chunking no chunk has a higher feerate than the first. */
  lemma {:induction false} FirstIsHighest(f: Fees, p: seq<seq<nat>>)
    requires p != [] && NonIncreasing(f, p)
    requires forall c | c in p :: Sized(f, c) && c != []
    ensures forall c | c in p :: Excess(Total(f, c), Total(f, p[0])) <= 0
  {
    var r := Total(f, p[0]);
    assert p[0] in p;
    forall c | c in p ensures Total(f, c).size > 0 { TotalPositive(f, c); }
    var i := 1;
    while i < |p|
      invariant 1 <= i <= |p|
      invariant forall j | 0 <= j < i :: Excess(Total(f, p[j]), r) <= 0
    {
      assert p[i] in p && p[i-1] in p;
      ExcessTransfer(r, Total(f, p[i-1]), Total(f, p[i]));
      i := i + 1;
    }
  }

  lemma {:induction false} PeakOfLowPieces(f: Fees, p: seq<seq<nat>>, r: FeeFrac)
    requires r.size > 0
    requires forall c | c in p :: Sized(f, c) && Solid(f, c) && Excess(Total(f, c), r) <= 0
    ensures Peak(f, Flatten(p), r) == 0
  {
    if p != [] {
      assert p[0] in p;
      PeakOfLowPieces(f, p[1..], r);
      SolidPeak(f, p[0], r);
      PeakConcat(f, p[0], Flatten(p[1..]), r);
    }
  }

  // ---- The diagram itself

  /** The feerates of the chunks of s (ChunkLinearization). */
  function ChunkRates(f: Fees, s: seq<nat>): seq<FeeFrac> {
    Totals(f, Chunking(f, s))
  }

  function Totals(f: Fees, pieces: seq<seq<nat>>): seq<FeeFrac> {
    seq(|pieces|, i requires 0 <= i < |pieces| => Total(f, pieces[i]))
  }

  /** Height, at size x, of the diagram through (0, 0) and the cumulative points of cs. */
  function Height(cs: seq<FeeFrac>, x: real): real {
    if cs == [] || cs[0].size <= 0 then 0.0
    else if x <= cs[0].size as real then (x / cs[0].size as real) * cs[0].fee as real
    else cs[0].fee as real + Height(cs[1..], x - cs[0].size as real)
  }

  function Width(cs: seq<FeeFrac>): int {
    if cs == [] then 0 else cs[0].size + Width(cs[1..])
  }

  function RatesPeak(cs: seq<FeeFrac>, r: FeeFrac): int {
    if cs == [] then 0 else
    var rest := Excess(cs[0], r) + RatesPeak(cs[1..], r);
    if rest >= 0 then rest else 0
  }

  /** Excess of the point (x, y) over the line through the origin at the rate of r. */
  function Above(x: real, y: real, r: FeeFrac): real { y * r.size as real - r.fee as real * x }

  ghost predicate Positive(cs: seq<FeeFrac>) { forall c | c in cs :: c.size > 0 }

  ghost predicate Descending(cs: seq<FeeFrac>) {
    forall i, j | 0 <= i < j < |cs| :: !Higher(cs[j], cs[i])
  }

  lemma {:induction false} HeightBelowPeak(cs: seq<FeeFrac>, x: real, r: FeeFrac)
    requires Positive(cs) && r.size > 0 && 0.0 <= x <= Width(cs) as real
    ensures Above(x, Height(cs, x), r) <= RatesPeak(cs, r) as real
  {
    if cs != [] {
      var c := cs[0];
      assert c in cs;
      if x <= c.size as real {
        var t := x / c.size as real;
        var e := Excess(c, r);
        assert 0.0 <= t <= 1.0;
        assert x == t * c.size as real;
        calc {
          Above(x, Height(cs, x), r);
          t * c.fee as real * r.size as real - r.fee as real * (t * c.size as real);
          t * (c.fee as real * r.size as real - r.fee as real * c.size as real);
          t * e as real;
        }
        RatesPeakNonNegative(cs[1..], r);
        if e >= 0 { assert t * e as real <= e as real; } else { assert t * e as real <= 0.0; }
      } else {
        var x' := x - c.size as real;
        HeightBelowPeak(cs[1..], x', r);
        AboveShift(c, x', Height(cs[1..], x'), r);
      }
    }
  }

  lemma RatesPeakNonNegative(cs: seq<FeeFrac>, r: FeeFrac)
    ensures RatesPeak(cs, r) >= 0
  {
  }

  lemma AboveShift(c: FeeFrac, x: real, y: real, r: FeeFrac)
    ensures Above(x + c.size as real, y + c.fee as real, r) == Above(x, y, r) + Excess(c, r) as real
  {
  }

  /** On a descending diagram the slope at x supports it: no point lies above that line. */
  lemma {:induction false} HeightOnPeak(cs: seq<FeeFrac>, x: real) returns (c: FeeFrac)
    requires cs != [] && Positive(cs) && Descending(cs) && 0.0 <= x <= Width(cs) as real
    ensures c in cs && Above(x, Height(cs, x), c) == RatesPeak(cs, c) as real
  {
    var h := cs[0];
    assert h in cs;
    if x <= h.size as real {
      c := h;
      var t := x / h.size as real;
      assert x == t * h.size as real;
      assert Above(x, t * h.fee as real, h) == 0.0;
      LowRatesPeak(cs, h);
    } else {
      var x' := x - h.size as real;
      assert Width(cs[1..]) as real >= x' > 0.0;
      c := HeightOnPeak(cs[1..], x');
      AboveShift(h, x', Height(cs[1..], x'), c);
      var j :| 0 <= j < |cs[1..]| && cs[1..][j] == c;
      assert cs[j + 1] == c;
      RatesPeakNonNegative(cs[1..], c);
    }
  }

  lemma {:induction false} LowRatesPeak(cs: seq<FeeFrac>, r: FeeFrac)
    requires forall c | c in cs :: Excess(c, r) <= 0
    ensures RatesPeak(cs, r) == 0
  {
    if cs != [] { LowRatesPeak(cs[1..], r); }
  }

  /** Some corner of the diagram reaches the peak. */
  lemma {:induction false} CornerAtPeak(cs: seq<FeeFrac>, r: FeeFrac) returns (x: real)
    requires Positive(cs) && r.size > 0
    ensures 0.0 <= x <= Width(cs) as real && Above(x, Height(cs, x), r) == RatesPeak(cs, r) as real
  {
    WidthNonNegative(cs);
    if RatesPeak(cs, r) == 0 {
      x := 0.0;
      HeightAtZero(cs);
    } else {
      var c, more := cs[0], cs[1..];
      assert c in cs;
      WidthNonNegative(more);
      var y := CornerAtPeak(more, r);
      hide Height, Above, Excess;
      x := y + c.size as real;
      HeightNext(cs, y);
      AboveShift(c, y, Height(more, y), r);
    }
  }

  lemma HeightAtZero(cs: seq<FeeFrac>)
    requires Positive(cs)
    ensures Height(cs, 0.0) == 0.0
  {
    assert cs != [] ==> cs[0] in cs;
  }

  lemma HeightNext(cs: seq<FeeFrac>, y: real)
    requires cs != [] && Positive(cs) && y >= 0.0
    ensures Height(cs, y + cs[0].size as real) == cs[0].fee as real + Height(cs[1..], y)
  {
    assert cs[0] in cs;
    if y == 0.0 { HeightAtZero(cs[1..]); }
  }

  lemma WidthNonNegative(cs: seq<FeeFrac>)
    requires Positive(cs)
    ensures Width(cs) >= 0
  {
  }

  /** Chunking keeps the peak at every rate: no prefix of s lies above its chunk diagram. */
  lemma {:induction false} PiecesPeak(f: Fees, p: seq<seq<nat>>, r: FeeFrac)
    requires r.size > 0 && forall c | c in p :: Sized(f, c) && Solid(f, c)
    ensures Peak(f, Flatten(p), r) == RatesPeak(Totals(f, p), r)
    ensures Positive(Totals(f, p)) && Width(Totals(f, p)) == Total(f, Flatten(p)).size
  {
    if p != [] {
      assert p[0] in p;
      PiecesPeak(f, p[1..], r);
      SolidPeak(f, p[0], r);
      PeakConcat(f, p[0], Flatten(p[1..]), r);
      TotalConcat(f, p[0], Flatten(p[1..]));
      TotalPositive(f, p[0]);
      assert Totals(f, p)[1..] == Totals(f, p[1..]);
      PeakNonNegative(f, Flatten(p[1..]), r);
    }
  }

  lemma {:induction false} DescendingTotals(f: Fees, p: seq<seq<nat>>)
    requires NonIncreasing(f, p) && forall c | c in p :: Sized(f, c) && c != []
    ensures Descending(Totals(f, p))
  {
    forall i, j | 0 <= i < j < |p| ensures !Higher(Total(f, p[j]), Total(f, p[i])) {
      var t := p[i..];
      assert NonIncreasing(f, t) by {
        forall k | 0 < k < |t| ensures !Higher(Total(f, t[k]), Total(f, t[k-1])) {
          assert t[k] == p[i + k] && t[k-1] == p[i + k - 1];
        }
      }
      FirstIsHighest(f, t);
      assert p[j] == t[j - i] && p[j] in t;
    }
  }

  /** At every size, the chunk diagram of m is at least as high as the chunk diagram of s. */
  ghost predicate HeightAtLeast(f: Fees, m: seq<nat>, s: seq<nat>) {
    forall x: real | 0.0 <= x <= Total(f, s).size as real ::
      Height(ChunkRates(f, m), x) >= Height(ChunkRates(f, s), x)
  }

  /** AtLeast is exactly what it is meant to be. */
  lemma AtLeastIsHeight(f: Fees, m: seq<nat>, s: seq<nat>)
    requires Sized(f, m) && Sized(f, s) && Total(f, m) == Total(f, s)
    ensures AtLeast(f, m, s) <==> HeightAtLeast(f, m, s)
  {
    if AtLeast(f, m, s) {
      forall x: real | 0.0 <= x <= Total(f, s).size as real
        ensures Height(ChunkRates(f, m), x) >= Height(ChunkRates(f, s), x)
      {
        PeaksGiveHeight(f, m, f, s, x);
      }
    }
    if HeightAtLeast(f, m, s) {
      forall r: FeeFrac | r.size > 0 ensures Peak(f, m, r) >= Peak(f, s, r) {
        HeightAtLeastAt(f, m, s, r);
      }
    }
  }

  lemma HeightAtLeastAt(f: Fees, m: seq<nat>, s: seq<nat>, r: FeeFrac)
    requires Sized(f, m) && Sized(f, s) && Total(f, m) == Total(f, s)
    requires HeightAtLeast(f, m, s) && r.size > 0
    ensures Peak(f, m, r) >= Peak(f, s, r)
  {
    ChunkPeak(f, m, r);
    ChunkPeak(f, s, r);
    var hm, hs := ChunkRates(f, m), ChunkRates(f, s);
    var x := CornerAtPeak(hs, r);
    HeightBelowPeak(hm, x, r);
    AboveMonotone(x, Height(hm, x), Height(hs, x), r);
  }

  lemma ChunkPeak(f: Fees, s: seq<nat>, r: FeeFrac)
    requires Sized(f, s) && r.size > 0
    ensures Peak(f, s, r) == RatesPeak(ChunkRates(f, s), r)
    ensures Positive(ChunkRates(f, s)) && Descending(ChunkRates(f, s))
    ensures Width(ChunkRates(f, s)) == Total(f, s).size
    ensures s == [] <==> ChunkRates(f, s) == []
  {
    ChunkingIsChunking(f, s);
    var cs := Chunking(f, s);
    SizedPieces(f, cs);
    DescendingTotals(f, cs);
    PiecesPeak(f, cs, r);
    assert cs != [] ==> Solid(f, cs[0]);
  }

  lemma AboveMonotone(x: real, y: real, z: real, r: FeeFrac)
    requires r.size > 0
    ensures y >= z <==> Above(x, y, r) >= Above(x, z, r)
  {
    var d := (y - z) * r.size as real;
    assert Above(x, y, r) - Above(x, z, r) == d;
  }

  /** Peaks at least as high give a diagram at least as high, even of orders with other fees. */
  lemma PeaksGiveHeight(f: Fees, m: seq<nat>, e: Fees, s: seq<nat>, x: real)
    requires Sized(f, m) && Sized(e, s) && Total(f, m).size == Total(e, s).size
    requires forall r: FeeFrac | r.size > 0 :: Peak(f, m, r) >= Peak(e, s, r)
    requires 0.0 <= x <= Total(e, s).size as real
    ensures Height(ChunkRates(f, m), x) >= Height(ChunkRates(e, s), x)
  {
    var hm, hs := ChunkRates(f, m), ChunkRates(e, s);
    ChunkPeak(f, m, FeeFrac(0, 1));
    ChunkPeak(e, s, FeeFrac(0, 1));
    TotalPositive(f, m);
    TotalPositive(e, s);
    if m != [] {
      hide Total, Peak, Height, Chunking;
      var c := HeightOnPeak(hm, x);
      ChunkPeak(f, m, c);
      ChunkPeak(e, s, c);
      HeightBelowPeak(hs, x, c);
      AboveMonotone(x, Height(hm, x), Height(hs, x), c);
    }
  }

  /** An unchanged prefix keeps the comparison. */
  lemma AtLeastPrefix(f: Fees, p: seq<nat>, m: seq<nat>, s: seq<nat>)
    requires AtLeast(f, m, s)
    ensures AtLeast(f, p + m, p + s)
  {
    forall r: FeeFrac | r.size > 0 ensures Peak(f, p + m, r) >= Peak(f, p + s, r) {
      PeakConcat(f, p, m, r);
      PeakConcat(f, p, s, r);
    }
  }

  /** So does an unchanged rest after parts of the same total. */
  lemma AtLeastSuffix(f: Fees, m: seq<nat>, s: seq<nat>, b: seq<nat>)
    requires AtLeast(f, m, s) && Total(f, m) == Total(f, s)
    ensures AtLeast(f, m + b, s + b)
  {
    forall r: FeeFrac | r.size > 0 ensures Peak(f, m + b, r) >= Peak(f, s + b, r) {
      PeakConcat(f, m, b, r);
      PeakConcat(f, s, b, r);
    }
  }

  lemma AtLeastTrans(f: Fees, a: seq<nat>, b: seq<nat>, c: seq<nat>)
    requires AtLeast(f, a, b) && AtLeast(f, b, c)
    ensures AtLeast(f, a, c)
  {
    forall r: FeeFrac | r.size > 0 ensures Peak(f, a, r) >= Peak(f, c, r) {
      assert Peak(f, a, r) >= Peak(f, b, r);
    }
  }

  /** A positive peak of a chunked order is reached at the end of some chunk, and then the first
      chunk has at least the rate r. */
  lemma {:induction false} PeakAtChunk(f: Fees, p: seq<seq<nat>>, r: FeeFrac) returns (j: nat)
    requires r.size > 0 && p != [] && NonIncreasing(f, p) && forall c | c in p :: Sized(f, c) && Solid(f, c)
    requires Peak(f, Flatten(p), r) > 0
    ensures 0 < j <= |p| && Peak(f, Flatten(p), r) == Excess(Total(f, Flatten(p[..j])), r)
    ensures Excess(Total(f, p[0]), r) >= 0
  {
    assert p[0] in p;
    var rest := Flatten(p[1..]);
    SolidPeak(f, p[0], r);
    PeakConcat(f, p[0], rest, r);
    PeakNonNegative(f, rest, r);
    TotalPositive(f, p[0]);
    if Excess(Total(f, p[0]), r) < 0 {
      FirstIsHighest(f, p);
      forall c | c in p ensures Excess(Total(f, c), r) <= 0 {
        TotalPositive(f, c);
        ExcessTransfer(Total(f, p[0]), Total(f, c), r);
      }
      PeakOfLowPieces(f, p, r);
      assert false;
    }
    if Peak(f, rest, r) == 0 {
      j := 1;
      assert p[..1] == [p[0]];
      FlattenOne(p[0]);
    } else {
      TailChunking(f, p, Flatten(p));
      var i := PeakAtChunk(f, p[1..], r);
      j := i + 1;
      assert p[..j] == [p[0]] + p[1..][..i];
      FlattenConcat([p[0]], p[1..][..i]);
      FlattenOne(p[0]);
      TotalConcat(f, p[0], Flatten(p[1..][..i]));
      ExcessPlus(Total(f, p[0]), Total(f, Flatten(p[1..][..i])), r);
    }
  }
}

/** Bech32 and Bech32m (src/bech32.cpp): the checksum as a linear code over 5-bit symbols, and the strings. */
module Bech32s {
  import opened Options

  // ---------------------------------------------------------------------------------------------
  // The checksum
  // ---------------------------------------------------------------------------------------------

  /** Addition of packed coefficients. */
  function Xor(a: bv30, b: bv30): bv30 { a ^ b }

  function Xor5(a: bv5, b: bv5): bv5 { a ^ b }

  /** What one more symbol does to the remainder: its polynomial times x plus the symbol, modulo the generator. */
  function Step(c: bv30, v: bv5): bv30 {
    Xor(Shifted(c, v), Reduction(Top(c)))
  }

  function Shifted(c: bv30, v: bv5): bv30 { ((c & 0x1ffffff) << 5) ^ (v as bv30) }

  function Top(c: bv30): bv30 { c >> 25 }

  /** The remainder of the leading coefficient times x^6, bit by bit. */
  function Reduction(c0: bv30): bv30 {
    Xor(Xor(Xor(Xor(Term(c0 & 1 != 0, 0x3b6a57b2), Term(c0 & 2 != 0, 0x26508e6d)), Term(c0 & 4 != 0, 0x1ea119fa)),
            Term(c0 & 8 != 0, 0x3d4233dd)), Term(c0 & 16 != 0, 0x2a1462b3))
  }

  function Term(set_: bool, k: bv30): bv30 { if set_ then k else 0 }

  /** The remainder after the symbols, from c on. */
  function Run(c: bv30, v: seq<bv5>): bv30
    decreases |v|
  {
    if v == [] then c else Run(Step(c, v[0]), v[1..])
  }

  method PolyMod(v: seq<bv5>) returns (c: bv30)
    ensures c == Run(1, v)
  {
    hide Step;
    c := 1;
    for i := 0 to |v|
      invariant Run(c, v[i..]) == Run(1, v)
    {
      assert v[i..][1..] == v[i+1..];
      c := PolyModStep(c, v[i]);
    }
    assert v[|v|..] == [];
  }

  /** The body of PolyMod's loop. */
  method PolyModStep(before: bv30, v: bv5) returns (c: bv30)
    ensures c == Step(before, v)
  {
    hide Xor, Shifted, Top;
    var c0 := Top(before);
    c := Shifted(before, v);
    ghost var s := c;
    ghost var t1, t2, t3, t4, t5 := Term(c0 & 1 != 0, 0x3b6a57b2), Term(c0 & 2 != 0, 0x26508e6d),
      Term(c0 & 4 != 0, 0x1ea119fa),
      Term(c0 & 8 != 0, 0x3d4233dd), Term(c0 & 16 != 0, 0x2a1462b3);
    XorZero(s);
    if c0 & 1 != 0 { c := Xor(c, 0x3b6a57b2); }
    assert c == Xor(s, t1);
    XorZero(c);
    if c0 & 2 != 0 { c := Xor(c, 0x26508e6d); }
    assert c == Xor(Xor(s, t1), t2);
    XorZero(c);
    if c0 & 4 != 0 { c := Xor(c, 0x1ea119fa); }
    XorZero(c);
    if c0 & 8 != 0 { c := Xor(c, 0x3d4233dd); }
    XorZero(c);
    if c0 & 16 != 0 { c := Xor(c, 0x2a1462b3); }
    XorAssoc(s, t1, t2);
    XorAssoc(s, Xor(t1, t2), t3);
    XorAssoc(s, Xor(Xor(t1, t2), t3), t4);
    XorAssoc(s, Xor(Xor(Xor(t1, t2), t3), t4), t5);
  }

  lemma XorZero(a: bv30)
    ensures Xor(a, 0) == a && Xor(0, a) == a
  {
  }

  lemma XorSelf(a: bv30)
    ensures Xor(a, a) == 0
  {
  }

  lemma XorAssoc(a: bv30, b: bv30, c: bv30)
    ensures Xor(Xor(a, b), c) == Xor(a, Xor(b, c))
  {
  }

  lemma XorSwap(a: bv30, b: bv30, c: bv30, d: bv30)
    ensures Xor(Xor(a, b), Xor(c, d)) == Xor(Xor(a, c), Xor(b, d))
  {
    hide Xor;
    XorAssoc(a, b, Xor(c, d));
    XorAssoc(b, c, d);
    XorComm(b, c);
    XorAssoc(c, b, d);
    XorAssoc(a, c, Xor(b, d));
  }

  lemma XorComm(a: bv30, b: bv30)
    ensures Xor(a, b) == Xor(b, a)
  {
  }

  lemma XorEqual(a: bv30, b: bv30)
    ensures Xor(a, b) == 0 <==> a == b
  {
    hide Xor;
    XorSelf(a);
    XorAssoc(a, a, b);
    XorZero(a);
    XorZero(b);
  }

  // ---------------------------------------------------------------------------------------------
  // Linearity
  // ---------------------------------------------------------------------------------------------

  lemma ShiftedLinear(a: bv30, b: bv30, u: bv5, v: bv5)
    ensures Shifted(Xor(a, b), Xor5(u, v)) == Xor(Shifted(a, u), Shifted(b, v))
  {
  }

  lemma TopLinear(a: bv30, b: bv30)
    ensures Top(Xor(a, b)) == Xor(Top(a), Top(b))
  {
  }

  lemma BitsLinear(a: bv30, b: bv30)
    ensures Xor(a, b) & 1 != 0 <==> (a & 1 != 0) != (b & 1 != 0)
    ensures Xor(a, b) & 2 != 0 <==> (a & 2 != 0) != (b & 2 != 0)
    ensures Xor(a, b) & 4 != 0 <==> (a & 4 != 0) != (b & 4 != 0)
    ensures Xor(a, b) & 8 != 0 <==> (a & 8 != 0) != (b & 8 != 0)
    ensures Xor(a, b) & 16 != 0 <==> (a & 16 != 0) != (b & 16 != 0)
  {
  }

  lemma TermLinear(p: bool, q: bool, k: bv30)
    ensures Term(p != q, k) == Xor(Term(p, k), Term(q, k))
  {
    hide Xor;
    XorSelf(k);
    XorZero(k);
    XorZero(0);
  }

  lemma ReductionLinear(a: bv30, b: bv30)
    ensures Reduction(Xor(a, b)) == Xor(Reduction(a), Reduction(b))
  {
    hide Xor, Term;
    BitsLinear(a, b);
    SumLinear(a & 1 != 0, a & 2 != 0, a & 4 != 0, a & 8 != 0, a & 16 != 0, b & 1 != 0, b & 2 != 0, b & 4 != 0,
      b & 8 != 0, b & 16 != 0);
  }

  function Sum(p1: bool, p2: bool, p3: bool, p4: bool, p5: bool): bv30 {
    Xor(Xor(Xor(Xor(Term(p1, 0x3b6a57b2), Term(p2, 0x26508e6d)), Term(p3, 0x1ea119fa)), Term(p4, 0x3d4233dd)),
      Term(p5, 0x2a1462b3))
  }

  lemma SumLinear(p1: bool, p2: bool, p3: bool, p4: bool, p5: bool, q1: bool, q2: bool, q3: bool, q4: bool, q5: bool)
    ensures Sum(p1 != q1, p2 != q2, p3 != q3, p4 != q4, p5 != q5) == Xor(Sum(p1, p2, p3, p4, p5),
      Sum(q1, q2, q3, q4, q5))
  {
    hide Xor, Term;
    TermLinear(p1, q1, 0x3b6a57b2);
    TermLinear(p2, q2, 0x26508e6d);
    TermLinear(p3, q3, 0x1ea119fa);
    TermLinear(p4, q4, 0x3d4233dd);
    TermLinear(p5, q5, 0x2a1462b3);
    var a1, a2, a3, a4, a5 := Term(p1, 0x3b6a57b2), Term(p2, 0x26508e6d), Term(p3, 0x1ea119fa), Term(p4, 0x3d4233dd),
      Term(p5, 0x2a1462b3);
    var b1, b2, b3, b4, b5 := Term(q1, 0x3b6a57b2), Term(q2, 0x26508e6d), Term(q3, 0x1ea119fa), Term(q4, 0x3d4233dd),
      Term(q5, 0x2a1462b3);
    XorSwap(a1, b1, a2, b2);
    XorSwap(Xor(a1, a2), Xor(b1, b2), a3, b3);
    XorSwap(Xor(Xor(a1, a2), a3), Xor(Xor(b1, b2), b3), a4, b4);
    XorSwap(Xor(Xor(Xor(a1, a2), a3), a4), Xor(Xor(Xor(b1, b2), b3), b4), a5, b5);
  }

  /** The step is linear. */
  lemma StepLinear(a: bv30, b: bv30, u: bv5, v: bv5)
    ensures Step(Xor(a, b), Xor5(u, v)) == Xor(Step(a, u), Step(b, v))
  {
    hide Xor, Xor5, Shifted, Reduction, Top;
    ShiftedLinear(a, b, u, v);
    TopLinear(a, b);
    ReductionLinear(Top(a), Top(b));
    XorSwap(Shifted(a, u), Shifted(b, v), Reduction(Top(a)), Reduction(Top(b)));
  }

  /** Nothing but zero is taken to zero: the generator's constant term is a unit. */
  lemma StepKernel(a: bv30)
    requires Step(a, 0) == 0
    ensures a == 0
  {
  }

  /** 2^(5k): what a remainder of k symbols stays below. */
  function Limit(k: nat): bv30
    requires k < 6
  {
    if k == 0 then 1 else if k == 1 then 0x20 else if k == 2 then 0x400 else if k == 3 then 0x8000 else if k == 4
      then 0x100000
    else 0x2000000
  }

  /** A remainder of fewer than six symbols is shifted without reduction. */
  lemma StepShifts(c: bv30, v: bv5)
    requires c < 0x2000000
    ensures Step(c, v) == (c << 5) ^ (v as bv30)
  {
  }

  lemma ShiftBelow(c: bv30, v: bv5, k: nat)
    requires k < 5 && c < Limit(k)
    ensures c < 0x2000000 && (c << 5) ^ (v as bv30) < Limit(k + 1)
  {
  }

  lemma ShiftZero(c: bv30, v: bv5)
    requires c < 0x2000000
    ensures (c << 5) ^ (v as bv30) == 0 <==> c == 0 && v == 0
  {
  }

  // ---------------------------------------------------------------------------------------------
  // Error detection
  // ---------------------------------------------------------------------------------------------

  function XorAll(u: seq<bv5>, v: seq<bv5>): seq<bv5>
    requires |u| == |v|
  {
    seq(|u|, i requires 0 <= i < |u| => Xor5(u[i], v[i]))
  }

  ghost predicate AllZero(e: seq<bv5>) {
    forall i | 0 <= i < |e| :: e[i] == 0
  }

  lemma {:induction false} RunLinear(a: bv30, b: bv30, u: seq<bv5>, v: seq<bv5>)
    requires |u| == |v|
    ensures Run(Xor(a, b), XorAll(u, v)) == Xor(Run(a, u), Run(b, v))
    decreases |u|
  {
    hide Xor, Xor5, Step;
    if u != [] {
      StepLinear(a, b, u[0], v[0]);
      assert XorAll(u, v)[1..] == XorAll(u[1..], v[1..]);
      RunLinear(Step(a, u[0]), Step(b, v[0]), u[1..], v[1..]);
    }
  }

  lemma {:induction false} RunAppend(c: bv30, u: seq<bv5>, v: seq<bv5>)
    ensures Run(c, u + v) == Run(Run(c, u), v)
    decreases |u|
  {
    hide Step;
    if u == [] {
      assert u + v == v;
    } else {
      assert (u + v)[1..] == u[1..] + v;
      RunAppend(Step(c, u[0]), u[1..], v);
    }
  }

  lemma StepZero()
    ensures Step(0, 0) == 0
  {
  }

  /** Zeroes keep a remainder of zero, and only that. */
  lemma {:induction false} RunZeroes(c: bv30, e: seq<bv5>)
    requires AllZero(e)
    ensures Run(c, e) == 0 <==> c == 0
    decreases |e|
  {
    hide Step;
    if e != [] {
      RunZeroes(Step(c, 0), e[1..]);
      StepZero();
      if Step(c, 0) == 0 {
        StepKernel(c);
      }
    }
  }

  /** c is a remainder of at most k symbols. */
  ghost predicate Below(c: bv30, k: nat) {
    k < 6 ==> c < Limit(k)
  }

  lemma StepWindow(c: bv30, v: bv5, k: nat)
    requires k < 6 && Below(c, k)
    ensures Below(Step(c, v), k + 1) && (Step(c, v) == 0 <==> c == 0 && v == 0)
  {
    hide Step;
    assert c < 0x2000000;
    StepShifts(c, v);
    ShiftZero(c, v);
    if k < 5 {
      ShiftBelow(c, v, k);
    }
  }

  lemma BelowNone()
    ensures Below(0, 0)
  {
  }

  lemma AllZeroSplit(e: seq<bv5>)
    requires e != []
    ensures AllZero(e) <==> e[0] == 0 && AllZero(e[1..])
  {
    assert forall i | 1 <= i < |e| :: e[i] == e[1..][i-1];
  }

  /** At most six symbols, from nothing: the remainder is zero only if they all are. */
  lemma {:induction false} RunWindow(c: bv30, k: nat, e: seq<bv5>)
    requires |e| + k <= 6 && Below(c, k)
    ensures Run(c, e) == 0 <==> c == 0 && AllZero(e)
    decreases |e|
  {
    hide Step, Below, AllZero;
    if e == [] {
      NoneIsZero();
    } else {
      StepWindow(c, e[0], k);
      RunWindow(Step(c, e[0]), k + 1, e[1..]);
      AllZeroSplit(e);
    }
  }

  lemma NoneIsZero()
    ensures AllZero([])
  {
  }

  /** A list that is zero outside six consecutive symbols has a remainder of zero only if it is zero. */
  lemma RunSparse(e: seq<bv5>, i: nat, j: nat)
    requires i <= j <= |e| && j - i <= 6 && AllZero(e[..i]) && AllZero(e[j..])
    ensures Run(0, e) == 0 <==> AllZero(e[i..j])
  {
    hide Run, AllZero, Below;
    var before, window, after := e[..i], e[i..j], e[j..];
    assert e == before + (window + after);
    RunAppend(0, before, window + after);
    RunZeroes(0, before);
    RunAppend(0, window, after);
    BelowNone();
    RunWindow(0, 0, window);
    RunZeroes(Run(0, window), after);
  }

  lemma DifferenceZero(u: seq<bv5>, v: seq<bv5>, i: nat, j: nat)
    requires |u| == |v| && i <= j <= |u|
    ensures AllZero(XorAll(u, v)[i..j]) <==> u[i..j] == v[i..j]
  {
    hide Xor5;
    var e := XorAll(u, v);
    forall n | 0 <= n < |u| ensures e[n] == 0 <==> u[n] == v[n] {
      XorEqual5(u[n], v[n]);
    }
    if AllZero(e[i..j]) {
      forall n | i <= n < j ensures u[n] == v[n] {
        assert e[i..j][n-i] == e[n];
      }
    } else {
      var n :| 0 <= n < j - i && e[i..j][n] != 0;
      assert e[i..j][n] == e[n+i] && u[i..j][n] == u[n+i] && v[i..j][n] == v[n+i];
    }
  }

  /** Two lists that differ, but only within six consecutive symbols, have different remainders. */
  lemma WindowDetected(u: seq<bv5>, v: seq<bv5>, i: nat, j: nat)
    requires |u| == |v| && i <= j <= |u| && j - i <= 6 && u != v
    requires forall n | 0 <= n < |u| && (n < i || n >= j) :: u[n] == v[n]
    ensures Run(1, u) != Run(1, v)
  {
    hide Xor, XorAll, Run, AllZero;
    RunLinear(1, 1, u, v);
    XorSelf(1);
    XorEqual(Run(1, u), Run(1, v));
    DifferenceZero(u, v, 0, i);
    DifferenceZero(u, v, i, j);
    DifferenceZero(u, v, j, |u|);
    XorAllLength(u, v);
    OutsideEqual(u, v, XorAll(u, v), i, j);
    RunSparse(XorAll(u, v), i, j);
  }

  lemma OutsideEqual<T>(u: seq<T>, v: seq<T>, e: seq<T>, i: nat, j: nat)
    requires |u| == |v| == |e| && i <= j <= |u| && forall n | 0 <= n < |u| && (n < i || n >= j) :: u[n] == v[n]
    ensures u[0..i] == v[0..i] && u[j..|u|] == v[j..|u|] && e[0..i] == e[..i] && e[j..|u|] == e[j..]
    ensures u[i..j] == v[i..j] ==> u == v
  {
    if u[i..j] == v[i..j] {
      forall n | 0 <= n < |u| ensures u[n] == v[n] {
        if i <= n < j {
          assert u[i..j][n-i] == u[n] && v[i..j][n-i] == v[n];
        }
      }
    }
  }

  lemma XorAllLength(u: seq<bv5>, v: seq<bv5>)
    requires |u| == |v|
    ensures |XorAll(u, v)| == |u|
  {
  }

  lemma XorEqual5(a: bv5, b: bv5)
    ensures Xor5(a, b) == 0 <==> a == b
  {
  }

  // ---------------------------------------------------------------------------------------------
  // Checksums
  // ---------------------------------------------------------------------------------------------

  datatype Encoding = BECH32 | BECH32M

  function EncodingConstant(encoding: Encoding): bv30 {
    if encoding == BECH32 then 1 else 0x2bc830a3
  }

  /** The symbols for the upper and the lower bits of a character. */
  function UpperBits(c: char): bv5 { ((c as int / 32) % 32) as bv5 }

  function LowerBits(c: char): bv5 { (c as int % 32) as bv5 }

  /** The human-readable part as it enters the checksum. */
  function Expand(hrp: string): seq<bv5> {
    seq(|hrp|, i requires 0 <= i < |hrp| => UpperBits(hrp[i])) + [0] + seq(|hrp|,
      i requires 0 <= i < |hrp| => LowerBits(hrp[i]))
  }

  /** The two symbols make up the character. */
  lemma BitsMakeUp(c: char)
    requires c as int < 1024
    ensures UpperBits(c) as int * 32 + LowerBits(c) as int == c as int
  {
    Symbol5((c as int / 32) % 32);
    Symbol5(c as int % 32);
  }

  lemma Symbol5(x: int)
    requires 0 <= x < 32
    ensures (x as bv5) as int == x
  {
  }

  /** The upper bits of all characters, a zero, and the lower bits of all characters. */
  lemma ExpandRecovers(hrp: string, i: nat)
    requires i < |hrp| && hrp[i] as int < 1024
    ensures var e := Expand(hrp);
      && |e| == 2 * |hrp| + 1 && e[|hrp|] == 0
      && e[i] as int * 32 + e[|hrp| + 1 + i] as int == hrp[i] as int
  {
    hide UpperBits, LowerBits;
    BitsMakeUp(hrp[i]);
  }

  method PreparePolynomialCoefficients(hrp: string, values: seq<bv5>) returns (ret: seq<bv5>)
    ensures ret == Expand(hrp) + values
    ensures |ret| == 2 * |hrp| + 1 + |values| && ret[|hrp|] == 0 && ret[2 * |hrp| + 1..] == values
    ensures forall i | 0 <= i < |hrp| && hrp[i] as int < 1024 ::
      ret[i] as int * 32 + ret[|hrp| + 1 + i] as int == hrp[i] as int
  {
    hide UpperBits, LowerBits;
    ghost var upper := seq(|hrp|, i requires 0 <= i < |hrp| => UpperBits(hrp[i]));
    ghost var lower := seq(|hrp|, i requires 0 <= i < |hrp| => LowerBits(hrp[i]));
    ret := [];
    for i := 0 to |hrp|
      invariant ret == upper[..i]
    {
      ret := ret + [UpperBits(hrp[i])];
    }
    ret := ret + [0];
    for i := 0 to |hrp|
      invariant ret == upper + [0] + lower[..i]
    {
      ret := ret + [LowerBits(hrp[i])];
    }
    ret := ret + values;
    forall i | 0 <= i < |hrp| && hrp[i] as int < 1024
      ensures ret[i] as int * 32 + ret[|hrp| + 1 + i] as int == hrp[i] as int {
      BitsMakeUp(hrp[i]);
    }
  }

  /** Different prefixes enter the checksum differently. */
  lemma ExpandInjective(hrp: string, hrp': string)
    requires Printable(hrp) && Printable(hrp') && Expand(hrp) == Expand(hrp')
    ensures hrp == hrp'
  {
    hide Expand;
    ExpandLength(hrp);
    ExpandLength(hrp');
    forall i | 0 <= i < |hrp| ensures hrp[i] == hrp'[i] {
      ExpandRecovers(hrp, i);
      ExpandRecovers(hrp', i);
    }
  }

  lemma ExpandLength(hrp: string)
    ensures |Expand(hrp)| == 2 * |hrp| + 1
  {
  }

  /** The symbols of a packed remainder. */
  function Unpack(m: bv30): (s: seq<bv5>)
    ensures |s| == 6
  {
    [Group(m, 25), Group(m, 20), Group(m, 15), Group(m, 10), Group(m, 5), Group(m, 0)]
  }

  function Group(m: bv30, shift: nat): bv5
    requires shift <= 25
  {
    ((m >> shift) & 31) as bv5
  }

  /** The symbols of m above a position. */
  function Above(m: bv30, shift: nat): bv30
    requires shift <= 25
  {
    m >> shift
  }

  lemma RunCons(c: bv30, v: bv5, rest: seq<bv5>)
    ensures Run(c, [v] + rest) == Run(Step(c, v), rest)
  {
    assert ([v] + rest)[1..] == rest;
  }

  /** Six symbols from nothing make up what they were unpacked from. */
  lemma RunUnpack(m: bv30)
    ensures Run(0, Unpack(m)) == m
  {
    hide Step, Group, Above, Run;
    var g25, g20, g15, g10, g5, g0 := Group(m, 25), Group(m, 20), Group(m, 15), Group(m, 10), Group(m, 5), Group(m, 0);
    PackStart(m);
    RunCons(0, g25, [g20, g15, g10, g5, g0]);
    assert [g25] + [g20, g15, g10, g5, g0] == Unpack(m);
    PackNext(m, 25, 20);
    RunCons(Above(m, 25), g20, [g15, g10, g5, g0]);
    assert [g20] + [g15, g10, g5, g0] == [g20, g15, g10, g5, g0];
    PackNext(m, 20, 15);
    RunCons(Above(m, 20), g15, [g10, g5, g0]);
    assert [g15] + [g10, g5, g0] == [g15, g10, g5, g0];
    PackNext(m, 15, 10);
    RunCons(Above(m, 15), g10, [g5, g0]);
    assert [g10] + [g5, g0] == [g10, g5, g0];
    PackNext(m, 10, 5);
    RunCons(Above(m, 10), g5, [g0]);
    assert [g5] + [g0] == [g5, g0];
    PackNext(m, 5, 0);
    RunCons(Above(m, 5), g0, []);
    assert [g0] + [] == [g0];
    PackEnd(m);
  }

  lemma PackStart(m: bv30)
    ensures Step(0, Group(m, 25)) == Above(m, 25)
  {
    hide Step;
    StepShifts(0, Group(m, 25));
  }

  lemma PackNext(m: bv30, from: nat, to: nat)
    requires (from == 25 && to == 20) || (from == 20 && to == 15) || (from == 15 && to == 10) || (from == 10 && to == 5)
      || (from == 5 && to == 0)
    ensures Step(Above(m, from), Group(m, to)) == Above(m, to)
  {
    hide Step;
    assert m >> from < 0x2000000;
    StepShifts(m >> from, Group(m, to));
  }

  lemma PackEnd(m: bv30)
    ensures Above(m, 0) == m && Run(m, []) == m
  {
  }

  ghost function Checksum(encoding: Encoding, hrp: string, values: seq<bv5>): seq<bv5> {
    Unpack(Xor(Run(1, Expand(hrp) + values + [0, 0, 0, 0, 0, 0]), EncodingConstant(encoding)))
  }

  method CreateChecksum(encoding: Encoding, hrp: string, values: seq<bv5>) returns (ret: seq<bv5>)
    ensures ret == Checksum(encoding, hrp, values)
  {
    hide Run, Group, Expand;
    var enc := PreparePolynomialCoefficients(hrp, values);
    enc := enc + [0, 0, 0, 0, 0, 0];
    var c := PolyMod(enc);
    var mod := Xor(c, EncodingConstant(encoding));
    ret := [];
    for i := 0 to 6
      invariant ret == Unpack(mod)[..i]
    {
      ret := ret + [Group(mod, 5 * (5 - i))];
    }
  }

  /** The symbols with the checksum appended have the remainder of the encoding. */
  lemma ChecksumVerifies(encoding: Encoding, hrp: string, values: seq<bv5>)
    ensures Run(1, Expand(hrp) + values + Checksum(encoding, hrp, values)) == EncodingConstant(encoding)
  {
    hide Xor, Xor5, Step, Expand, Unpack, EncodingConstant;
    var body, zero, m := Expand(hrp) + values, [0, 0, 0, 0, 0, 0],
      Xor(Run(1, Expand(hrp) + values + [0, 0, 0, 0, 0, 0]), EncodingConstant(encoding));
    var sum := Unpack(m);
    RunAppend(1, body, zero);
    RunAppend(1, body, sum);
    var c := Run(1, body);
    RunLinear(c, 0, zero, sum);
    XorZero(c);
    forall i | 0 <= i < 6 ensures Xor5(zero[i], sum[i]) == sum[i] {
      XorZero5(sum[i]);
    }
    assert XorAll(zero, sum) == sum;
    RunUnpack(m);
    XorCancel(Run(c, zero), EncodingConstant(encoding));
  }

  lemma XorZero5(a: bv5)
    ensures Xor5(0, a) == a
  {
  }

  lemma XorCancel(a: bv30, b: bv30)
    ensures Xor(a, Xor(a, b)) == b
  {
  }

  /** The checksum is the only one that verifies. */
  lemma ChecksumUnique(encoding: Encoding, hrp: string, values: seq<bv5>, sum: seq<bv5>)
    requires |sum| == 6 && Run(1, Expand(hrp) + values + sum) == EncodingConstant(encoding)
    ensures sum == Checksum(encoding, hrp, values)
  {
    hide Run, Expand, EncodingConstant, Checksum;
    ChecksumVerifies(encoding, hrp, values);
    var body, right := Expand(hrp) + values, Checksum(encoding, hrp, values);
    SixSymbols(encoding, hrp, values);
    if sum != right {
      var u, v := body + sum, body + right;
      assert u[|body|..] == sum && v[|body|..] == right;
      WindowDetected(u, v, |body|, |u|);
    }
  }

  lemma SixSymbols(encoding: Encoding, hrp: string, values: seq<bv5>)
    ensures |Checksum(encoding, hrp, values)| == 6
  {
  }

  /** VerifyChecksum; nothing for INVALID. */
  method VerifyChecksum(hrp: string, values: seq<bv5>) returns (r: Option<Encoding>)
    ensures r == Verified(hrp, values)
  {
    var enc := PreparePolynomialCoefficients(hrp, values);
    var check := PolyMod(enc);
    if check == EncodingConstant(BECH32) {
      return Some(BECH32);
    }
    if check == EncodingConstant(BECH32M) {
      return Some(BECH32M);
    }
    return None;
  }

  ghost function Verified(hrp: string, values: seq<bv5>): Option<Encoding> {
    if Run(1, Expand(hrp) + values) == EncodingConstant(BECH32) then Some(BECH32)
    else if Run(1, Expand(hrp) + values) == EncodingConstant(BECH32M) then Some(BECH32M)
    else None
  }

  lemma VerifiedIs(hrp: string, values: seq<bv5>, encoding: Encoding)
    ensures Verified(hrp, values) == Some(encoding) <==> Run(1, Expand(hrp) + values) == EncodingConstant(encoding)
  {
    hide Run, Expand;
  }

  /** A change of up to six consecutive symbols never passes the check of the same encoding. */
  lemma CorruptionDetected(hrp: string, u: seq<bv5>, v: seq<bv5>, i: nat, j: nat, encoding: Encoding)
    requires |u| == |v| && i <= j <= |u| && j - i <= 6 && u != v && forall n | 0 <= n < |u| && (n < i || n >= j) ::
      u[n] == v[n]
    requires Verified(hrp, u) == Some(encoding)
    ensures Verified(hrp, v) != Some(encoding)
  {
    hide Run, Expand, Verified;
    VerifiedIs(hrp, u, encoding);
    VerifiedIs(hrp, v, encoding);
    var e := Expand(hrp);
    var u', v' := e + u, e + v;
    assert u'[|e|..] == u && v'[|e|..] == v;
    forall n | 0 <= n < |u'| && (n < |e| + i || n >= |e| + j) ensures u'[n] == v'[n] {
      assert n >= |e| ==> u'[n] == u[n-|e|] && v'[n] == v[n-|e|];
    }
    WindowDetected(u', v', |e| + i, |e| + j);
  }

  // ---------------------------------------------------------------------------------------------
  // Characters
  // ---------------------------------------------------------------------------------------------

  /** CHARSET. */
  function CharOf(v: bv5): char { if v < 16 then LowChar(v) else HighChar(v) }

  function LowChar(v: bv5): char {
    if v == 0 then 'q'
    else if v == 1 then 'p'
    else if v == 2 then 'z'
    else if v == 3 then 'r'
    else if v == 4 then 'y'
    else if v == 5 then '9'
    else if v == 6 then 'x'
    else if v == 7 then '8'
    else if v == 8 then 'g'
    else if v == 9 then 'f'
    else if v == 10 then '2'
    else if v == 11 then 't'
    else if v == 12 then 'v'
    else if v == 13 then 'd'
    else if v == 14 then 'w'
    else '0'
  }

  function HighChar(v: bv5): char {
    if v == 16 then 's'
    else if v == 17 then '3'
    else if v == 18 then 'j'
    else if v == 19 then 'n'
    else if v == 20 then '5'
    else if v == 21 then '4'
    else if v == 22 then 'k'
    else if v == 23 then 'h'
    else if v == 24 then 'c'
    else if v == 25 then 'e'
    else if v == 26 then '6'
    else if v == 27 then 'm'
    else if v == 28 then 'u'
    else if v == 29 then 'a'
    else if v == 30 then '7'
    else 'l'
  }

  /** The characters of the symbols in ascending order are those of CHARSET. */
  lemma CharsetLow()
    ensures Chars([0, 1, 2, 3, 4, 5, 6, 7]) == "qpzry9x8"
    ensures Chars([8, 9, 10, 11, 12, 13, 14, 15]) == "gf2tvdw0"
  {
  }

  lemma CharsetHigh()
    ensures Chars([16, 17, 18, 19, 20, 21, 22, 23]) == "s3jn54kh"
    ensures Chars([24, 25, 26, 27, 28, 29, 30, 31]) == "ce6mua7l"
  {
  }

  function LowerCase(c: char): char {
    if 'A' <= c <= 'Z' then (c as int - 'A' as int + 'a' as int) as char else c
  }

  /** CHARSET_REV, for either case; nothing for its -1. */
  function ValueOf(c: char): Option<bv5> { LowerValue(LowerCase(c)) }

  function LowerValue(c: char): Option<bv5> {
    if c == 'q' then Some(0)
    else if c == 'p' then Some(1)
    else if c == 'z' then Some(2)
    else if c == 'r' then Some(3)
    else if c == 'y' then Some(4)
    else if c == '9' then Some(5)
    else if c == 'x' then Some(6)
    else if c == '8' then Some(7)
    else if c == 'g' then Some(8)
    else if c == 'f' then Some(9)
    else if c == '2' then Some(10)
    else if c == 't' then Some(11)
    else if c == 'v' then Some(12)
    else if c == 'd' then Some(13)
    else if c == 'w' then Some(14)
    else if c == '0' then Some(15)
    else if c == 's' then Some(16)
    else if c == '3' then Some(17)
    else if c == 'j' then Some(18)
    else if c == 'n' then Some(19)
    else if c == '5' then Some(20)
    else if c == '4' then Some(21)
    else if c == 'k' then Some(22)
    else if c == 'h' then Some(23)
    else if c == 'c' then Some(24)
    else if c == 'e' then Some(25)
    else if c == '6' then Some(26)
    else if c == 'm' then Some(27)
    else if c == 'u' then Some(28)
    else if c == 'a' then Some(29)
    else if c == '7' then Some(30)
    else if c == 'l' then Some(31)
    else None
  }

  lemma CharValue(v: bv5)
    ensures ValueOf(CharOf(v)) == Some(v) && LowerCase(CharOf(v)) == CharOf(v) && CharOf(v) != '1'
      && '!' <= CharOf(v) <= '~'
    ensures !('A' <= CharOf(v) <= 'Z')
  {
    hide LowChar, HighChar, LowerValue;
    if v < 16 {
      CharValueLow(v);
    } else {
      CharValueHigh(v);
    }
  }

  lemma CharValueLow(v: bv5)
    requires v < 16
    ensures LowerValue(LowChar(v)) == Some(v) && LowChar(v) != '1' && '!' <= LowChar(v) <= '~'
      && !('A' <= LowChar(v) <= 'Z')
  {
  }

  lemma CharValueHigh(v: bv5)
    requires v >= 16
    ensures LowerValue(HighChar(v)) == Some(v) && HighChar(v) != '1' && '!' <= HighChar(v) <= '~'
      && !('A' <= HighChar(v) <= 'Z')
  {
  }

  lemma ValueChar(c: char)
    requires ValueOf(c).Some?
    ensures CharOf(ValueOf(c).value) == LowerCase(c) && c != '1'
  {
    if LowerCase(c) < 'g' {
      ValueCharLow(LowerCase(c));
    } else {
      ValueCharHigh(LowerCase(c));
    }
  }

  lemma ValueCharLow(c: char)
    requires c < 'g' && LowerValue(c).Some?
    ensures CharOf(LowerValue(c).value) == c && c != '1'
  {
  }

  lemma ValueCharHigh(c: char)
    requires c >= 'g' && LowerValue(c).Some?
    ensures CharOf(LowerValue(c).value) == c && c != '1'
  {
  }

  // ---------------------------------------------------------------------------------------------
  // Strings
  // ---------------------------------------------------------------------------------------------

  function Chars(v: seq<bv5>): string {
    seq(|v|, i requires 0 <= i < |v| => CharOf(v[i]))
  }

  function Lower(s: string): string {
    seq(|s|, i requires 0 <= i < |s| => LowerCase(s[i]))
  }

  predicate IsLower(c: char) { 'a' <= c <= 'z' }

  predicate IsUpper(c: char) { 'A' <= c <= 'Z' }

  ghost predicate HasLower(s: string) { exists i :: 0 <= i < |s| && IsLower(s[i]) }

  ghost predicate HasUpper(s: string) { exists i :: 0 <= i < |s| && IsUpper(s[i]) }

  ghost predicate Printable(s: string) {
    forall i | 0 <= i < |s| :: 33 <= s[i] as int <= 126
  }

  /** The human-readable part, the separator, and the symbols with their checksum. */
  ghost function Encoded(encoding: Encoding, hrp: string, values: seq<bv5>): string {
    hrp + "1" + Chars(values + Checksum(encoding, hrp, values))
  }

  method Encode(encoding: Encoding, hrp: string, values: seq<bv5>) returns (ret: string)
    requires !HasUpper(hrp)
    ensures ret == Encoded(encoding, hrp, values)
  {
    hide Checksum, CharOf;
    var sum := CreateChecksum(encoding, hrp, values);
    ret := hrp + "1";
    for i := 0 to |values|
      invariant ret == hrp + "1" + Chars(values)[..i]
    {
      ret := ret + [CharOf(values[i])];
    }
    assert Chars(values + sum) == Chars(values) + Chars(sum);
    for i := 0 to |sum|
      invariant ret == hrp + "1" + Chars(values) + Chars(sum)[..i]
    {
      ret := ret + [CharOf(sum[i])];
    }
    assert ret == hrp + "1" + (Chars(values) + Chars(sum));
  }

  datatype LetterCase = NoLetter | Small | Capital

  /** The case of the first letter. */
  function FirstCase(s: string): LetterCase {
    if s == "" then NoLetter
    else if IsLower(s[0]) then Small
    else if IsUpper(s[0]) then Capital
    else FirstCase(s[1..])
  }

  /** A letter of another case than the first one, or a character that is not printable. */
  predicate Fault(str: string, i: nat)
    requires i < |str|
  {
    if IsLower(str[i]) then FirstCase(str[..i]) == Capital
    else if IsUpper(str[i]) then FirstCase(str[..i]) == Small
    else !(33 <= str[i] as int <= 126)
  }

  lemma {:induction false} FirstCaseNext(s: string, c: char)
    ensures FirstCase(s + [c]) == if !FirstCase(s).NoLetter? then FirstCase(s)
                                  else if IsLower(c) then Small else if IsUpper(c) then Capital else NoLetter
  {
    if s == "" {
      assert (s + [c])[1..] == "";
    } else {
      assert (s + [c])[1..] == s[1..] + [c];
      FirstCaseNext(s[1..], c);
    }
  }

  /** CheckCharacters: the positions at fault in ascending order; none exactly for printable characters of one case. */
  method CheckCharacters(str: string) returns (errors: seq<nat>)
    ensures errors == [] <==> Printable(str) && !(HasLower(str) && HasUpper(str))
    ensures forall i: nat :: i in errors <==> i < |str| && Fault(str, i)
    ensures forall i, j | 0 <= i < j < |errors| :: errors[i] < errors[j]
  {
    hide FirstCase;
    var lower, upper := false, false;
    errors := [];
    assert str[..0] == "";
    FirstCaseNone();
    for i := 0 to |str|
      invariant forall n: nat :: n in errors <==> n < i && Fault(str, n)
      invariant forall a, b | 0 <= a < b < |errors| :: errors[a] < errors[b]
      invariant (lower <==> FirstCase(str[..i]) == Small) && (upper <==> FirstCase(str[..i]) == Capital)
      invariant Checked(str[..i], errors == [], lower, upper)
    {
      CheckedNext(str, i, errors == [], lower, upper);
      FirstCaseNext(str[..i], str[i]);
      assert str[..i+1] == str[..i] + [str[i]];
      assert forall n | 0 <= n < |errors| :: errors[n] in errors;
      var c := str[i];
      if IsLower(c) {
        if upper {
          errors := errors + [i];
        } else {
          lower := true;
        }
      } else if IsUpper(c) {
        if lower {
          errors := errors + [i];
        } else {
          upper := true;
        }
      } else if c as int < 33 || c as int > 126 {
        errors := errors + [i];
      }
    }
    assert str[..|str|] == str;
  }

  lemma FirstCaseNone()
    ensures FirstCase("") == NoLetter
  {
  }

  /** The state of CheckCharacters after the characters of s. */
  ghost predicate Checked(s: string, ok: bool, lower: bool, upper: bool) {
    && (ok ==> Printable(s) && (lower <==> HasLower(s)) && (upper <==> HasUpper(s)) && !(lower && upper))
    && (!ok ==> !(Printable(s) && !(HasLower(s) && HasUpper(s))))
  }

  lemma CheckedNext(str: string, i: nat, ok: bool, lower: bool, upper: bool)
    requires i < |str| && Checked(str[..i], ok, lower, upper)
    ensures var c, s := str[i], str[..i+1];
      if IsLower(c) then (if upper then Checked(s, false, lower, upper) else Checked(s, ok, true, upper))
      else if IsUpper(c) then (if lower then Checked(s, false, lower, upper) else Checked(s, ok, lower, true))
      else Checked(s, ok && 33 <= c as int <= 126, lower, upper)
  {
    var before, s := str[..i], str[..i+1];
    HasNext(before, str[i]);
    assert s == before + [str[i]];
  }

  lemma HasNext(s: string, c: char)
    ensures HasLower(s + [c]) <==> HasLower(s) || IsLower(c)
    ensures HasUpper(s + [c]) <==> HasUpper(s) || IsUpper(c)
    ensures Printable(s + [c]) <==> Printable(s) && 33 <= c as int <= 126
  {
    var t := s + [c];
    assert t[|s|] == c;
    assert forall i | 0 <= i < |s| :: t[i] == s[i];
  }

  /** The position of the last separator, or -1. */
  function LastSeparator(s: string): (p: int)
    ensures -1 <= p < |s| && (p >= 0 ==> s[p] == '1') && forall i | p < i < |s| :: s[i] != '1'
  {
    if s == [] then -1
    else if s[|s|-1] == '1' then |s| - 1
    else LastSeparator(s[..|s|-1])
  }

  predicate AllValid(s: string) {
    forall i | 0 <= i < |s| :: ValueOf(s[i]).Some?
  }

  function Values(s: string): (r: seq<bv5>)
    requires AllValid(s)
    ensures |r| == |s|
  {
    seq(|s|, i requires 0 <= i < |s| => ValueOf(s[i]).value)
  }

  datatype Decoded = Decoded(encoding: Encoding, hrp: string, values: seq<bv5>)

  /** Decode as a whole. */
  ghost function DecodeResult(str: string, limit: nat): Option<Decoded> {
    var pos := LastSeparator(str);
    if !Printable(str) || (HasLower(str) && HasUpper(str)) || |str| > limit || pos <= 0 || pos + 6 >= |str|
      || !AllValid(str[pos+1..]) then None
    else
      var hrp, values := Lower(str[..pos]), Values(str[pos+1..]);
      var encoding := Verified(hrp, values);
      if encoding.None? then None else Some(Decoded(encoding.value, hrp, values[..|values|-6]))
  }

  method Decode(str: string, limit: nat) returns (r: Option<Decoded>)
    ensures r == DecodeResult(str, limit)
  {
    hide Verified, ValueOf, LowerCase, Printable, HasLower, HasUpper, LastSeparator;
    var errors := CheckCharacters(str);
    if errors != [] {
      return None;
    }
    var pos := FindSeparator(str);
    if |str| > limit {
      return None;
    }
    if pos <= 0 || pos + 6 >= |str| {
      return None;
    }
    var data := str[pos+1..];
    var values: seq<bv5> := [];
    for i := 0 to |data|
      invariant AllValid(data[..i]) && values == Values(data[..i])
    {
      var rev := ValueOf(data[i]);
      if rev.None? {
        return None;
      }
      values := values + [rev.value];
    }
    assert data[..|data|] == data;
    var hrp := "";
    for i := 0 to pos
      invariant hrp == Lower(str[..pos])[..i]
    {
      hrp := hrp + [LowerCase(str[i])];
    }
    assert hrp == Lower(str[..pos]);
    var result := VerifyChecksum(hrp, values);
    if result.None? {
      return None;
    }
    return Some(Decoded(result.value, hrp, values[..|values|-6]));
  }

  /** str.rfind(SEPARATOR), with -1 for none. */
  method FindSeparator(str: string) returns (pos: int)
    ensures pos == LastSeparator(str)
  {
    hide LastSeparator;
    pos := |str| - 1;
    while pos >= 0 && str[pos] != '1'
      invariant -1 <= pos < |str| && forall i | pos < i < |str| :: str[i] != '1'
    {
      pos := pos - 1;
    }
  }

  // ---------------------------------------------------------------------------------------------
  // Round trips
  // ---------------------------------------------------------------------------------------------

  lemma ValuesChars(v: seq<bv5>)
    ensures AllValid(Chars(v)) && Values(Chars(v)) == v && Printable(Chars(v)) && !HasUpper(Chars(v))
    ensures forall i | 0 <= i < |v| :: Chars(v)[i] != '1'
  {
    hide CharOf, ValueOf;
    forall i | 0 <= i < |v|
      ensures ValueOf(Chars(v)[i]) == Some(v[i]) && Chars(v)[i] != '1'
        && 33 <= Chars(v)[i] as int <= 126 && !IsUpper(Chars(v)[i]) {
      CharValue(v[i]);
    }
  }

  lemma CharsValues(s: string)
    requires AllValid(s)
    ensures Chars(Values(s)) == Lower(s)
  {
    hide CharOf, ValueOf, LowerCase;
    forall i | 0 <= i < |s| ensures CharOf(ValueOf(s[i]).value) == LowerCase(s[i]) {
      ValueChar(s[i]);
    }
  }

  lemma LowerSame(s: string)
    requires !HasUpper(s)
    ensures Lower(s) == s
  {
    forall i | 0 <= i < |s| ensures LowerCase(s[i]) == s[i] {
      assert !IsUpper(s[i]);
    }
  }

  lemma JoinedChars(hrp: string, data: string)
    requires Printable(hrp) && !HasUpper(hrp) && Printable(data) && !HasUpper(data)
      && forall i | 0 <= i < |data| :: data[i] != '1'
    ensures var str := hrp + "1" + data;
      Printable(str) && !HasUpper(str) && LastSeparator(str) == |hrp| && str[..|hrp|] == hrp && str[|hrp|+1..] == data
  {
    var str := hrp + "1" + data;
    assert str[|hrp|] == '1';
    forall i | 0 <= i < |str| ensures 33 <= str[i] as int <= 126 && !IsUpper(str[i]) {
      assert i < |hrp| ==> str[i] == hrp[i] && !IsUpper(hrp[i]);
      assert i > |hrp| ==> str[i] == data[i-|hrp|-1] && !IsUpper(data[i-|hrp|-1]);
    }
  }

  /** Decoding inverts encoding, for every non-empty lowercase human-readable part and payload within the limit. */
  lemma DecodeEncode(encoding: Encoding, hrp: string, values: seq<bv5>, limit: nat)
    requires hrp != [] && Printable(hrp) && !HasUpper(hrp) && |hrp| + 1 + |values| + 6 <= limit
    ensures DecodeResult(Encoded(encoding, hrp, values), limit) == Some(Decoded(encoding, hrp, values))
  {
    hide *;
    var sum := Checksum(encoding, hrp, values);
    SixSymbols(encoding, hrp, values);
    var all := values + sum;
    var data := Chars(all);
    ValuesChars(all);
    JoinedChars(hrp, data);
    LowerSame(hrp);
    ChecksumVerifies(encoding, hrp, values);
    assert Expand(hrp) + values + sum == Expand(hrp) + all;
    VerifiedIs(hrp, all, encoding);
    CharsLength(all);
    assert all[..|all|-6] == values;
    EncodedIs(encoding, hrp, values);
    DecodeResultIs(hrp + "1" + data, limit, |hrp|, hrp, all, encoding);
  }

  lemma EncodedIs(encoding: Encoding, hrp: string, values: seq<bv5>)
    ensures Encoded(encoding, hrp, values) == hrp + "1" + Chars(values + Checksum(encoding, hrp, values))
  {
  }

  lemma DecodeResultIs(str: string, limit: nat, pos: nat, hrp: string, values: seq<bv5>, encoding: Encoding)
    requires Printable(str) && !HasUpper(str) && |str| <= limit && LastSeparator(str) == pos && pos > 0
      && pos + 6 < |str|
    requires AllValid(str[pos+1..]) && Values(str[pos+1..]) == values && Lower(str[..pos]) == hrp
      && Verified(hrp, values) == Some(encoding)
    ensures DecodeResult(str, limit) == Some(Decoded(encoding, hrp, values[..|values|-6]))
  {
  }

  lemma CharsLength(v: seq<bv5>)
    ensures |Chars(v)| == |v|
  {
  }

  /** Encoding what was decoded gives the string back, in lower case. */
  lemma EncodeDecode(str: string, limit: nat)
    requires DecodeResult(str, limit).Some?
    ensures var d := DecodeResult(str, limit).value; Encoded(d.encoding, d.hrp, d.values) == Lower(str)
  {
    hide Checksum, Verified, Values, AllValid, Printable, HasUpper, HasLower, LowerCase, Chars, Expand;
    var d, pos := DecodeResult(str, limit).value, LastSeparator(str);
    var data := str[pos+1..];
    var all := Values(data);
    var sum := all[|all|-6..];
    assert all == d.values + sum;
    VerifiedIs(d.hrp, all, d.encoding);
    assert Expand(d.hrp) + d.values + sum == Expand(d.hrp) + all;
    ChecksumUnique(d.encoding, d.hrp, d.values, sum);
    CharsValues(data);
    assert str == str[..pos] + "1" + data;
    LowerJoin(str[..pos], data);
  }

  /** The case of a string without small letters does not matter. */
  lemma CaseIgnored(str: string, limit: nat)
    requires !HasLower(str)
    ensures DecodeResult(Lower(str), limit) == DecodeResult(str, limit)
  {
    hide Verified, LastSeparator, ValueOf, LowerCase;
    var low, pos := Lower(str), LastSeparator(str);
    forall i | 0 <= i < |str|
      ensures (33 <= low[i] as int <= 126 <==> 33 <= str[i] as int <= 126) && (low[i] == '1' <==> str[i] == '1')
      ensures !IsUpper(low[i]) && LowerCase(low[i]) == low[i] && ValueOf(low[i]) == ValueOf(str[i])
    {
      LowerCaseLaws(str[i]);
    }
    SameLastSeparator(str, low);
    if pos >= 0 {
      assert Lower(low[..pos]) == Lower(str[..pos]);
      assert forall i | pos < i < |str| :: low[pos+1..][i-pos-1] == low[i] && str[pos+1..][i-pos-1] == str[i];
      SameValues(str[pos+1..], low[pos+1..]);
    }
  }

  lemma SameValues(s: string, t: string)
    requires |s| == |t| && forall i | 0 <= i < |s| :: ValueOf(s[i]) == ValueOf(t[i])
    ensures AllValid(s) <==> AllValid(t)
    ensures AllValid(s) ==> Values(s) == Values(t)
  {
    hide ValueOf;
  }

  lemma SameLastSeparator(s: string, t: string)
    requires |s| == |t| && forall i | 0 <= i < |s| :: s[i] == '1' <==> t[i] == '1'
    ensures LastSeparator(s) == LastSeparator(t)
  {
    hide LastSeparator;
    var p, q := LastSeparator(s), LastSeparator(t);
    assert (p >= 0 ==> t[p] == '1') && (q >= 0 ==> s[q] == '1');
  }

  lemma LowerCaseLaws(c: char)
    ensures var l := LowerCase(c);
      && LowerCase(l) == l && !IsUpper(l) && ValueOf(l) == ValueOf(c)
      && (33 <= l as int <= 126 <==> 33 <= c as int <= 126) && (l == '1' <==> c == '1')
      && (IsUpper(c) ==> l as int == c as int + 32) && (!IsUpper(c) ==> l == c)
  {
    hide LowerValue;
  }

  lemma LowerJoin(hrp: string, data: string)
    ensures Lower(hrp + "1" + data) == Lower(hrp) + "1" + Lower(data)
  {
  }
}

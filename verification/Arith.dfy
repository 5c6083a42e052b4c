/** Fixed-width unsigned integers held in 32-bit limbs, least significant first (src/arith_uint256.h,
    src/arith_uint256.cpp): the limb loops against the integers they stand for. */
module Ariths {
  import opened Integers
  import opened Options

  const B := 0x1_0000_0000

  /** The modulus of a number of n limbs. */
  function PowB(n: nat): (p: nat)
    ensures p > 0
  {
    if n == 0 then 1 else B * PowB(n - 1)
  }

  ghost predicate Limbs(s: seq<nat>) {
    forall i | 0 <= i < |s| :: s[i] < B
  }

  /** The integer that the limbs stand for. */
  ghost function Val(s: seq<nat>): nat {
    if s == [] then 0 else s[0] + B * Val(s[1..])
  }

  // ---------------------------------------------------------------------------------------------
  // Powers and positional notation
  // ---------------------------------------------------------------------------------------------

  lemma {:induction false} PowBSum(i: nat, j: nat)
    ensures PowB(i + j) == PowB(i) * PowB(j)
  {
    if i > 0 {
      PowBSum(i - 1, j);
      assert B * (PowB(i - 1) * PowB(j)) == (B * PowB(i - 1)) * PowB(j);
    }
  }

  lemma Pow2Values()
    ensures Pow2(8) == 0x100 && Pow2(16) == 0x1_0000 && Pow2(24) == 0x100_0000 && Pow2(32) == B
  {
    assert Pow2(4) == 16;
    Pow2Sum(4, 4);
    Pow2Sum(8, 8);
    Pow2Sum(16, 8);
    Pow2Sum(16, 16);
  }

  lemma {:induction false} PowBIsPow2(n: nat)
    ensures PowB(n) == Pow2(32 * n)
  {
    if n > 0 {
      PowBIsPow2(n - 1);
      Pow2Sum(32, 32 * (n - 1));
      Pow2Values();
    }
  }

  lemma {:induction false} ValAppend(s: seq<nat>, t: seq<nat>)
    ensures Val(s + t) == Val(s) + PowB(|s|) * Val(t)
  {
    if s == [] {
      assert s + t == t;
    } else {
      assert (s + t)[1..] == s[1..] + t;
      ValAppend(s[1..], t);
      assert B * (PowB(|s| - 1) * Val(t)) == (B * PowB(|s| - 1)) * Val(t);
    }
  }

  /** The value of the first n + 1 limbs. */
  lemma ValNext(s: seq<nat>, n: nat)
    requires n < |s|
    ensures Val(s[..n+1]) == Val(s[..n]) + PowB(n) * s[n]
  {
    assert s[..n+1] == s[..n] + [s[n]];
    ValAppend(s[..n], [s[n]]);
    assert Val([s[n]]) == s[n];
  }

  lemma {:induction false} ValBound(s: seq<nat>)
    requires Limbs(s)
    ensures Val(s) < PowB(|s|)
  {
    if s != [] {
      ValBound(s[1..]);
      assert Val(s) <= B - 1 + B * (PowB(|s| - 1) - 1);
    }
  }

  lemma ValHead(s: seq<nat>, i: nat)
    requires i < |s|
    ensures Val(s[i..]) == s[i] + B * Val(s[i+1..])
  {
    assert s[i..][1..] == s[i+1..];
  }

  lemma ValSplit(s: seq<nat>, n: nat)
    requires n <= |s|
    ensures Val(s) == Val(s[..n]) + PowB(n) * Val(s[n..])
  {
    assert s == s[..n] + s[n..];
    ValAppend(s[..n], s[n..]);
  }

  // ---------------------------------------------------------------------------------------------
  // Addition and negation
  // ---------------------------------------------------------------------------------------------

  /** operator+=. */
  method Add(pn: array<nat>, b: seq<nat>)
    requires Limbs(pn[..]) && Limbs(b) && |b| == pn.Length
    modifies pn
    ensures Limbs(pn[..]) && Val(pn[..]) == (Val(old(pn[..])) + Val(b)) % PowB(pn.Length)
  {
    hide Val, PowB;
    ghost var a := pn[..];
    var carry := 0;
    AllZeros([]);
    assert a[..0] == [] && b[..0] == [] && pn[..0] == [];
    for i := 0 to pn.Length
      invariant Limbs(pn[..]) && 0 <= carry <= 1 && (forall j | i <= j < pn.Length :: pn[j] == a[j])
      invariant Val(pn[..i]) + carry * PowB(i) == Val(a[..i]) + Val(b[..i])
    {
      ghost var was := pn[..i];
      var n := carry + pn[i] + b[i];
      ValNext(a, i);
      ValNext(b, i);
      AddStep(carry, PowB(i), a[i], b[i]);
      pn[i] := n % B;
      carry := n / B;
      ghost var now := pn[..];
      assert now[..i] == was && now[..i+1] == pn[..i+1];
      ValNext(now, i);
      PowBNext(i);
    }
    assert pn[..pn.Length] == pn[..] && a[..pn.Length] == a && b[..pn.Length] == b;
    ValBound(pn[..]);
    DivModIs(Val(a) + Val(b), PowB(pn.Length), carry, Val(pn[..]));
  }

  lemma PowBNext(i: nat)
    ensures PowB(i + 1) == B * PowB(i)
  {
  }

  lemma AddStep(carry: nat, p: nat, x: nat, y: nat)
    requires carry <= 1 && x < B && y < B
    ensures var n := carry + x + y; n / B <= 1 && p * (n % B) + (n / B) * (B * p) == carry * p + p * x + p * y
  {
    var n := carry + x + y;
    assert n == n % B + (n / B) * B;
    assert p * n == p * (n % B) + p * ((n / B) * B);
    assert p * ((n / B) * B) == (n / B) * (B * p);
  }

  /** operator~ on a number. */
  function Complement(s: seq<nat>): (r: seq<nat>)
    requires Limbs(s)
    ensures |r| == |s| && Limbs(r)
  {
    seq(|s|, i requires 0 <= i < |s| => B - 1 - s[i])
  }

  lemma {:induction false} ComplementVal(s: seq<nat>)
    requires Limbs(s)
    ensures Val(Complement(s)) == PowB(|s|) - 1 - Val(s)
  {
    if s != [] {
      ComplementVal(s[1..]);
      assert Complement(s)[1..] == Complement(s[1..]);
    }
  }

  /** A number whose limbs are all B - 1. */
  lemma {:induction false} AllOnes(s: seq<nat>)
    requires forall i | 0 <= i < |s| :: s[i] == B - 1
    ensures Val(s) == PowB(|s|) - 1
  {
    if s != [] {
      AllOnes(s[1..]);
    }
  }

  lemma {:induction false} AllZeros(s: seq<nat>)
    requires forall i | 0 <= i < |s| :: s[i] == 0
    ensures Val(s) == 0
  {
    if s != [] {
      AllZeros(s[1..]);
    }
  }

  /** operator++: the limbs that wrap to zero carry on. */
  method Increment(pn: array<nat>)
    requires Limbs(pn[..])
    modifies pn
    ensures Limbs(pn[..]) && Val(pn[..]) == (Val(old(pn[..])) + 1) % PowB(pn.Length)
  {
    ghost var a := pn[..];
    var i := 0;
    var go := true;
    while i < pn.Length && go
      invariant 0 <= i <= pn.Length && Limbs(pn[..]) && (!go ==> i < pn.Length)
      invariant (forall j | 0 <= j < i :: pn[j] == 0 && a[j] == B - 1)
      invariant go ==> pn[i..] == a[i..]
      invariant !go ==> pn[i] == a[i] + 1 && pn[i+1..] == a[i+1..]
      decreases pn.Length - i, go
    {
      assert pn[i] == pn[i..][0] == a[i] && pn[i+1..] == pn[i..][1..] == a[i+1..];
      pn[i] := (pn[i] + 1) % B;
      if pn[i] == 0 {
        i := i + 1;
      } else {
        go := false;
      }
    }
    IncrementVal(a, pn[..], i);
  }

  /** One more, when the first i limbs wrapped. */
  lemma IncrementVal(a: seq<nat>, r: seq<nat>, i: nat)
    requires Limbs(a) && Limbs(r) && |a| == |r| && i <= |a| && forall j | 0 <= j < i :: r[j] == 0 && a[j] == B - 1
    requires i < |a| ==> r[i] == a[i] + 1 && r[i+1..] == a[i+1..]
    ensures Val(r) == (Val(a) + 1) % PowB(|a|)
  {
    hide Val, PowB, Limbs;
    AllOnes(a[..i]);
    AllZeros(r[..i]);
    ValBound(r);
    if i < |a| {
      ValSplit(a, i);
      ValSplit(r, i);
      ValHead(a, i);
      ValHead(r, i);
      OneMore(PowB(i), Val(a[i..]), Val(r[i..]));
      Reduced(Val(r), PowB(|a|));
    } else {
      assert r[..i] == r && a[..i] == a;
      DivModIs(PowB(|a|), PowB(|a|), 1, 0);
    }
  }

  lemma OneMore(p: nat, x: nat, y: nat)
    requires y == x + 1
    ensures p * y == p - 1 + p * x + 1
  {
  }

  /** Unary operator-. */
  method Negate(b: seq<nat>) returns (pn: array<nat>)
    requires Limbs(b)
    ensures fresh(pn) && pn.Length == |b| && Limbs(pn[..]) && Val(pn[..]) == (PowB(|b|) - Val(b)) % PowB(|b|)
  {
    pn := new nat[|b|](i => 0);
    for i := 0 to |b|
      invariant pn[..i] == Complement(b)[..i]
    {
      pn[i] := B - 1 - b[i];
    }
    assert pn[..] == Complement(b);
    ComplementVal(b);
    Increment(pn);
  }

  /** operator-=. */
  method Subtract(pn: array<nat>, b: seq<nat>)
    requires Limbs(pn[..]) && Limbs(b) && |b| == pn.Length
    modifies pn
    ensures Limbs(pn[..]) && Val(pn[..]) == (Val(old(pn[..])) - Val(b)) % PowB(pn.Length)
  {
    hide Val, PowB, Limbs;
    ghost var x, m := Val(pn[..]), PowB(pn.Length);
    var neg := Negate(b);
    Add(pn, neg[..]);
    NegativeAdded(x, Val(b), m);
  }

  lemma NegativeAdded(x: int, y: int, m: nat)
    requires m > 0
    ensures (x + (m - y) % m) % m == (x - y) % m
  {
    ModAdd(x, m - y, m);
    ModShift(x - y, m);
    assert x + (m - y) == x - y + m;
  }

  lemma ModAdd(x: int, y: int, m: nat)
    requires m > 0
    ensures (x + y % m) % m == (x + y) % m
  {
    var q := y / m;
    assert y == q * m + y % m;
    var e := (x + y % m) / m;
    assert x + y % m == e * m + (x + y % m) % m;
    assert (e + q) * m == e * m + q * m;
    DivModIs(x + y, m, e + q, (x + y % m) % m);
  }

  lemma ModShift(x: int, m: nat)
    requires m > 0
    ensures (x + m) % m == x % m
  {
    assert (x / m + 1) * m == (x / m) * m + m;
    DivModIs(x + m, m, x / m + 1, x % m);
  }

  // ---------------------------------------------------------------------------------------------
  // Multiplication
  // ---------------------------------------------------------------------------------------------

  /** One limb product and what is added to it fit in 64 bits, and leave a carry of one limb. */
  lemma MulStep(carry: nat, y: nat, x: nat, z: nat, p: nat)
    requires carry < B && y < B && x < B && z < B
    ensures var n := carry + y + x * z;
            n < B * B && n / B < B && p * (n % B) + (n / B) * (B * p) == carry * p + p * y + x * (p * z)
  {
    var n := carry + y + x * z;
    MulMono(x, B - 1, z);
    DivByB(n);
    MulStepWith(carry, y, x, z, p, n / B, n % B);
  }

  lemma DivByB(n: nat)
    requires n < B * B
    ensures n / B < B && n == n % B + (n / B) * B
  {
  }

  lemma MulStepWith(carry: nat, y: nat, x: nat, z: nat, p: nat, q: nat, r: nat)
    requires carry + y + x * z == r + q * B
    ensures p * r + q * (B * p) == carry * p + p * y + x * (p * z)
  {
    MulParts(p, r, q, B);
    MulSum(p, carry, y, x, z);
  }

  lemma MulParts(p: nat, r: nat, q: nat, b: nat)
    ensures p * (r + q * b) == p * r + q * (b * p)
  {
    assert p * (r + q * b) == p * r + p * (q * b);
    assert p * (q * b) == q * (b * p);
  }

  lemma MulSum(p: nat, c: nat, y: nat, x: nat, z: nat)
    ensures p * (c + y + x * z) == c * p + p * y + x * (p * z)
  {
    assert p * (c + y + x * z) == p * c + p * y + p * (x * z);
    assert p * (x * z) == x * (p * z);
  }

  /** The first i limbs of a have been multiplied by x. */
  ghost predicate Scaled(a: seq<nat>, now: seq<nat>, x: nat, i: nat, carry: nat) {
    && |now| == |a| && i <= |a| && Limbs(now) && carry < B && (forall m | i <= m < |a| :: now[m] == a[m])
    && Val(now[..i]) + carry * PowB(i) == x * Val(a[..i])
  }

  lemma ScaleStep(a: seq<nat>, now: seq<nat>, x: nat, i: nat, carry: nat)
    requires Scaled(a, now, x, i, carry) && i < |a| && Limbs(a) && x < B
    ensures var n := carry + x * now[i]; Scaled(a, now[i := n % B], x, i + 1, n / B)
  {
    hide Val, PowB;
    var n := carry + x * now[i];
    var next := now[i := n % B];
    ValNext(a, i);
    MulStep(carry, 0, x, a[i], PowB(i));
    assert next[..i] == now[..i];
    ValNext(next, i);
    PowBNext(i);
    Distribute(x, Val(a[..i]), PowB(i) * a[i]);
  }

  lemma ScaleStart(a: seq<nat>, x: nat)
    requires Limbs(a)
    ensures Scaled(a, a, x, 0, 0)
  {
    AllZeros(a[..0]);
  }

  lemma ScaleEnd(a: seq<nat>, now: seq<nat>, x: nat, carry: nat)
    requires Scaled(a, now, x, |a|, carry)
    ensures Limbs(now) && Val(now) == (x * Val(a)) % PowB(|a|)
  {
    hide Val, PowB;
    assert now[..|a|] == now && a[..|a|] == a;
    ValBound(now);
    DivModIs(x * Val(a), PowB(|a|), carry, Val(now));
  }

  /** operator*= with a single limb. */
  method MultiplySmall(pn: array<nat>, b32: nat)
    requires Limbs(pn[..]) && b32 < B
    modifies pn
    ensures Limbs(pn[..]) && Val(pn[..]) == (b32 * Val(old(pn[..]))) % PowB(pn.Length)
  {
    hide *;
    ghost var a := pn[..];
    var carry: nat := 0;
    ScaleStart(a, b32);
    for i := 0 to pn.Length
      invariant Scaled(a, pn[..], b32, i, carry)
    {
      ghost var now := pn[..];
      var n: nat := carry + b32 * pn[i];
      ScaleStep(a, now, b32, i, carry);
      var low: nat := n % B;
      pn[i] := low;
      carry := n / B;
      assert pn[..] == now[i := low];
    }
    ScaleEnd(a, pn[..], b32, carry);
  }

  lemma Distribute(x: nat, y: nat, z: nat)
    ensures x * (y + z) == x * y + x * z
  {
  }

  /** The first i limbs of x times b have been added to was, j limbs up. */
  ghost predicate RowState(was: seq<nat>, now: seq<nat>, b: seq<nat>, x: nat, j: nat, i: nat, carry: nat) {
    && |was| == |now| == |b| && j + i <= |b| && Limbs(now) && carry < B && now[..j] == was[..j]
    && (forall m | j + i <= m < |b| :: now[m] == was[m])
    && Val(now[j..][..i]) + carry * PowB(i) == Val(was[j..][..i]) + x * Val(b[..i])
  }

  lemma RowStart(was: seq<nat>, b: seq<nat>, x: nat, j: nat)
    requires Limbs(was) && |was| == |b| && j <= |b|
    ensures RowState(was, was, b, x, j, 0, 0)
  {
    AllZeros(b[..0]);
  }

  lemma RowStep(was: seq<nat>, now: seq<nat>, b: seq<nat>, x: nat, j: nat, i: nat, carry: nat)
    requires RowState(was, now, b, x, j, i, carry) && j + i < |b| && Limbs(b) && x < B
    ensures var n := carry + now[i + j] + x * b[i]; RowState(was, now[i + j := n % B], b, x, j, i + 1, n / B)
  {
    hide Val, PowB;
    var n := carry + now[i + j] + x * b[i];
    ValNext(was[j..], i);
    ValNext(b, i);
    MulStep(carry, now[i + j], x, b[i], PowB(i));
    RowNext(now, j, i, n % B);
    ValNext(now[i + j := n % B][j..], i);
    PowBNext(i);
    Distribute(x, Val(b[..i]), PowB(i) * b[i]);
  }

  /** The inner loop: add x times b, j limbs up, to a; k multiples of the modulus are lost. */
  method AddProduct(a: array<nat>, b: seq<nat>, x: nat, j: nat) returns (ghost k: nat)
    requires Limbs(a[..]) && Limbs(b) && |b| == a.Length && x < B && j < a.Length
    modifies a
    ensures Limbs(a[..]) && Val(a[..]) + k * PowB(a.Length) == Val(old(a[..])) + (PowB(j) * x) * Val(b)
  {
    hide *;
    ghost var was := a[..];
    var carry: nat := 0;
    RowStart(was, b, x, j);
    for i := 0 to a.Length - j
      invariant RowState(was, a[..], b, x, j, i, carry)
    {
      ghost var now := a[..];
      var n: nat := carry + a[i + j] + x * b[i];
      RowStep(was, now, b, x, j, i, carry);
      var low: nat := n % B;
      a[i + j] := low;
      carry := n / B;
      assert a[..] == now[i + j := low];
    }
    k := RowEnd(was, a[..], b, x, j, carry);
  }

  lemma RowNext(s: seq<nat>, j: nat, i: nat, v: nat)
    requires j + i < |s|
    ensures var t := s[i + j := v]; t[..j] == s[..j] && t[j..][..i] == s[j..][..i] && t[j..][i] == v
  {
  }

  lemma RowEnd(was: seq<nat>, now: seq<nat>, b: seq<nat>, x: nat, j: nat, carry: nat) returns (k: nat)
    requires j <= |b| && RowState(was, now, b, x, j, |b| - j, carry)
    ensures Limbs(now) && Val(now) + k * PowB(|b|) == Val(was) + (PowB(j) * x) * Val(b)
  {
    hide Val, PowB;
    var n := |b| - j;
    assert now[j..][..n] == now[j..] && was[j..][..n] == was[j..];
    ValSplit(now, j);
    ValSplit(was, j);
    ValSplit(b, n);
    PowBSum(j, n);
    k := carry + x * Val(b[n..]);
    RowAlgebra(PowB(j), PowB(n), Val(now[j..]), Val(was[j..]), carry, x, Val(b[..n]), Val(b[n..]));
  }

  lemma RowAlgebra(p: nat, q: nat, now: nat, was: nat, c: nat, x: nat, low: nat, high: nat)
    requires now + c * q == was + x * low
    ensures p * now + (c + x * high) * (p * q) == p * was + (p * x) * (low + q * high)
  {
    assert (c + x * high) * (p * q) == p * (c * q) + p * (x * (q * high)) by {
      assert (c + x * high) * (p * q) == c * (p * q) + (x * high) * (p * q);
      assert c * (p * q) == p * (c * q);
      assert (x * high) * (p * q) == p * (x * (q * high));
    }
    assert (p * x) * (low + q * high) == p * (x * low) + p * (x * (q * high)) by {
      assert (p * x) * (low + q * high) == p * (x * (low + q * high));
      Distribute(x, low, q * high);
      Distribute(p, x * low, x * (q * high));
    }
    Distribute(p, now, c * q);
    Distribute(p, was, x * low);
  }

  /** operator*=: the limbs of pn times b, accumulated in a second number. */
  method Multiply(pn: array<nat>, b: seq<nat>)
    requires Limbs(pn[..]) && Limbs(b) && |b| == pn.Length
    modifies pn
    ensures Limbs(pn[..]) && Val(pn[..]) == (Val(old(pn[..])) * Val(b)) % PowB(pn.Length)
  {
    hide Val, PowB;
    ghost var s := pn[..];
    var a := new nat[pn.Length](_ => 0);
    AllZeros(a[..]);
    AllZeros([]);
    ghost var lost := 0;
    assert s[..0] == [];
    for j := 0 to pn.Length
      invariant pn[..] == s && Limbs(a[..]) && lost >= 0
      invariant Val(a[..]) + lost * PowB(pn.Length) == Val(s[..j]) * Val(b)
    {
      ghost var before := Val(a[..]);
      ghost var k := AddProduct(a, b, pn[j], j);
      ValNext(s, j);
      Rearrange(before, Val(a[..]), lost, k, PowB(pn.Length), Val(s[..j]), PowB(j) * s[j], Val(b));
      lost := lost + k;
    }
    assert s[..pn.Length] == s;
    ghost var r := a[..];
    ValBound(r);
    DivModIs(Val(s) * Val(b), PowB(pn.Length), lost, Val(r));
    forall i | 0 <= i < pn.Length { pn[i] := a[i]; }
    assert pn[..] == r;
  }

  lemma Rearrange(before: nat, after: nat, lost: nat, k: nat, m: nat, done: nat, more: nat, b: nat)
    requires before + lost * m == done * b && after + k * m == before + more * b
    ensures after + (lost + k) * m == (done + more) * b
  {
  }

  // ---------------------------------------------------------------------------------------------
  // Comparison
  // ---------------------------------------------------------------------------------------------

  /** CompareTo: the highest limb that differs decides. */
  method CompareTo(a: seq<nat>, b: seq<nat>) returns (r: int)
    requires Limbs(a) && Limbs(b) && |a| == |b|
    ensures r == if Val(a) < Val(b) then -1 else if Val(a) > Val(b) then 1 else 0
  {
    var i := |a| - 1;
    while i >= 0
      invariant -1 <= i < |a| && a[i+1..] == b[i+1..]
    {
      if a[i] < b[i] {
        HighestDecides(a, b, i);
        return -1;
      }
      if a[i] > b[i] {
        HighestDecides(b, a, i);
        return 1;
      }
      assert a[i..] == [a[i]] + a[i+1..] && b[i..] == [b[i]] + b[i+1..];
      i := i - 1;
    }
    assert a[0..] == a && b[0..] == b;
    return 0;
  }

  lemma HighestDecides(a: seq<nat>, b: seq<nat>, i: nat)
    requires Limbs(a) && Limbs(b) && |a| == |b| && i < |a| && a[i] < b[i] && a[i+1..] == b[i+1..]
    ensures Val(a) < Val(b)
  {
    assert Limbs(a[..i]);
    hide Val, PowB, Limbs;
    ValSplit(a, i);
    ValSplit(b, i);
    ValBound(a[..i]);
    ValHead(a, i);
    ValHead(b, i);
    HighPart(PowB(i), Val(a[..i]), Val(a[i..]), Val(b[..i]), Val(b[i..]));
  }

  lemma HighPart(p: nat, lowA: nat, highA: nat, lowB: nat, highB: nat)
    requires lowA < p && highA < highB
    ensures lowA + p * highA < lowB + p * highB
  {
    MulMono(highA + 1, highB, p);
  }

  // ---------------------------------------------------------------------------------------------
  // Bits
  // ---------------------------------------------------------------------------------------------

  /** Bitwise or of two limbs. */
  function Or(x: nat, y: nat): nat {
    if x == 0 then y
    else if y == 0 then x
    else (if x % 2 == 1 || y % 2 == 1 then 1 else 0) + 2 * Or(x / 2, y / 2)
  }

  predicate Bit(x: nat, t: nat) {
    if t == 0 then x % 2 == 1 else Bit(x / 2, t - 1)
  }

  /** Or is addition where no bits overlap. */
  lemma {:induction false} OrDisjoint(x: nat, q: nat, s: nat)
    requires x < Pow2(s)
    ensures Or(x, q * Pow2(s)) == x + q * Pow2(s)
  {
    hide Or, Pow2;
    if s == 0 {
      Pow2Zero();
      OrZero(q * Pow2(s));
    } else {
      var y := q * Pow2(s - 1);
      Pow2Next(s);
      TwiceLast(q, Pow2(s - 1));
      OrEven(x, y);
      OrDisjoint(x / 2, q, s - 1);
    }
  }

  lemma TwiceLast(q: nat, p: nat)
    ensures q * (2 * p) == 2 * (q * p)
  {
  }

  lemma OrEven(x: nat, y: nat)
    ensures Or(x, 2 * y) == x % 2 + 2 * Or(x / 2, y)
  {
  }

  lemma {:induction false} OrBit(x: nat, t: nat)
    requires !Bit(x, t)
    ensures Or(x, Pow2(t)) == x + Pow2(t)
  {
    if t > 0 && x > 0 {
      OrBit(x / 2, t - 1);
    }
  }

  /** Adding a bit leaves the lower ones alone. */
  lemma {:induction false} LowerBits(x: nat, t: nat, p: nat)
    requires p < t
    ensures Bit(x + Pow2(t), p) == Bit(x, p)
  {
    if p > 0 {
      LowerBits(x / 2, t - 1, p - 1);
    }
  }

  lemma {:induction false} ZeroBits(t: nat)
    ensures !Bit(0, t)
  {
    if t > 0 {
      ZeroBits(t - 1);
    }
  }

  lemma {:induction false} BitRange(x: nat, n: nat)
    requires x < Pow2(n + 1)
    ensures Bit(x, n) <==> x >= Pow2(n)
  {
    if n > 0 {
      BitRange(x / 2, n - 1);
    }
  }

  /** bits(): the position of the highest bit set plus one, or zero. */
  method Bits(pn: seq<nat>) returns (r: nat)
    requires Limbs(pn)
    ensures Val(pn) < Pow2(r) && (r > 0 ==> Pow2(r - 1) <= Val(pn)) && r <= 32 * |pn|
  {
    var pos := |pn| - 1;
    while pos >= 0
      invariant -1 <= pos < |pn| && forall j | pos < j < |pn| :: pn[j] == 0
    {
      if pn[pos] != 0 {
        var nbits := 31;
        Pow2Values();
        while nbits > 0
          invariant 0 <= nbits <= 31 && pn[pos] < Pow2(nbits + 1)
        {
          BitRange(pn[pos], nbits);
          if Bit(pn[pos], nbits) {
            TopLimb(pn, pos, nbits);
            return 32 * pos + nbits + 1;
          }
          nbits := nbits - 1;
        }
        assert Pow2(1) == 2 && Pow2(0) == 1;
        TopLimb(pn, pos, 0);
        return 32 * pos + 1;
      }
      pos := pos - 1;
    }
    AllZeros(pn);
    return 0;
  }

  lemma TopLimb(pn: seq<nat>, pos: nat, nbits: nat)
    requires Limbs(pn) && pos < |pn| && (forall j | pos < j < |pn| :: pn[j] == 0)
    requires Pow2(nbits) <= pn[pos] < Pow2(nbits + 1)
    ensures Pow2(32 * pos + nbits) <= Val(pn) < Pow2(32 * pos + nbits + 1)
  {
    assert Limbs(pn[..pos]);
    hide Val, Limbs, Pow2;
    ValSplit(pn, pos);
    ValHead(pn, pos);
    AllZeros(pn[pos+1..]);
    ValBound(pn[..pos]);
    PowBIsPow2(pos);
    Pow2Sum(32 * pos, nbits);
    Pow2Sum(32 * pos, nbits + 1);
    Between(PowB(pos), Val(pn[..pos]), pn[pos], Pow2(nbits), Pow2(nbits + 1));
  }

  lemma Between(p: nat, low: nat, x: nat, lower: nat, upper: nat)
    requires low < p && lower <= x < upper
    ensures p * lower <= low + p * x < p * upper
  {
    MulMono(lower, x, p);
    MulMono(x + 1, upper, p);
  }

  // ---------------------------------------------------------------------------------------------
  // Shifts
  // ---------------------------------------------------------------------------------------------

  /** The part of x << s that stays in the limb, and the part that goes to the next. */
  function Low(x: nat, s: nat): nat
    requires s < 32
  {
    x * Pow2(s) % B
  }

  function High(x: nat, s: nat): nat
    requires s < 32
  {
    DivNat(x, Pow2(32 - s));
    x / Pow2(32 - s)
  }

  lemma DivNat(x: nat, p: nat)
    requires p > 0
    ensures x / p >= 0
  {
  }

  lemma LowHigh(x: nat, s: nat)
    requires x < B && s < 32
    ensures x * Pow2(s) == High(x, s) * B + Low(x, s) && High(x, s) < Pow2(s)
    ensures Low(x, s) == (x % Pow2(32 - s)) * Pow2(s) < B
  {
    hide Pow2;
    Pow2Values();
    Pow2Sum(32 - s, s);
    var p, p', h, q := Pow2(s), Pow2(32 - s), x / Pow2(32 - s), x % Pow2(32 - s);
    SplitProduct(h, p', q, p);
    BelowProduct(q, p', p);
    assert x == h * p' + q;
    DivModIs(x * p, B, h, q * p);
    QuotientBelow(h, p', q, p);
  }

  lemma QuotientBelow(h: nat, p': nat, q: nat, p: nat)
    requires h * p' + q < p' * p
    ensures h < p
  {
    if h >= p {
      MulMono(p, h, p');
    }
  }

  lemma SplitProduct(h: nat, p': nat, q: nat, p: nat)
    ensures (h * p' + q) * p == h * (p' * p) + q * p
  {
    assert (h * p') * p == h * (p' * p);
    assert (h * p' + q) * p == (h * p') * p + q * p;
  }

  lemma OrParts(hi: nat, x: nat, s: nat)
    requires x < B && s < 32 && hi < Pow2(s)
    ensures Or(hi, Low(x, s)) == hi + Low(x, s) && hi + Low(x, s) < B
  {
    hide Pow2, Or;
    LowHigh(x, s);
    Pow2Values();
    Pow2Sum(32 - s, s);
    OrDisjoint(hi, x % Pow2(32 - s), s);
    FitsIn(hi, x % Pow2(32 - s), Pow2(32 - s), Pow2(s));
  }

  /** Limb j of a << (32 k + s). */
  function ShlLimb(a: seq<nat>, k: nat, s: nat, j: nat): nat
    requires s < 32 && j < |a|
  {
    (if j > k then High(a[j-k-1], s) else 0) + (if j >= k then Low(a[j-k], s) else 0)
  }

  /** operator<<=. */
  method ShiftLeft(pn: array<nat>, bits: nat)
    requires Limbs(pn[..])
    modifies pn
    ensures Limbs(pn[..]) && Val(pn[..]) == (Val(old(pn[..])) * Pow2(bits)) % PowB(pn.Length)
  {
    hide Val, PowB, Or, Low, High, Pow2, ShlAfter;
    var a := pn[..];
    var width := pn.Length;
    for i := 0 to width
      invariant forall j | 0 <= j < i :: pn[j] == 0
    {
      pn[i] := 0;
    }
    var k, shift := bits / 32, bits % 32;
    forall j | 0 <= j < width ensures pn[j] == ShlAfter(a, k, shift, 0, j) {
      ShlStart(a, k, shift, j);
    }
    for i := 0 to width
      invariant forall j | 0 <= j < width :: pn[j] == ShlAfter(a, k, shift, i, j)
    {
      ghost var was := pn[..];
      if i + k + 1 < width && shift != 0 {
        pn[i+k+1] := Or(pn[i+k+1], High(a[i], shift));
      }
      if i + k < width {
        pn[i+k] := Or(pn[i+k], Low(a[i], shift));
      }
      forall j | 0 <= j < width ensures pn[j] == ShlAfter(a, k, shift, i + 1, j) {
        ShlStep(a, k, shift, i, j);
        assert was[j] == ShlAfter(a, k, shift, i, j);
      }
    }
    forall j | 0 <= j < width ensures pn[j] == ShlLimb(a, k, shift, j) {
      ShlEnd(a, k, shift, j);
    }
    ShlVal(a, pn[..], k, shift);
    assert bits == 32 * k + shift;
  }

  /** Limb j when the first i limbs of a have been shifted into place. */
  function ShlAfter(a: seq<nat>, k: nat, s: nat, i: nat, j: nat): nat
    requires s < 32 && j < |a| && i <= |a|
  {
    if j < i + k then ShlLimb(a, k, s, j)
    else if j == i + k && i > 0 then High(a[i-1], s)
    else 0
  }

  /** Limb j after what the loop does for limb i of a. */
  function ShlUpdate(a: seq<nat>, k: nat, s: nat, i: nat, j: nat): nat
    requires s < 32 && j < |a| && i < |a|
  {
    if j == i + k then Or(ShlAfter(a, k, s, i, j), Low(a[i], s))
    else if j == i + k + 1 && s != 0 then Or(ShlAfter(a, k, s, i, j), High(a[i], s))
    else ShlAfter(a, k, s, i, j)
  }

  lemma ShlStart(a: seq<nat>, k: nat, s: nat, j: nat)
    requires s < 32 && j < |a|
    ensures ShlAfter(a, k, s, 0, j) == 0
  {
  }

  lemma ShlEnd(a: seq<nat>, k: nat, s: nat, j: nat)
    requires s < 32 && j < |a|
    ensures ShlAfter(a, k, s, |a|, j) == ShlLimb(a, k, s, j)
  {
  }

  lemma ShlStep(a: seq<nat>, k: nat, s: nat, i: nat, j: nat)
    requires s < 32 && j < |a| && i < |a| && Limbs(a)
    ensures ShlAfter(a, k, s, i + 1, j) == ShlUpdate(a, k, s, i, j)
  {
    hide Low, High, Pow2, Or;
    LowHigh(a[i], s);
    if i > 0 {
      LowHigh(a[i-1], s);
    }
    Pow2Positive(s);
    OrParts(if i > 0 then High(a[i-1], s) else 0, a[i], s);
    OrZero(High(a[i], s));
    if s == 0 {
      NoHigh(a[i]);
    }
  }

  lemma OrZero(x: nat)
    ensures Or(0, x) == x
  {
  }

  lemma NoHigh(x: nat)
    requires x < B
    ensures High(x, 0) == 0
  {
    Pow2Values();
  }

  /** Carrying limb by limb: the first n limbs of the result and the carry make up 2^s times the first n of a. */
  lemma {:induction false} ShlPrefix(a: seq<nat>, r: seq<nat>, s: nat, n: nat)
    requires Limbs(a) && s < 32 && |r| <= |a| && n <= |r| && forall j | 0 <= j < |r| :: r[j] == ShlLimb(a, 0, s, j)
    ensures Val(r[..n]) + PowB(n) * (if n > 0 then High(a[n-1], s) else 0) == Val(a[..n]) * Pow2(s)
  {
    hide Val, PowB, Low, High, Pow2;
    if n == 0 {
      AllZeros([]);
      assert r[..0] == [] && a[..0] == [];
    } else {
      ShlPrefix(a, r, s, n - 1);
      ValNext(a, n - 1);
      ValNext(r, n - 1);
      LowHigh(a[n-1], s);
      PowBNext(n - 1);
      CarryStep(PowB(n - 1), Val(r[..n-1]), Val(a[..n-1]), if n > 1 then High(a[n-2], s) else 0, a[n-1], Low(a[n-1], s),
        High(a[n-1], s), Pow2(s));
    }
  }

  lemma CarryStep(p: nat, vr: nat, va: nat, carry: nat, x: nat, low: nat, high: nat, q: nat)
    requires vr + p * carry == va * q && x * q == high * B + low
    ensures vr + p * (carry + low) + (B * p) * high == (va + p * x) * q
  {
    assert (va + p * x) * q == va * q + p * (x * q);
    assert p * (x * q) == p * (high * B + low) == p * (high * B) + p * low;
    assert p * (high * B) == (B * p) * high;
  }

  lemma ShlVal(a: seq<nat>, r: seq<nat>, k: nat, s: nat)
    requires Limbs(a) && s < 32 && |r| == |a| && forall j | 0 <= j < |r| :: r[j] == ShlLimb(a, k, s, j)
    ensures Limbs(r) && Val(r) == (Val(a) * Pow2(32 * k + s)) % PowB(|a|)
  {
    ShlLimbs(a, r, k, s);
    hide Val, PowB, Low, High, Pow2, ShlLimb, Limbs;
    ValBound(r);
    Pow2Sum(32 * k, s);
    PowBIsPow2(k);
    var w := |a|;
    if k >= w {
      AllZeros(r);
      PowBSum(w, k - w);
      WholeShift(Val(a), PowB(w), PowB(k - w), Pow2(s));
    } else {
      var n := w - k;
      assert r[..k] + r[k..] == r && r[k..][..n] == r[k..];
      AllZeros(r[..k]);
      ValSplit(r, k);
      ShlPrefix(a, r[k..], s, n);
      ValSplit(a, n);
      PowBSum(k, n);
      PartShift(Val(a), Val(a[..n]), Val(a[n..]), PowB(n), PowB(k), Pow2(s), Val(r[k..]), High(a[n-1], s), Val(r),
        PowB(w));
    }
  }

  lemma ShlLimbs(a: seq<nat>, r: seq<nat>, k: nat, s: nat)
    requires Limbs(a) && s < 32 && |r| == |a| && forall j | 0 <= j < |r| :: r[j] == ShlLimb(a, k, s, j)
    ensures Limbs(r) && (forall j | 0 <= j < |r| && j < k :: r[j] == 0)
    ensures k <= |r| ==> forall j | 0 <= j < |r| - k :: r[k..][j] == ShlLimb(a, 0, s, j)
  {
    forall j | 0 <= j < |r| ensures r[j] < B {
      if j >= k {
        if j > k {
          LowHigh(a[j-k-1], s);
        }
        OrParts(if j > k then High(a[j-k-1], s) else 0, a[j-k], s);
      }
    }
  }

  lemma WholeShift(va: nat, pw: nat, p: nat, q: nat)
    requires pw > 0
    ensures (va * (pw * p * q)) % pw == 0
  {
    assert va * (pw * p * q) == (va * p * q) * pw;
    DivModIs(va * (pw * p * q), pw, va * p * q, 0);
  }

  lemma PartShift(va: nat, low: nat, high: nat, pn: nat, pk: nat, q: nat, vr: nat, carry: nat, r: nat, pw: nat)
    requires va == low + pn * high && vr + pn * carry == low * q && r == pk * vr && r < pw && pw == pk * pn
    ensures (va * (pk * q)) % pw == r
  {
    calc {
      va * (pk * q);
      (low + pn * high) * (pk * q);
      low * (pk * q) + (pn * high) * (pk * q);
      { assert low * (pk * q) == pk * (low * q); }
      pk * (vr + pn * carry) + (pn * high) * (pk * q);
      { assert pk * (vr + pn * carry) == pk * vr + (pk * pn) * carry;
        assert (pn * high) * (pk * q) == (pk * pn) * (high * q); }
      r + pw * carry + pw * (high * q);
      r + (carry + high * q) * pw;
    }
    DivModIs(va * (pk * q), pw, carry + high * q, r);
  }

  /** Limb j of a >> (32 k + s): the upper part of a limb and the lower part of the next, each shifted the other way. */
  function ShrLimb(a: seq<nat>, k: nat, s: nat, j: nat): nat
    requires s < 32
  {
    if j + k >= |a| then 0
    else if s == 0 then a[j+k]
    else High(a[j+k], 32 - s) + if j + k + 1 < |a| then Low(a[j+k+1], 32 - s) else 0
  }

  /** operator>>=. */
  method ShiftRight(pn: array<nat>, bits: nat)
    requires Limbs(pn[..])
    modifies pn
    ensures Limbs(pn[..]) && Val(pn[..]) == Val(old(pn[..])) / Pow2(bits)
  {
    hide Val, PowB, Or, Low, High, Pow2, ShrAfter;
    var a := pn[..];
    var width := pn.Length;
    for i := 0 to width
      invariant forall j | 0 <= j < i :: pn[j] == 0
    {
      pn[i] := 0;
    }
    var k, shift := bits / 32, bits % 32;
    forall j | 0 <= j < width ensures pn[j] == ShrAfter(a, k, shift, 0, j) {
      ShrStart(a, k, shift, j);
    }
    for i := 0 to width
      invariant forall j | 0 <= j < width :: pn[j] == ShrAfter(a, k, shift, i, j)
    {
      ghost var was := pn[..];
      if i - k - 1 >= 0 && shift != 0 {
        pn[i-k-1] := Or(pn[i-k-1], Low(a[i], 32 - shift));
      }
      if i - k >= 0 {
        pn[i-k] := Or(pn[i-k], if shift == 0 then a[i] else High(a[i], 32 - shift));
      }
      forall j | 0 <= j < width ensures pn[j] == ShrAfter(a, k, shift, i + 1, j) {
        ShrStep(a, k, shift, i, j);
        assert was[j] == ShrAfter(a, k, shift, i, j);
      }
    }
    forall j | 0 <= j < width ensures pn[j] == ShrLimb(a, k, shift, j) {
      ShrEnd(a, k, shift, j);
    }
    ShrVal(a, pn[..], k, shift);
    assert bits == 32 * k + shift;
  }

  /** Limb j when the first i limbs of a have been shifted into place. */
  function ShrAfter(a: seq<nat>, k: nat, s: nat, i: nat, j: nat): nat
    requires s < 32 && j < |a| && i <= |a|
  {
    if j + k + 1 < i then ShrLimb(a, k, s, j)
    else if j + k + 1 == i then (if s == 0 then a[i-1] else High(a[i-1], 32 - s))
    else 0
  }

  /** Limb j after what the loop does for limb i of a. */
  function ShrUpdate(a: seq<nat>, k: nat, s: nat, i: nat, j: nat): nat
    requires s < 32 && j < |a| && i < |a|
  {
    if j + k + 1 == i && s != 0 then Or(ShrAfter(a, k, s, i, j), Low(a[i], 32 - s))
    else if j + k == i then Or(ShrAfter(a, k, s, i, j), if s == 0 then a[i] else High(a[i], 32 - s))
    else ShrAfter(a, k, s, i, j)
  }

  lemma ShrStart(a: seq<nat>, k: nat, s: nat, j: nat)
    requires s < 32 && j < |a|
    ensures ShrAfter(a, k, s, 0, j) == 0
  {
  }

  lemma ShrEnd(a: seq<nat>, k: nat, s: nat, j: nat)
    requires s < 32 && j < |a|
    ensures ShrAfter(a, k, s, |a|, j) == ShrLimb(a, k, s, j)
  {
  }

  lemma ShrStep(a: seq<nat>, k: nat, s: nat, i: nat, j: nat)
    requires s < 32 && j < |a| && i < |a| && Limbs(a)
    ensures ShrAfter(a, k, s, i + 1, j) == ShrUpdate(a, k, s, i, j)
  {
    hide Low, High, Pow2, Or;
    OrZero(a[i]);
    if s != 0 {
      OrZero(High(a[i], 32 - s));
      if i > 0 {
        LowHigh(a[i-1], 32 - s);
        OrParts(High(a[i-1], 32 - s), a[i], 32 - s);
      }
    }
  }

  /** From limb j of c on, the result is the value shifted, and the bits lost are the lowest of limb j. */
  lemma {:induction false} ShrSuffix(c: seq<nat>, r: seq<nat>, s: nat, j: nat)
    requires Limbs(c) && 0 < s < 32 && |r| == |c| && j < |c| && forall i | 0 <= i < |r| :: r[i] == ShrLimb(c, 0, s, i)
    ensures Val(r[j..]) * Pow2(s) + c[j] % Pow2(s) == Val(c[j..])
    decreases |c| - j
  {
    hide Val, Pow2, Low, High;
    ValHead(c, j);
    ValHead(r, j);
    Parts(c[j], s);
    if j + 1 < |c| {
      ShrSuffix(c, r, s, j + 1);
      Parts(c[j+1], s);
      BorrowStep(High(c[j], 32 - s), Low(c[j+1], 32 - s), Pow2(s), c[j] % Pow2(s), c[j], c[j+1] % Pow2(s),
        Val(r[j+1..]), Val(c[j+1..]));
    } else {
      assert r[j+1..] == [] && c[j+1..] == [];
      AllZeros([]);
    }
  }

  lemma Parts(x: nat, s: nat)
    requires x < B && 0 < s < 32
    ensures High(x, 32 - s) * Pow2(s) + x % Pow2(s) == x && Low(x, 32 - s) * Pow2(s) == (x % Pow2(s)) * B
  {
    hide Pow2, Low;
    LowHigh(x, 32 - s);
    Pow2Values();
    Pow2Sum(32 - s, s);
    var p, p', q := Pow2(s), Pow2(32 - s), x % Pow2(s);
    assert 32 - (32 - s) == s;
    assert Low(x, 32 - s) == q * p';
    Assoc(q, p', p);
  }

  lemma BorrowStep(high: nat, low: nat, q: nat, rem: nat, x: nat, remNext: nat, vr: nat, vc: nat)
    requires high * q + rem == x && low * q == remNext * B && vr * q + remNext == vc
    ensures (high + low + B * vr) * q + rem == x + B * vc
  {
    assert (high + low + B * vr) * q == high * q + low * q + B * (vr * q);
  }

  lemma ShrVal(a: seq<nat>, r: seq<nat>, k: nat, s: nat)
    requires Limbs(a) && s < 32 && |r| == |a| && forall j | 0 <= j < |r| :: r[j] == ShrLimb(a, k, s, j)
    ensures Limbs(r) && Val(r) == Val(a) / Pow2(32 * k + s)
  {
    ShrLimbs(a, r, k, s);
    hide Val, PowB, Low, High, Pow2, Limbs;
    var w := |a|;
    PowBIsPow2(k);
    Pow2Sum(32 * k, s);
    if k >= w {
      AllZeros(r);
      ValBound(a);
      PowBSum(w, k - w);
      LargeDivisor(Val(a), PowB(w), PowB(k - w), Pow2(s));
    } else {
      var n := w - k;
      ValSplit(r, n);
      AllZeros(r[n..]);
      ValSplit(a, k);
      ValBound(a[..k]);
      if s == 0 {
        assert r[..n] == a[k..];
        Pow2Zero();
        FloorBoth(Val(a), PowB(k), Val(a[..k]), Val(a[k..]), 1, 0, Val(r[..n]));
      } else {
        ShrSuffix(a[k..], r[..n], s, 0);
        assert a[k..][0..] == a[k..] && r[..n][0..] == r[..n];
        FloorBoth(Val(a), PowB(k), Val(a[..k]), Val(a[k..]), Pow2(s), a[k] % Pow2(s), Val(r[..n]));
      }
    }
  }

  lemma ShrLimbs(a: seq<nat>, r: seq<nat>, k: nat, s: nat)
    requires Limbs(a) && s < 32 && |r| == |a| && forall j | 0 <= j < |r| :: r[j] == ShrLimb(a, k, s, j)
    ensures Limbs(r) && (forall j | 0 <= j < |r| && j >= |a| - k :: r[j] == 0)
    ensures k < |a| ==>
      Limbs(a[..k]) && Limbs(a[k..]) && forall j | 0 <= j < |a| - k :: r[..|a|-k][j] == ShrLimb(a[k..], 0, s, j)
  {
    forall j | 0 <= j < |r| ensures r[j] < B {
      if j + k < |a| && s != 0 {
        LowHigh(a[j+k], 32 - s);
        if j + k + 1 < |a| {
          OrParts(High(a[j+k], 32 - s), a[j+k+1], 32 - s);
        } else {
          OrParts(High(a[j+k], 32 - s), 0, 32 - s);
        }
      }
    }
  }

  lemma LargeDivisor(x: nat, pw: nat, p: nat, q: nat)
    requires x < pw && p > 0 && q > 0
    ensures x / (pw * p * q) == 0
  {
    MulMono(1, p, pw);
    assert pw * p >= pw;
    MulMono(1, q, pw * p);
    assert (pw * p) * q >= pw;
    DivModIs(x, pw * p * q, 0, x);
  }

  lemma FloorBoth(x: nat, p: nat, low: nat, high: nat, q: nat, rem: nat, r: nat)
    requires x == low + p * high && low < p && high == r * q + rem && rem < q
    ensures x / (p * q) == r
  {
    calc {
      x;
      low + p * (r * q + rem);
      low + p * (r * q) + p * rem;
      { assert p * (r * q) == r * (p * q); }
      r * (p * q) + (p * rem + low);
    }
    FitsIn(low, rem, q, p);
    DivModIs(x, p * q, r, p * rem + low);
  }

  // ---------------------------------------------------------------------------------------------
  // Division
  // ---------------------------------------------------------------------------------------------

  /** No bit of the number up to position top is set. */
  ghost predicate ClearUpTo(s: seq<nat>, top: int) {
    forall p: nat | p <= top && p / 32 < |s| :: !Bit(s[p / 32], p % 32)
  }

  /** Setting a clear bit adds its power of two. */
  lemma SetBit(s: seq<nat>, shift: nat, r: seq<nat>)
    requires Limbs(s) && shift / 32 < |s| && ClearUpTo(s, shift)
      && r == s[shift / 32 := Or(s[shift / 32], Pow2(shift % 32))]
    ensures Limbs(r) && Val(r) == Val(s) + Pow2(shift) && ClearUpTo(r, shift - 1)
  {
    var i, t := shift / 32, shift % 32;
    assert !Bit(s[i], t);
    OrBit(s[i], t);
    StaysLimb(s[i], t);
    forall p: nat | p <= shift - 1 && p / 32 < |r| ensures !Bit(r[p / 32], p % 32) {
      assert !Bit(s[p / 32], p % 32);
      if p / 32 == i {
        LowerBits(s[i], t, p % 32);
      }
    }
    SetLimb(s, i, s[i] + Pow2(t));
    PowBIsPow2(i);
    Pow2Sum(32 * i, t);
  }

  /** A limb stays a limb when a clear bit is set in it. */
  lemma {:induction false} ClearBitRoom(x: nat, t: nat, n: nat)
    requires x < Pow2(n) && t < n && !Bit(x, t)
    ensures x + Pow2(t) < Pow2(n)
  {
    assert Pow2(n) == 2 * Pow2(n - 1);
    if t > 0 {
      assert Pow2(t) == 2 * Pow2(t - 1);
      hide Pow2;
      ClearBitRoom(x / 2, t - 1, n - 1);
    }
  }

  lemma StaysLimb(x: nat, t: nat)
    requires x < B && t < 32 && !Bit(x, t)
    ensures x + Pow2(t) < B
  {
    Pow2Values();
    ClearBitRoom(x, t, 32);
  }

  lemma SetLimb(s: seq<nat>, i: nat, y: nat)
    requires i < |s| && s[i] <= y
    ensures Val(s[i := y]) == Val(s) + PowB(i) * (y - s[i])
  {
    var r := s[i := y];
    hide Val, PowB;
    ValSplit(s, i);
    ValSplit(r, i);
    ValHead(s, i);
    ValHead(r, i);
    assert r[..i] == s[..i] && r[i+1..] == s[i+1..];
    var v := B * Val(s[i+1..]);
    assert PowB(i) * (y + v) == PowB(i) * (s[i] + v) + PowB(i) * (y - s[i]);
  }

  /** operator/=: shift and subtract. Nothing for division by zero. */
  method Divide(a: seq<nat>, b: seq<nat>) returns (r: Option<seq<nat>>)
    requires Limbs(a) && Limbs(b) && |a| == |b|
    ensures Val(b) == 0 ==> r.None?
    ensures Val(b) > 0 ==> r.Some? && |r.value| == |a| && Limbs(r.value) && Val(r.value) == Val(a) / Val(b)
  {
    hide Val, PowB, Pow2, Limbs, ClearUpTo, Or;
    var width := |a|;
    ghost var x, y := Val(a), Val(b);
    var div := ToArray(b);
    var num := ToArray(a);
    var pn := new nat[width](_ => 0);
    ZeroNumber(pn[..]);
    var numBits := Bits(num[..]);
    var divBits := Bits(div[..]);
    if divBits == 0 {
      Pow2Zero();
      return None;
    }
    Pow2Positive(divBits - 1);
    if divBits > numBits {
      Pow2Grows(numBits, divBits - 1);
      Smaller(x, y);
      return Some(pn[..]);
    }
    var shift := numBits - divBits;
    StartDivision(x, y, numBits, divBits, width);
    ShiftLeft(div, shift);
    assert ClearUpTo(pn[..], shift);
    while shift >= 0
      invariant -1 <= shift < 32 * width && div.Length == num.Length == pn.Length == width && Limbs(div[..])
        && Limbs(num[..]) && Limbs(pn[..])
      invariant Dividing(x, y, num[..], div[..], pn[..], shift)
    {
      DivideStep(x, y, num, div, pn, shift);
      shift := shift - 1;
    }
    Pow2Zero();
    DivModIs(x, y, Val(pn[..]), Val(num[..]));
    return Some(pn[..]);
  }

  /** The quotient so far and what is left of the dividend; div is the divisor shifted. */
  ghost predicate Dividing(x: nat, y: nat, num: seq<nat>, div: seq<nat>, quotient: seq<nat>, shift: int)
    requires shift >= -1
  {
    && x == Val(quotient) * y + Val(num) && ClearUpTo(quotient, shift)
    && Val(num) < y * Pow2(shift + 1) && (shift >= 0 ==> Val(div) == y * Pow2(shift))
  }

  /** The loop body of the division. */
  method DivideStep(ghost x: nat, ghost y: nat, num: array<nat>, div: array<nat>, pn: array<nat>, shift: nat)
    requires Limbs(num[..]) && Limbs(div[..]) && Limbs(pn[..]) && num.Length == div.Length == pn.Length
      && shift < 32 * pn.Length
    requires num != div && num != pn && div != pn && Dividing(x, y, num[..], div[..], pn[..], shift)
    modifies num, div, pn
    ensures Limbs(num[..]) && Limbs(div[..]) && Limbs(pn[..]) && Dividing(x, y, num[..], div[..], pn[..], shift - 1)
  {
    hide Val, PowB, Pow2, Limbs, ClearUpTo, Or;
    Halves(y, shift);
    var c := CompareTo(num[..], div[..]);
    if c >= 0 {
      ghost var n0, s0 := Val(num[..]), pn[..];
      ValBound(num[..]);
      Subtract(num, div[..]);
      Reduced(n0 - y * Pow2(shift), PowB(num.Length));
      pn[shift / 32] := Or(pn[shift / 32], Pow2(shift % 32));
      SetBit(s0, shift, pn[..]);
      MoreQuotient(Val(s0), Pow2(shift), y);
    } else {
      LessClear(pn[..], shift);
    }
    ShiftRight(div, 1);
  }

  method ToArray(s: seq<nat>) returns (a: array<nat>)
    ensures fresh(a) && a[..] == s
  {
    a := new nat[|s|](i requires 0 <= i < |s| => s[i]);
  }

  lemma ZeroNumber(s: seq<nat>)
    requires forall i | 0 <= i < |s| :: s[i] == 0
    ensures Limbs(s) && Val(s) == 0 && forall top :: ClearUpTo(s, top)
  {
    AllZeros(s);
    forall p: nat | p / 32 < |s| ensures !Bit(s[p / 32], p % 32) {
      ZeroBits(p % 32);
    }
  }

  lemma Smaller(x: nat, y: nat)
    requires x < y
    ensures x / y == 0
  {
    DivModIs(x, y, 0, x);
  }

  /** The divisor aligned with the dividend fits the width, and the dividend is less than twice as much. */
  lemma StartDivision(x: nat, y: nat, numBits: nat, divBits: nat, width: nat)
    requires x < Pow2(numBits) && numBits <= 32 * width && 0 < divBits <= numBits
      && Pow2(divBits - 1) <= y < Pow2(divBits)
    ensures var shift := numBits - divBits;
      shift < 32 * width && x < y * Pow2(shift + 1) && (y * Pow2(shift)) % PowB(width) == y * Pow2(shift)
  {
    var shift := numBits - divBits;
    hide Pow2;
    Pow2Sum(divBits - 1, shift + 1);
    MulMono(Pow2(divBits - 1), y, Pow2(shift + 1));
    Pow2Sum(divBits, shift);
    Pow2Positive(shift);
    BelowProduct(y, Pow2(divBits), Pow2(shift));
    Pow2Grows(numBits, 32 * width);
    PowBIsPow2(width);
    Reduced(y * Pow2(shift), PowB(width));
  }

  lemma Halves(y: nat, shift: nat)
    ensures y * Pow2(shift + 1) == 2 * (y * Pow2(shift)) && Pow2(1) == 2
    ensures shift > 0 ==> (y * Pow2(shift)) / 2 == y * Pow2(shift - 1)
  {
    if shift > 0 {
      assert y * Pow2(shift) == 2 * (y * Pow2(shift - 1));
    }
  }

  lemma MoreQuotient(q: nat, p: nat, y: nat)
    ensures (q + p) * y == q * y + y * p
  {
  }

  lemma LessClear(s: seq<nat>, top: int)
    requires ClearUpTo(s, top)
    ensures ClearUpTo(s, top - 1)
  {
  }
}

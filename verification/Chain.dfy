/** The block index as a tree with skip pointers, and chains in it (src/chain.cpp, src/chain.h). */
module Chains {
  import opened Integers

  // ---------------------------------------------------------------------------------------------
  // Skip heights
  // ---------------------------------------------------------------------------------------------

  /** n & (n - 1). */
  function InvertLowestOne(n: nat): (r: nat)
    ensures r <= n && (n > 0 ==> r < n)
  {
    if n == 0 then 0
    else if n % 2 == 1 then n - 1
    else 2 * InvertLowestOne(n / 2)
  }

  /** It turns the lowest one of the binary representation into a zero and keeps the rest. */
  lemma {:induction false} InvertsLowestOne(n: nat) returns (m: nat, k: nat)
    requires n > 0
    ensures n == (2 * m + 1) * Pow2(k) && InvertLowestOne(n) == (2 * m) * Pow2(k)
  {
    if n % 2 == 1 {
      m, k := n / 2, 0;
    } else {
      m, k := InvertsLowestOne(n / 2);
      k := k + 1;
      Doubled(2 * m + 1, Pow2(k - 1));
      Doubled(2 * m, Pow2(k - 1));
    }
  }

  lemma Doubled(a: nat, p: nat)
    ensures a * (2 * p) == 2 * (a * p)
  {
  }

  function GetSkipHeight(height: nat): (r: nat)
    ensures height > 0 ==> r < height
  {
    if height < 2 then 0
    else if height % 2 == 1 then InvertLowestOne(InvertLowestOne(height - 1)) + 1
    else InvertLowestOne(height)
  }

  // ---------------------------------------------------------------------------------------------
  // Few steps back
  // ---------------------------------------------------------------------------------------------

  /** The height that GetAncestor goes to from h on its way to t, with all skip pointers there. */
  function NextHeight(h: nat, t: nat): (r: nat)
    requires t < h
    ensures t <= r < h
  {
    var skip, skipPrev := GetSkipHeight(h), GetSkipHeight(h - 1);
    if skip == t || (skip > t && !(skipPrev < skip - 2 && skipPrev >= t)) then skip else h - 1
  }

  /** The number of its steps. */
  function Steps(h: nat, t: nat): nat
    requires t <= h
  {
    if h == t then 0 else 1 + Steps(NextHeight(h, t), t)
  }

  function Ones(n: nat): nat { if n == 0 then 0 else n % 2 + Ones(n / 2) }

  lemma {:induction false} OnesBound(n: nat, m: nat)
    requires n < Pow2(m)
    ensures Ones(n) <= m
  {
    if m > 0 { OnesBound(n / 2, m - 1); }
  }

  lemma {:induction false} OnesInverted(n: nat)
    requires n > 0
    ensures Ones(InvertLowestOne(n)) == Ones(n) - 1
  {
    if n % 2 == 0 {
      OnesInverted(n / 2);
      assert InvertLowestOne(n) / 2 == InvertLowestOne(n / 2);
    } else {
      assert (n - 1) / 2 == n / 2;
    }
  }

  /** Below a multiple of 2^m only the lower bits matter. */
  lemma {:induction false} InvertAbove(c: nat, m: nat, r: nat)
    requires 0 < r < Pow2(m)
    ensures InvertLowestOne(c * Pow2(m) + r) == c * Pow2(m) + InvertLowestOne(r)
  {
    var p := Pow2(m - 1);
    Doubled(c, p);
    assert c * Pow2(m) == 2 * (c * p);
    var h := 2 * (c * p) + r;
    assert h % 2 == r % 2 && h / 2 == c * p + r / 2;
    if r % 2 == 0 { InvertAbove(c, m - 1, r / 2); }
  }

  lemma InvertDouble(n: nat)
    ensures InvertLowestOne(2 * n) == 2 * InvertLowestOne(n) && InvertLowestOne(2 * n + 1) == 2 * n
  {
  }

  lemma InvertFour(z: nat)
    ensures InvertLowestOne(4 * z) == 4 * InvertLowestOne(z) && InvertLowestOne(4 * z + 2) == 4 * z
  {
    hide InvertLowestOne;
    InvertDouble(z);
    InvertDouble(2 * z);
    InvertDouble(2 * z + 1);
  }

  lemma InvertEight(y: nat)
    ensures InvertLowestOne(8 * y) == 8 * InvertLowestOne(y) && InvertLowestOne(8 * y + 4) == 8 * y
  {
    hide InvertLowestOne;
    InvertDouble(y);
    InvertFour(2 * y);
    InvertFour(2 * y + 1);
  }

  lemma OnesDouble(n: nat)
    ensures Ones(2 * n) == Ones(n) && Ones(2 * n + 1) == Ones(n) + 1
  {
    assert (2 * n + 1) / 2 == n;
  }

  lemma SkipEven(n: nat)
    ensures GetSkipHeight(2 * n) == InvertLowestOne(2 * n)
  {
    hide InvertLowestOne;
    if n == 0 { InvertDouble(0); }
  }

  lemma SkipOdd(n: nat)
    requires n > 0
    ensures GetSkipHeight(2 * n + 1) == InvertLowestOne(InvertLowestOne(2 * n)) + 1
  {
    hide InvertLowestOne;
    assert (2 * n + 1) % 2 == 1;
  }

  // ---- The walk in general

  lemma NoSteps(t: nat)
    ensures Steps(t, t) == 0
  {
  }

  lemma OneStep(h: nat, t: nat)
    requires t < h
    ensures Steps(h, t) == 1 + Steps(NextHeight(h, t), t)
  {
    hide NextHeight;
  }

  lemma Near(n: nat, t: nat)
    requires t <= n <= t + 1
    ensures Steps(n, t) <= 1
  {
    hide NextHeight;
    NoSteps(t);
    if n > t {
      OneStep(n, t);
      assert NextHeight(n, t) == t;
    }
  }

  /** From an odd height the walk takes the skip pointer unless that leads below t. */
  lemma NextOdd(n: nat, t: nat)
    requires n > 0 && t < 2 * n + 1
    ensures NextHeight(2 * n + 1, t) == if GetSkipHeight(2 * n + 1) >= t then GetSkipHeight(2 * n + 1) else 2 * n
  {
    hide InvertLowestOne, GetSkipHeight;
    SkipOdd(n);
    SkipEven(n);
  }

  /** From an even height to the odd one before it, and on from there, if that skips further. */
  lemma BackAndOn(n: nat, t: nat)
    requires n > 1 && t <= GetSkipHeight(2 * n - 1) < GetSkipHeight(2 * n) - 2 && t < 2 * n - 1
    ensures Steps(2 * n, t) == 2 + Steps(GetSkipHeight(2 * n - 1), t)
  {
    hide GetSkipHeight, Steps;
    assert 2 * n - 1 == 2 * (n - 1) + 1;
    NextOdd(n - 1, t);
    OneStep(2 * n, t);
    OneStep(2 * n - 1, t);
  }

  // ---- Getting below the middle of a block

  /** The middle of an aligned block of size 2^(m+1), which the walk has to get below. */
  ghost predicate Middle(mid: nat, m: nat) {
    exists c: nat :: mid == (2 * c + 1) * Pow2(m)
  }

  lemma MiddleHalf(mid: nat, m: nat) returns (half: nat)
    requires Middle(mid, m) && m > 0
    ensures mid == 2 * half && half > 0
  {
    var c: nat :| mid == (2 * c + 1) * Pow2(m);
    half := (2 * c + 1) * Pow2(m - 1);
    Doubled(2 * c + 1, Pow2(m - 1));
    MulMono(1, 2 * c + 1, Pow2(m - 1));
  }

  lemma MiddleAbove(mid: nat, m: nat, r: nat)
    requires Middle(mid, m) && 0 < r < Pow2(m)
    ensures m > 0 && InvertLowestOne(mid + r) == mid + InvertLowestOne(r)
  {
    hide InvertLowestOne;
    var c: nat :| mid == (2 * c + 1) * Pow2(m);
    InvertAbove(2 * c + 1, m, r);
  }

  lemma {:induction false} MiddleInverted(c: nat, m: nat)
    ensures InvertLowestOne((2 * c + 1) * Pow2(m)) == (2 * c) * Pow2(m)
  {
    if m == 0 {
      InvertDouble(c);
    } else {
      MiddleInverted(c, m - 1);
      Doubled(2 * c + 1, Pow2(m - 1));
      Doubled(2 * c, Pow2(m - 1));
      InvertDouble((2 * c + 1) * Pow2(m - 1));
    }
  }

  /** The middle loses its own lowest one: that is the start of the block. */
  lemma Start(mid: nat, m: nat)
    requires Middle(mid, m)
    ensures mid >= Pow2(m) > 0 && InvertLowestOne(mid) == mid - Pow2(m)
  {
    hide InvertLowestOne;
    var c: nat :| mid == (2 * c + 1) * Pow2(m);
    MiddleInverted(c, m);
    OneMore(2 * c, Pow2(m));
  }

  lemma OneMore(c: nat, p: nat)
    ensures (c + 1) * p == c * p + p
  {
  }

  /** A target within the lower half of the block around mid, and a height mid + r within the upper half. */
  ghost predicate Above(mid: nat, m: nat, r: nat, t: nat) {
    Middle(mid, m) && r < Pow2(m) && mid - Pow2(m) <= t < mid
  }

  lemma Lower(mid: nat, m: nat, r: nat, r': nat, t: nat)
    requires Above(mid, m, r, t) && r' <= r
    ensures Above(mid, m, r', t) && t < mid
  {
  }

  /** The steps that are left below the middle, where the walk gets to the height before it or next to t. */
  function Left(mid: nat, t: nat): nat
    requires t < mid
  {
    Max(1, Steps(mid - 1, t))
  }

  function Max(a: nat, b: nat): nat { if a < b then b else a }

  /** From the middle itself. */
  lemma FromMiddle(mid: nat, m: nat, t: nat)
    requires Above(mid, m, 0, t)
    ensures Steps(mid, t) <= 1 + Left(mid, t)
  {
    hide InvertLowestOne, Middle, Pow2, Steps, GetSkipHeight;
    Start(mid, m);
    OneStep(mid, t);
    NoSteps(t);
    if m > 0 {
      var half := MiddleHalf(mid, m);
      SkipEven(half);
    } else {
      Pow2Zero();
      Near(mid - 1, t);
      assert NextHeight(mid, t) == mid - 1;
    }
  }

  /** From an even height with only one bit above the middle. */
  lemma FromBit(mid: nat, m: nat, v: nat, t: nat)
    requires Above(mid, m, 2 * v, t) && v > 0 && InvertLowestOne(v) == 0
    ensures Steps(mid + 2 * v, t) <= 2 + Left(mid, t)
  {
    hide InvertLowestOne, Middle, Pow2, Steps, GetSkipHeight;
    MiddleAbove(mid, m, 2 * v);
    InvertDouble(v);
    var half := MiddleHalf(mid, m);
    var n := half + v;
    SkipEven(n);
    OneStep(2 * n, t);
    FromMiddle(mid, m, t);
    if NextHeight(2 * n, t) != mid {
      BitBack(mid, m, v, half, t);
      BackAndOn(n, t);
      Near(GetSkipHeight(2 * n - 1), t);
    }
  }

  /** The skip height of the height before: if it is below the middle it is next to the start of the block. */
  lemma BitBack(mid: nat, m: nat, v: nat, half: nat, t: nat)
    requires Above(mid, m, 2 * v, t) && v > 0 && InvertLowestOne(v) == 0 && mid == 2 * half && half > 0
    requires t <= GetSkipHeight(mid + 2 * v - 1) < mid
    ensures GetSkipHeight(mid + 2 * v - 1) <= t + 1
  {
    hide InvertLowestOne, Middle, Pow2, GetSkipHeight;
    Start(mid, m);
    var n := half + v - 1;
    assert mid + 2 * v - 1 == 2 * n + 1;
    SkipOdd(n);
    if v == 2 {
      MiddleAbove(mid, m, 2);
      InvertFour(0);
    } else if v > 2 {
      var y := BitOfFour(v);
      NotBelow(y);
      MiddleAbove(mid, m, 8 * y - 2);
      MiddleAbove(mid, m, 8 * y - 4);
    }
  }

  lemma NotBelow(y: nat)
    requires y > 0
    ensures InvertLowestOne(8 * y - 2) == 8 * y - 4 && InvertLowestOne(8 * y - 4) == 8 * y - 8
  {
    hide InvertLowestOne;
    InvertFour(2 * y - 1);
    InvertEight(y - 1);
  }

  lemma BitOfFour(v: nat) returns (y: nat)
    requires v > 2 && InvertLowestOne(v) == 0
    ensures v == 4 * y && y > 0
  {
    var w := v / 2;
    y := w / 2;
    hide InvertLowestOne;
    InvertDouble(w);
    InvertDouble(y);
  }

  /** From an odd height with at most one other bit. */
  lemma FromOdd(mid: nat, m: nat, v: nat, t: nat)
    requires Above(mid, m, 2 * v + 1, t) && (v == 0 || InvertLowestOne(v) == 0)
    ensures Steps(mid + 2 * v + 1, t) <= (if v == 0 then 2 else 3) + Left(mid, t)
  {
    hide InvertLowestOne, Middle, Pow2, Steps, GetSkipHeight, NextHeight;
    MiddleAbove(mid, m, 2 * v + 1);
    Start(mid, m);
    InvertDouble(v);
    var half := MiddleHalf(mid, m);
    var n := half + v;
    SkipOdd(n);
    NextOdd(n, t);
    OneStep(2 * n + 1, t);
    if GetSkipHeight(2 * n + 1) >= t {
      if v > 0 { MiddleAbove(mid, m, 2 * v); }
      Near(GetSkipHeight(2 * n + 1), t);
    } else if v == 0 {
      FromMiddle(mid, m, t);
    } else {
      FromBit(mid, m, v, t);
    }
  }

  /** From an odd height with two ones to spare: both go in one step. */
  lemma OddOn(mid: nat, m: nat, v: nat, t: nat)
    requires Above(mid, m, 2 * v + 1, t) && v > 0 && InvertLowestOne(v) > 0
    ensures var v' := InvertLowestOne(InvertLowestOne(v));
      Steps(mid + 2 * v + 1, t) == 1 + Steps(mid + 2 * v' + 1, t) && v' < v && Ones(v') == Ones(v) - 2
  {
    hide InvertLowestOne, Middle, Pow2, Ones, GetSkipHeight, Steps, NextHeight;
    var w := InvertLowestOne(v);
    InvertDouble(v);
    InvertDouble(w);
    MiddleAbove(mid, m, 2 * v);
    MiddleAbove(mid, m, 2 * w);
    var half := MiddleHalf(mid, m);
    var n := half + v;
    SkipOdd(n);
    NextOdd(n, t);
    OneStep(2 * n + 1, t);
    OnesInverted(v);
    OnesInverted(w);
  }

  lemma {:induction false} OddCrossing(mid: nat, m: nat, v: nat, t: nat)
    requires Above(mid, m, 2 * v + 1, t)
    ensures t < mid && 2 * Steps(mid + 2 * v + 1, t) <= Ones(v) + 5 + 2 * Left(mid, t)
    decreases v
  {
    hide InvertLowestOne, Above, Steps, Left, Ones;
    Lower(mid, m, 2 * v + 1, 0, t);
    if v > 0 { OnesInverted(v); }
    if v == 0 || InvertLowestOne(v) == 0 {
      FromOdd(mid, m, v, t);
    } else {
      OddOn(mid, m, v, t);
      var v' := InvertLowestOne(InvertLowestOne(v));
      Lower(mid, m, 2 * v + 1, 2 * v' + 1, t);
      OddCrossing(mid, m, v', t);
    }
  }

  /** From a multiple of eight the walk removes one bit after the other. */
  lemma EightOn(mid: nat, m: nat, y: nat, t: nat)
    requires Above(mid, m, 8 * y, t) && y > 0
    ensures var y' := InvertLowestOne(y);
      Steps(mid + 8 * y, t) == 1 + Steps(mid + 8 * y', t) && y' < y && Ones(y') == Ones(y) - 1
  {
    hide InvertLowestOne, Middle, Pow2, Ones, GetSkipHeight, Steps;
    InvertEight(y);
    NotBelow(y);
    MiddleAbove(mid, m, 8 * y);
    MiddleAbove(mid, m, 8 * y - 2);
    MiddleAbove(mid, m, 8 * y - 4);
    var half := MiddleHalf(mid, m);
    var n := half + 4 * y;
    SkipEven(n);
    SkipOdd(n - 1);
    assert 2 * (n - 1) + 1 == 2 * n - 1;
    OneStep(2 * n, t);
    OnesInverted(y);
  }

  lemma {:induction false} EightCrossing(mid: nat, m: nat, y: nat, t: nat)
    requires Above(mid, m, 8 * y, t)
    ensures t < mid && Steps(mid + 8 * y, t) <= Ones(y) + 1 + Left(mid, t)
    decreases y
  {
    hide InvertLowestOne, Above, Steps, Left, Ones;
    Lower(mid, m, 8 * y, 0, t);
    if y == 0 {
      FromMiddle(mid, m, t);
    } else {
      EightOn(mid, m, y, t);
      var y' := InvertLowestOne(y);
      Lower(mid, m, 8 * y, 8 * y', t);
      EightCrossing(mid, m, y', t);
    }
  }

  /** From an odd multiple of four: two ones go in two steps. */
  lemma FourOn(mid: nat, m: nat, x: nat, t: nat)
    requires Above(mid, m, 8 * x + 4, t) && x > 0
    ensures var v := 4 * InvertLowestOne(x);
      Steps(mid + 8 * x + 4, t) == 2 + Steps(mid + 2 * v + 1, t) && v < 4 * x && Ones(v) == Ones(x) - 1
  {
    hide InvertLowestOne, Middle, Pow2, Ones, GetSkipHeight, Steps;
    InvertEight(x);
    InvertFour(2 * x);
    MiddleAbove(mid, m, 8 * x + 4);
    MiddleAbove(mid, m, 8 * x + 2);
    MiddleAbove(mid, m, 8 * x);
    var half := MiddleHalf(mid, m);
    var n := half + 4 * x + 2;
    SkipEven(n);
    SkipOdd(n - 1);
    assert 2 * (n - 1) + 1 == 2 * n - 1;
    BackAndOn(n, t);
    OnesInverted(x);
    OnesFour(InvertLowestOne(x));
  }

  lemma OnesFour(z: nat)
    ensures Ones(4 * z) == Ones(z)
  {
    hide Ones;
    OnesDouble(z);
    OnesDouble(2 * z);
  }

  lemma FourCrossing(mid: nat, m: nat, x: nat, t: nat)
    requires Above(mid, m, 8 * x + 4, t)
    ensures t < mid && 2 * Steps(mid + 8 * x + 4, t) <= Ones(x) + 8 + 2 * Left(mid, t)
  {
    hide InvertLowestOne, Above, Steps, Left, Ones;
    Lower(mid, m, 8 * x + 4, 4, t);
    if x == 0 {
      InvertFour(0);
      InvertDouble(1);
      FromBit(mid, m, 2, t);
    } else {
      FourOn(mid, m, x, t);
      var v := 4 * InvertLowestOne(x);
      Lower(mid, m, 8 * x + 4, 2 * v + 1, t);
      OddCrossing(mid, m, v, t);
    }
  }

  /** From an odd multiple of two with two ones to spare: three ones go in two steps. */
  lemma TwoOn(mid: nat, m: nat, z: nat, t: nat)
    requires Above(mid, m, 4 * z + 2, t) && z > 0 && InvertLowestOne(z) > 0
    ensures var v := 2 * InvertLowestOne(InvertLowestOne(z));
      Steps(mid + 4 * z + 2, t) == 2 + Steps(mid + 2 * v + 1, t) && v < 2 * z && Ones(v) == Ones(z) - 2
  {
    hide InvertLowestOne, Middle, Pow2, Ones, GetSkipHeight, Steps;
    var w := InvertLowestOne(z);
    InvertFour(z);
    InvertFour(w);
    MiddleAbove(mid, m, 4 * z + 2);
    MiddleAbove(mid, m, 4 * z);
    MiddleAbove(mid, m, 4 * w);
    var half := MiddleHalf(mid, m);
    var n := half + 2 * z + 1;
    SkipEven(n);
    SkipOdd(n - 1);
    assert 2 * (n - 1) + 1 == 2 * n - 1;
    BackAndOn(n, t);
    OnesInverted(z);
    OnesInverted(w);
    OnesDouble(InvertLowestOne(w));
  }

  /** From an odd multiple of two with one other bit. */
  lemma FromTwo(mid: nat, m: nat, z: nat, t: nat)
    requires Above(mid, m, 4 * z + 2, t) && z > 0 && InvertLowestOne(z) == 0
    ensures Steps(mid + 4 * z + 2, t) <= 3 + Left(mid, t)
  {
    hide InvertLowestOne, Middle, Pow2, GetSkipHeight, Steps;
    InvertFour(z);
    InvertDouble(z);
    Start(mid, m);
    MiddleAbove(mid, m, 4 * z + 2);
    MiddleAbove(mid, m, 4 * z);
    var half := MiddleHalf(mid, m);
    var n := half + 2 * z + 1;
    SkipEven(n);
    SkipOdd(n - 1);
    assert 2 * (n - 1) + 1 == 2 * n - 1;
    if GetSkipHeight(2 * n - 1) >= t {
      BackAndOn(n, t);
      Near(GetSkipHeight(2 * n - 1), t);
    } else {
      OneStep(2 * n, t);
      FromBit(mid, m, 2 * z, t);
    }
  }

  lemma TwoCrossing(mid: nat, m: nat, z: nat, t: nat)
    requires Above(mid, m, 4 * z + 2, t)
    ensures t < mid && 2 * Steps(mid + 4 * z + 2, t) <= Ones(z) + 7 + 2 * Left(mid, t)
  {
    hide InvertLowestOne, Above, Steps, Left, Ones;
    Lower(mid, m, 4 * z + 2, 2, t);
    if z == 0 {
      InvertDouble(0);
      FromBit(mid, m, 1, t);
    } else {
      OnesInverted(z);
      if InvertLowestOne(z) == 0 {
        FromTwo(mid, m, z, t);
      } else {
        TwoOn(mid, m, z, t);
        var v := 2 * InvertLowestOne(InvertLowestOne(z));
        Lower(mid, m, 4 * z + 2, 2 * v + 1, t);
        OddCrossing(mid, m, v, t);
      }
    }
  }

  /** Every number is of one of these forms. */
  lemma Forms(r: nat) returns (n: nat)
    ensures r == 2 * n + 1 || r == 4 * n + 2 || r == 8 * n + 4 || r == 8 * n
  {
    var n1 := Half(r);
    if r == 2 * n1 {
      var n2 := Half(n1);
      if n1 == 2 * n2 {
        n := Half(n2);
      } else {
        n := n2;
      }
    } else {
      n := n1;
    }
  }

  lemma Half(n: nat) returns (h: nat)
    ensures n == 2 * h || n == 2 * h + 1
  {
    h := n / 2;
  }

  /** Twice the most that crossing the middle of a block of size 2^(m+1) costs. */
  function CrossingBound(m: nat): nat { Max(m + 5, if m < 2 then 0 else 2 * m - 4) }

  /** Getting below the middle. */
  lemma Crossing(mid: nat, m: nat, r: nat, t: nat)
    requires Above(mid, m, r, t)
    ensures t < mid && 2 * Steps(mid + r, t) <= CrossingBound(m) + 2 * Left(mid, t)
  {
    hide Above, Steps, Left, Ones, Pow2;
    var n := Forms(r);
    InRange(mid, m, r, t);
    if r == 2 * n + 1 {
      OddCrossing(mid, m, n, t);
      OddRange(n, m);
    } else if r == 4 * n + 2 {
      TwoCrossing(mid, m, n, t);
      Halved(2 * n + 1, m);
      OddRange(n, m - 1);
    } else if r == 8 * n + 4 {
      FourCrossing(mid, m, n, t);
      Halved(4 * n + 2, m);
      Halved(2 * n + 1, m - 1);
      OddRange(n, m - 2);
    } else {
      EightCrossing(mid, m, n, t);
      if n == 0 {
        NoOnes();
      } else {
        Halved(4 * n, m);
        Halved(2 * n, m - 1);
        Halved(n, m - 2);
        OnesBound(n, m - 3);
      }
    }
  }

  lemma InRange(mid: nat, m: nat, r: nat, t: nat)
    requires Above(mid, m, r, t)
    ensures r < Pow2(m) && t < mid
  {
  }

  lemma NoOnes()
    ensures Ones(0) == 0
  {
  }

  lemma Halved(n: nat, m: nat)
    requires 2 * n < Pow2(m) && n > 0
    ensures m > 0 && n < Pow2(m - 1)
  {
  }

  lemma OddRange(n: nat, m: nat)
    requires 2 * n + 1 < Pow2(m)
    ensures m > 0 && Ones(n) <= m - 1
  {
    hide Ones;
    OnesBound(n, m - 1);
  }

  // ---- From the top of a block, and from anywhere in it

  ghost predicate Aligned(low: nat, m: nat) {
    exists c: nat :: low == c * Pow2(m)
  }

  lemma AlignedHalves(low: nat, m: nat)
    requires m > 0 && Aligned(low, m)
    ensures Pow2(m) == 2 * Pow2(m - 1) && Aligned(low, m - 1) && Middle(low + Pow2(m - 1), m - 1)
      && Aligned(low + Pow2(m - 1), m - 1)
  {
    var p := Pow2(m - 1);
    var c: nat :| low == c * Pow2(m);
    Halves(c, p);
    assert low == (2 * c) * Pow2(m - 1);
    assert low + p == (2 * c + 1) * Pow2(m - 1);
  }

  lemma Halves(c: nat, p: nat)
    ensures c * (2 * p) == (2 * c) * p && (2 * c) * p + p == (2 * c + 1) * p
  {
  }

  lemma InBlock(low: nat, m: nat, r: nat, t: nat)
    requires Middle(low + Pow2(m), m) && r < Pow2(m) && low <= t < low + Pow2(m)
    ensures Above(low + Pow2(m), m, r, t)
  {
  }

  /** The most steps from the last height of an aligned block of size 2^m to any other. */
  function TopBound(m: nat): nat {
    if m == 0 then 0 else if m < 3 then m else if m == 3 then 4 else TopBound(m - 1) + (m + 3) / 2
  }

  lemma {:induction false} AllOnes(m: nat)
    ensures Pow2(m) > 0 && Ones(Pow2(m) - 1) == m
  {
    hide Ones;
    if m == 0 {
      NoOnes();
    } else {
      AllOnes(m - 1);
      OnesDouble(Pow2(m - 1) - 1);
    }
  }

  lemma FromTopOfFour(low: nat, t: nat)
    requires Aligned(low, 2) && low <= t < low + 2
    ensures Steps(low + 3, t) <= 2
  {
    hide Steps, Aligned, Middle, GetSkipHeight, InvertLowestOne, NextHeight;
    AlignedHalves(low, 2);
    assert Pow2(1) == 2;
    var mid := low + 2;
    InBlock(low, 1, 1, t);
    Start(mid, 1);
    var half := MiddleHalf(mid, 1);
    SkipOdd(half);
    NextOdd(half, t);
    OneStep(2 * half + 1, t);
    if GetSkipHeight(2 * half + 1) >= t {
      Near(GetSkipHeight(2 * half + 1), t);
    } else {
      OneStep(mid, t);
      NoSteps(t);
      FourMiddle(low, half, t);
    }
  }

  lemma FourMiddle(low: nat, half: nat, t: nat)
    requires low + 2 == 2 * half && InvertLowestOne(2 * half) == low && low <= t < low + 2
    ensures NextHeight(low + 2, t) == t
  {
    hide GetSkipHeight, InvertLowestOne;
    SkipEven(half);
  }

  lemma FromTopOfEight(low: nat, t: nat)
    requires Aligned(low, 3) && low <= t < low + 4
    ensures Steps(low + 7, t) <= 4
  {
    hide Steps, Aligned, Middle, GetSkipHeight, InvertLowestOne, NextHeight;
    AlignedHalves(low, 3);
    assert Pow2(2) == 4;
    var mid := low + 4;
    InvertDouble(0);
    InBlock(low, 2, 3, t);
    if t >= low + 2 {
      FromOdd(mid, 2, 1, t);
      Near(mid - 1, t);
    } else {
      Start(mid, 2);
      MiddleAbove(mid, 2, 2);
      InvertFour(0);
      var half := MiddleHalf(mid, 2);
      SkipOdd(half + 1);
      NextOdd(half + 1, t);
      OneStep(low + 7, t);
      Near(low + 1, t);
    }
  }

  /** From the top of a block of at most eight heights to its lower half. */
  lemma FromSmallTop(low: nat, m: nat, t: nat)
    requires 1 <= m <= 3 && Aligned(low, m) && low <= t < low + Pow2(m - 1)
    ensures Steps(low + Pow2(m) - 1, t) <= TopBound(m)
  {
    hide Steps, Aligned;
    if m == 1 {
      Near(low + 1, t);
    } else if m == 2 {
      FromTopOfFour(low, t);
    } else {
      FromTopOfEight(low, t);
    }
  }

  lemma {:induction false} FromTop(low: nat, m: nat, t: nat)
    requires Aligned(low, m) && low <= t < low + Pow2(m)
    ensures Steps(low + Pow2(m) - 1, t) <= TopBound(m)
    decreases m
  {
    hide Steps, Aligned, Middle, Ones, Above, Pow2;
    if m == 0 {
      Pow2Zero();
      NoSteps(t);
    } else {
      AlignedHalves(low, m);
      var mid := low + Pow2(m - 1);
      if t >= mid {
        FromTop(mid, m - 1, t);
      } else if m <= 3 {
        FromSmallTop(low, m, t);
      } else {
        TopCrossing(low, m, t);
        FromTop(low, m - 1, t);
      }
    }
  }

  lemma TopCrossing(low: nat, m: nat, t: nat)
    requires m > 3 && Aligned(low, m) && low <= t < low + Pow2(m - 1)
    ensures 2 * Steps(low + Pow2(m) - 1, t) <= m + 3 + 2 * Left(low + Pow2(m - 1), t)
  {
    hide Steps, Aligned, Middle, Ones, Above, Left;
    AlignedHalves(low, m);
    var p := Pow2(m - 2);
    AllOnes(m - 2);
    assert Pow2(m - 1) == 2 * p;
    hide Pow2;
    InBlock(low, m - 1, 2 * (p - 1) + 1, t);
    OddCrossing(low + Pow2(m - 1), m - 1, p - 1, t);
  }

  /** The most steps between any two heights of an aligned block of size 2^m. */
  function StepBound(m: nat): nat {
    if m == 0 then 0 else CrossingBound(m - 1) / 2 + Max(1, TopBound(m - 1))
  }

  lemma BoundGrows(m: nat)
    requires m > 0
    ensures StepBound(m - 1) <= StepBound(m)
  {
  }

  /** Within an aligned block the walk takes at most that many steps. */
  lemma {:induction false} StepsWithin(low: nat, m: nat, h: nat, t: nat)
    requires Aligned(low, m) && low <= t <= h < low + Pow2(m)
    ensures Steps(h, t) <= StepBound(m)
    decreases m
  {
    hide Steps, Aligned, Middle, Above, Pow2, CrossingBound, TopBound;
    if m == 0 {
      Pow2Zero();
      NoSteps(t);
    } else {
      AlignedHalves(low, m);
      BoundGrows(m);
      var mid := low + Pow2(m - 1);
      if h < mid {
        StepsWithin(low, m - 1, h, t);
      } else if t >= mid {
        StepsWithin(mid, m - 1, h, t);
      } else {
        InBlock(low, m - 1, h - mid, t);
        Crossing(mid, m - 1, h - mid, t);
        FromTop(low, m - 1, t);
      }
    }
  }

  /** From a block below height 2^k any ancestor is found in at most that many steps. */
  lemma FewSteps(k: nat, h: nat, t: nat)
    requires t <= h < Pow2(k)
    ensures Steps(h, t) <= StepBound(k)
  {
    assert 0 == 0 * Pow2(k);
    StepsWithin(0, k, h, t);
  }

  lemma {:induction false} TopBoundIs(m: nat)
    requires m >= 3
    ensures 4 * TopBound(m) + 11 + (m + 1) % 2 == m * m + 6 * m
  {
    if m > 3 {
      TopBoundIs(m - 1);
      TopBoundNext(m, m * m, (m - 1) * (m - 1));
    }
  }

  lemma TopBoundNext(m: nat, square: nat, before: nat)
    requires m > 3 && square == before + 2 * m - 1
    requires 4 * TopBound(m - 1) + 11 + m % 2 == before + 6 * (m - 1)
    ensures 4 * TopBound(m) + 11 + (m + 1) % 2 == square + 6 * m
  {
    assert TopBound(m) == TopBound(m - 1) + (m + 3) / 2;
  }

  lemma StepBoundExact(k: nat)
    requires k >= 10
    ensures 4 * StepBound(k) + 28 + k % 2 == k * k + 8 * k
  {
    hide TopBound;
    TopBoundIs(k - 1);
    assert k * k == (k - 1) * (k - 1) + 2 * k - 1;
  }

  /** The bound is a quarter of k^2 + 8 k - 28; for the 2^18 blocks that the source names it is 110. */
  lemma StepBoundIs(k: nat)
    requires k >= 10
    ensures StepBound(k) == (k * k + 8 * k - 28) / 4 && StepBound(18) == 110
  {
    hide StepBound;
    StepBoundExact(k);
    StepBoundExact(18);
  }

  // ---- The bound is reached, on the way to height 2

  lemma PowerMiddle(m: nat)
    ensures Middle(Pow2(m), m) && InvertLowestOne(Pow2(m)) == 0
  {
    assert Pow2(m) == (2 * 0 + 1) * Pow2(m);
    Start(Pow2(m), m);
  }

  lemma ReachesMiddle(m: nat)
    requires m >= 2
    ensures Pow2(m) >= 4 && Steps(Pow2(m), 2) == 1 + Steps(Pow2(m) - 1, 2)
  {
    hide Pow2;
    Pow2Next(m);
    Pow2Next(m - 1);
    Pow2Positive(m - 2);
    PowerMiddle(m);
    hide Steps, Middle, InvertLowestOne, GetSkipHeight;
    var half := MiddleHalf(Pow2(m), m);
    SkipEven(half);
    OneStep(Pow2(m), 2);
  }

  lemma ReachesBit(m: nat, v: nat)
    requires m >= 2 && 0 < 2 * v < Pow2(m) && InvertLowestOne(v) == 0
    ensures Pow2(m) >= 4 && Steps(Pow2(m) + 2 * v, 2) == 2 + Steps(Pow2(m) - 1, 2)
  {
    hide Steps, Pow2, Middle, InvertLowestOne, GetSkipHeight;
    var mid := Pow2(m);
    ReachesMiddle(m);
    PowerMiddle(m);
    MiddleAbove(mid, m, 2 * v);
    InvertDouble(v);
    var half := MiddleHalf(mid, m);
    SkipEven(half + v);
    OneStep(mid + 2 * v, 2);
    if 2 <= GetSkipHeight(mid + 2 * v - 1) < mid {
      BitBack(mid, m, v, half, 0);
    }
  }

  lemma {:induction false} ReachesOdd(m: nat, v: nat)
    requires m >= 2 && 2 * v + 1 < Pow2(m)
    ensures Pow2(m) >= 4 && Steps(Pow2(m) + 2 * v + 1, 2) == (Ones(v) + 5) / 2 + Steps(Pow2(m) - 1, 2)
    decreases v
  {
    hide Steps, Pow2, Middle, InvertLowestOne, GetSkipHeight, NextHeight, Ones;
    var mid := Pow2(m);
    ReachesMiddle(m);
    PowerMiddle(m);
    if v > 0 && InvertLowestOne(v) > 0 {
      OddOn(mid, m, v, 2);
      ReachesOdd(m, InvertLowestOne(InvertLowestOne(v)));
    } else {
      var half := MiddleHalf(mid, m);
      SkipOdd(half + v);
      NextOdd(half + v, 2);
      OneStep(mid + 2 * v + 1, 2);
      InvertDouble(v);
      InvertDouble(0);
      if v == 0 {
        NoOnes();
      } else {
        MiddleAbove(mid, m, 2 * v);
        ReachesBit(m, v);
        OnesInverted(v);
        NoOnes();
      }
    }
  }

  lemma {:induction false} ReachesTop(m: nat)
    requires m >= 3
    ensures Pow2(m) >= 8 && Steps(Pow2(m) - 1, 2) == TopBound(m)
  {
    hide Steps, Pow2, Ones, TopBound;
    TopBoundStep(m);
    if m == 3 {
      EightIs();
      FromSeven();
    } else {
      var q := Pow2(m - 2);
      Pow2Next(m);
      Pow2Next(m - 1);
      AllOnes(m - 2);
      ReachesTop(m - 1);
      ReachesOdd(m - 1, q - 1);
    }
  }

  lemma TopBoundStep(m: nat)
    requires m >= 3
    ensures TopBound(m) == if m == 3 then 4 else TopBound(m - 1) + (m + 3) / 2
  {
  }

  lemma EightIs()
    ensures Pow2(3) == 8
  {
  }

  lemma FromSeven()
    ensures Steps(7, 2) == 4
  {
    assert GetSkipHeight(7) == 1 && GetSkipHeight(6) == 4 && GetSkipHeight(5) == 1 && GetSkipHeight(4) == 0
      && GetSkipHeight(3) == 1 && GetSkipHeight(2) == 0;
    hide GetSkipHeight;
    assert NextHeight(7, 2) == 6 && NextHeight(6, 2) == 4 && NextHeight(4, 2) == 3 && NextHeight(3, 2) == 2;
    OneStep(7, 2);
    OneStep(6, 2);
    OneStep(4, 2);
    OneStep(3, 2);
    NoSteps(2);
  }

  lemma {:induction false} ReachesEight(m: nat, y: nat)
    requires m >= 2 && 8 * y < Pow2(m)
    ensures Pow2(m) >= 4 && Steps(Pow2(m) + 8 * y, 2) == Ones(y) + 1 + Steps(Pow2(m) - 1, 2)
    decreases y
  {
    hide Steps, Pow2, Middle, InvertLowestOne, Ones;
    ReachesMiddle(m);
    PowerMiddle(m);
    if y == 0 {
      NoOnes();
    } else {
      EightOn(Pow2(m), m, y, 2);
      ReachesEight(m, InvertLowestOne(y));
    }
  }

  /** From 2^k - 8 to 2 it takes as many steps as the bound allows. */
  lemma StepBoundReached(k: nat)
    requires k >= 10
    ensures Pow2(k) >= 10 && Steps(Pow2(k) - 8, 2) == StepBound(k)
  {
    hide Steps, Pow2, Ones, TopBound, CrossingBound;
    var q := Pow2(k - 4);
    Pow2Next(k);
    Pow2Next(k - 1);
    Pow2Next(k - 2);
    Pow2Next(k - 3);
    AllOnes(k - 4);
    ReachesTop(k - 1);
    ReachesEight(k - 1, q - 1);
    LargeCrossing(k - 1);
  }

  lemma LargeCrossing(m: nat)
    requires m >= 9
    ensures CrossingBound(m) / 2 == m - 2 && TopBound(m) >= 1
  {
  }

  // ---------------------------------------------------------------------------------------------
  // Blocks
  // ---------------------------------------------------------------------------------------------

  class BlockIndex {
    const pprev: BlockIndex?
    const nHeight: nat
    const hash: nat
    var pskip: BlockIndex?
    /** The block and its ancestors, by height. */
    ghost const chain: seq<BlockIndex>

    /** The previous blocks lead down to height 0, one height at a time. */
    ghost predicate InTree() {
      && |chain| == nHeight + 1
      && (forall i | 0 <= i <= nHeight :: chain[i].nHeight == i && chain[i].chain == chain[..i+1])
      && (forall i | 0 < i <= nHeight :: chain[i].pprev == chain[i-1])
      && chain[0].pprev == null && chain[nHeight] == this
    }

    /** Every skip pointer of the chain that has been built leads to the ancestor at the skip height. */
    ghost predicate SkipsOk()
      reads chain
    {
      forall i | 0 <= i < |chain| :: chain[i].pskip == null || (i > 0 && chain[i].pskip == chain[GetSkipHeight(i)])
    }

    /** All of them have been built; the block at height 0 has none. */
    ghost predicate SkipsBuilt()
      reads chain
    {
      SkipsOk() && forall i | 0 < i < |chain| :: chain[i].pskip != null
    }

    constructor (pprev: BlockIndex?, hash: nat)
      requires pprev != null ==> pprev.InTree()
      ensures InTree() && this.pprev == pprev && this.hash == hash && pskip == null && fresh(this)
      ensures pprev == null ==> chain == [this]
      ensures pprev != null ==> chain == pprev.chain + [this] && nHeight == pprev.nHeight + 1
    {
      this.pprev := pprev;
      this.hash := hash;
      nHeight := if pprev == null then 0 else pprev.nHeight + 1;
      chain := (if pprev == null then [] else pprev.chain) + [this];
      pskip := null;
      new;
      if pprev != null {
        ghost var n := pprev.nHeight;
        forall i | 0 <= i <= nHeight ensures chain[i].nHeight == i && chain[i].chain == chain[..i+1] {
          if i <= n {
            assert chain[i] == pprev.chain[i] && pprev.chain[..i+1] == chain[..i+1];
          } else {
            assert chain[..i+1] == chain;
          }
        }
        forall i | 0 < i <= nHeight ensures chain[i].pprev == chain[i-1] {
          assert i <= n ==> chain[i] == pprev.chain[i];
        }
      } else {
        assert chain[..1] == chain;
      }
    }

    /** The ancestor at a height, by way of whatever skip pointers there are; steps counts the blocks visited. */
    method GetAncestor(height: int) returns (r: BlockIndex?, ghost steps: nat)
      requires InTree() && SkipsOk()
      ensures r == if 0 <= height <= nHeight then chain[height] else null
      ensures 0 <= height <= nHeight && SkipsBuilt() ==> steps == Steps(nHeight, height)
    {
      hide GetSkipHeight, InvertLowestOne;
      steps := 0;
      if height > nHeight || height < 0 {
        return null, steps;
      }
      var pindexWalk: BlockIndex := this;
      var heightWalk := nHeight;
      while heightWalk > height
        invariant height <= heightWalk <= nHeight && pindexWalk == chain[heightWalk]
        invariant SkipsBuilt() ==> steps + Steps(heightWalk, height) == Steps(nHeight, height)
      {
        steps := steps + 1;
        var heightSkip := GetSkipHeight(heightWalk);
        var heightSkipPrev := GetSkipHeight(heightWalk - 1);
        if pindexWalk.pskip != null &&
           (heightSkip == height
             || (heightSkip > height && !(heightSkipPrev < heightSkip - 2 && heightSkipPrev >= height)))
        {
          pindexWalk := pindexWalk.pskip;
          heightWalk := heightSkip;
        } else {
          pindexWalk := pindexWalk.pprev;
          heightWalk := heightWalk - 1;
        }
      }
      return pindexWalk, steps;
    }

    method BuildSkip()
      requires InTree() && SkipsOk()
      modifies this`pskip
      ensures SkipsOk() && pskip == if nHeight > 0 then chain[GetSkipHeight(nHeight)] else old(pskip)
    {
      assert nHeight > 0 ==> chain[nHeight].pprev == chain[nHeight-1];
      if pprev != null {
        ParentChain(this);
        var skip, _ := pprev.GetAncestor(GetSkipHeight(nHeight));
        OthersBelow(this);
        hide InTree, GetSkipHeight;
        ghost var n := nHeight;
        assert forall i | 0 <= i < n ::
          old(chain[i].pskip) == null || (i > 0 && old(chain[i].pskip) == chain[GetSkipHeight(i)]);
        pskip := skip;
        assert forall i | 0 <= i < n :: chain[i].pskip == old(chain[i].pskip);
      }
    }
  }

  lemma OthersBelow(b: BlockIndex)
    requires b.InTree()
    ensures |b.chain| == b.nHeight + 1 && b.chain[b.nHeight] == b && forall i | 0 <= i < b.nHeight :: b.chain[i] != b
  {
  }

  lemma ParentChain(b: BlockIndex)
    requires b.InTree() && b.nHeight > 0
    ensures b.pprev != null && b.pprev.InTree() && b.pprev.chain == b.chain[..b.nHeight]
      && b.pprev.nHeight == b.nHeight - 1
    ensures b.SkipsOk() ==> b.pprev.SkipsOk()
  {
    var p := b.chain[b.nHeight-1];
    assert b.chain[b.nHeight].pprev == p;
    assert p.chain == b.chain[..b.nHeight];
    forall i | 0 <= i <= p.nHeight ensures p.chain[i].nHeight == i && p.chain[i].chain == p.chain[..i+1] {
      assert p.chain[..i+1] == b.chain[..i+1];
    }
  }

  /** A tree whose blocks have BuildSkip called when they are added has all its skip pointers. */
  lemma BuiltFromParent(b: BlockIndex)
    requires b.InTree() && b.SkipsOk() && b.nHeight > 0 && b.pskip != null && b.pprev != null && b.pprev.SkipsBuilt()
    ensures b.SkipsBuilt()
  {
    hide GetSkipHeight, BlockIndex.SkipsOk;
    ParentChain(b);
    assert |b.chain| == b.nHeight + 1 && b.chain[b.nHeight] == b;
    hide BlockIndex.InTree;
    forall i | 0 < i < |b.chain| ensures b.chain[i].pskip != null {
      assert i < b.nHeight ==> b.chain[i] == b.pprev.chain[i];
    }
  }

  /** n steps of pprev; null below the lowest block. */
  ghost function Walk(b: BlockIndex?, n: nat): BlockIndex? {
    if n == 0 || b == null then b else Walk(b.pprev, n - 1)
  }

  /** GetAncestor's result is that of walking the previous blocks. */
  lemma {:induction false} WalkIsChain(b: BlockIndex, n: nat)
    requires b.InTree()
    ensures Walk(b, n) == if n <= b.nHeight then b.chain[b.nHeight-n] else null
    decreases n
  {
    if n > 0 {
      if b.nHeight > 0 {
        ParentChain(b);
        WalkIsChain(b.pprev, n - 1);
      } else {
        assert b == b.chain[0];
      }
    }
  }

  /** Blocks of equal height have skip pointers to equal height. */
  lemma EqualHeightSkips(a: BlockIndex, b: BlockIndex)
    requires a.InTree() && b.InTree() && a.SkipsBuilt() && b.SkipsBuilt() && a.nHeight == b.nHeight > 0
    ensures a.pskip != null && b.pskip != null && a.pskip.nHeight == b.pskip.nHeight < a.nHeight
    ensures a.pskip == a.chain[GetSkipHeight(a.nHeight)] && b.pskip == b.chain[GetSkipHeight(b.nHeight)]
  {
    assert a.chain[a.nHeight].pskip != null && b.chain[b.nHeight].pskip != null;
  }

  /** An ancestor is itself in the tree, with the chain below it. */
  lemma AncestorInTree(b: BlockIndex, h: nat)
    requires b.InTree() && h <= b.nHeight
    ensures var a := b.chain[h]; a.InTree() && a.nHeight == h && a.chain == b.chain[..h+1]
    ensures b.SkipsBuilt() ==> b.chain[h].SkipsBuilt()
  {
    var a := b.chain[h];
    assert a.chain == b.chain[..h+1];
    forall i | 0 <= i <= h ensures a.chain[i].nHeight == i && a.chain[i].chain == a.chain[..i+1] {
      assert a.chain[..i+1] == b.chain[..i+1];
    }
  }

  /** k is the greatest height at which the chains agree. */
  ghost predicate ForksAt(a: seq<BlockIndex?>, b: seq<BlockIndex?>, k: nat) {
    && k < |a| && k < |b| && a[k] == b[k]
    && forall j | k < j < |a| && j < |b| :: a[j] != b[j]
  }

  /** Chains that agree at a height agree below it. */
  lemma AgreeBelow(a: BlockIndex, b: BlockIndex, i: nat, j: nat)
    requires a.InTree() && b.InTree() && i <= j <= a.nHeight && j <= b.nHeight && a.chain[j] == b.chain[j]
    ensures a.chain[i] == b.chain[i]
  {
    assert a.chain[..j+1] == a.chain[j].chain == b.chain[..j+1];
    assert a.chain[..j+1][i] == b.chain[..j+1][i];
  }

  /** pa and pb are the ancestors of the two blocks at one height. */
  ghost predicate Both(a: BlockIndex, b: BlockIndex, pa: BlockIndex, pb: BlockIndex, h: nat) {
    h < |a.chain| && h < |b.chain| && pa == a.chain[h] && pb == b.chain[h]
  }

  method LastCommonAncestor(a: BlockIndex, b: BlockIndex) returns (r: BlockIndex)
    requires a.InTree() && b.InTree() && a.SkipsBuilt() && b.SkipsBuilt() && a.chain[0] == b.chain[0]
    ensures r.nHeight < |a.chain| && ForksAt(a.chain, b.chain, r.nHeight) && r == a.chain[r.nHeight]
  {
    var pa: BlockIndex, pb: BlockIndex := a, b;
    if pa.nHeight > pb.nHeight {
      var ancestor, _ := pa.GetAncestor(pb.nHeight);
      pa := ancestor;
    } else if pb.nHeight > pa.nHeight {
      var ancestor, _ := pb.GetAncestor(pa.nHeight);
      pb := ancestor;
    }
    ghost var h: nat := pa.nHeight;
    while pa != pb
      invariant Both(a, b, pa, pb, h)
      invariant forall j | h < j < |a.chain| && j < |b.chain| :: a.chain[j] != b.chain[j]
      decreases h
    {
      assert h > 0;
      PairFacts(a, b, pa, pb, h);
      while pa.pskip != pb.pskip
        invariant Both(a, b, pa, pb, h) && pa != pb && h > 0 && pa.pskip != null && pb.pskip != null
        invariant pa.pskip == a.chain[GetSkipHeight(h)] && pb.pskip == b.chain[GetSkipHeight(h)]
        decreases h
      {
        pa := pa.pskip;
        pb := pb.pskip;
        h := GetSkipHeight(h);
        assert h > 0;
        PairFacts(a, b, pa, pb, h);
      }
      assert a.chain[h].pprev == a.chain[h-1] && b.chain[h].pprev == b.chain[h-1];
      DifferAbove(a, b, h);
      pa := pa.pprev;
      pb := pb.pprev;
      h := h - 1;
    }
    return pa;
  }

  lemma PairFacts(a: BlockIndex, b: BlockIndex, pa: BlockIndex, pb: BlockIndex, h: nat)
    requires a.InTree() && b.InTree() && a.SkipsBuilt() && b.SkipsBuilt() && Both(a, b, pa, pb, h) && h > 0
    ensures pa.pskip != null && pb.pskip != null && pa.pskip == a.chain[GetSkipHeight(h)]
      && pb.pskip == b.chain[GetSkipHeight(h)]
  {
    AncestorInTree(a, h);
    AncestorInTree(b, h);
    EqualHeightSkips(pa, pb);
  }

  /** Chains that differ at a height differ above it. */
  lemma DifferAbove(a: BlockIndex, b: BlockIndex, h: nat)
    requires a.InTree() && b.InTree() && h < |a.chain| && h < |b.chain| && a.chain[h] != b.chain[h]
    ensures forall j | h <= j < |a.chain| && j < |b.chain| :: a.chain[j] != b.chain[j]
  {
    forall j | h <= j < |a.chain| && j < |b.chain| ensures a.chain[j] != b.chain[j] {
      if a.chain[j] == b.chain[j] {
        AgreeBelow(a, b, h, j);
      }
    }
  }

  // ---------------------------------------------------------------------------------------------
  // Locators
  // ---------------------------------------------------------------------------------------------

  /** How far back from the block the i-th entry of a locator is: single steps first, doubling later. */
  function StepsBack(i: nat): nat {
    if i <= 11 then i else StepsBack(i - 1) + Pow2(i - 11)
  }

  function Back(height: nat, i: nat): nat {
    if StepsBack(i) < height then height - StepsBack(i) else 0
  }

  lemma {:induction false} StepsBackGrows(i: nat)
    requires i >= 11
    ensures StepsBack(i) == 9 + Pow2(i - 10)
  {
    if i > 11 {
      StepsBackGrows(i - 1);
    } else {
      assert Pow2(1) == 2 * Pow2(0);
    }
  }

  /** Every entry is the hash of the ancestor at its distance back; the last is that of the lowest block, and there are
      only logarithmically many. */
  method LocatorEntries(index: BlockIndex?) returns (have: seq<nat>)
    requires index != null ==> index.InTree() && index.SkipsOk()
    ensures index == null ==> have == []
    ensures index != null ==> have != [] && Back(index.nHeight, |have| - 1) == 0
    ensures index != null ==> forall i | 0 <= i < |have| :: have[i] == index.chain[Back(index.nHeight, i)].hash
    ensures index != null ==> forall i | 0 <= i < |have| - 1 :: Back(index.nHeight, i) > 0
  {
    hide BlockIndex.InTree, BlockIndex.SkipsOk, BlockIndex.SkipsBuilt, Steps, Pow2;
    var step := 1;
    have := [];
    if index == null {
      return;
    }
    TreeTop(index);
    FirstStep();
    var block: BlockIndex := index;
    while true
      invariant block == index.chain[Back(index.nHeight, |have|)]
      invariant step == StepsBack(|have| + 1) - StepsBack(|have|) && step > 0
      invariant forall i | 0 <= i < |have| ::
        have[i] == index.chain[Back(index.nHeight, i)].hash && Back(index.nHeight, i) > 0
      decreases block.nHeight
    {
      AncestorSkips(index, Back(index.nHeight, |have|));
      have := have + [block.hash];
      if block.nHeight == 0 {
        break;
      }
      var height := if block.nHeight - step > 0 then block.nHeight - step else 0;
      var ancestor, _ := block.GetAncestor(height);
      block := ancestor;
      if |have| > 10 {
        NextStep(|have|);
        step := step * 2;
      }
    }
  }

  lemma TreeTop(b: BlockIndex)
    requires b.InTree()
    ensures |b.chain| == b.nHeight + 1 && b.chain[b.nHeight] == b
  {
  }

  lemma FirstStep()
    ensures StepsBack(0) == 0 && StepsBack(1) == 1
  {
  }

  lemma NextStep(n: nat)
    requires n > 10
    ensures StepsBack(n + 1) - StepsBack(n) == 2 * (StepsBack(n) - StepsBack(n - 1))
  {
    if n > 11 {
      assert Pow2(n - 10) == 2 * Pow2(n - 11);
    } else {
      assert StepsBack(12) == StepsBack(11) + Pow2(1) && Pow2(1) == 2 * Pow2(0);
    }
  }

  lemma AncestorSkips(b: BlockIndex, h: nat)
    requires b.InTree() && h <= b.nHeight && b.SkipsOk()
    ensures var a := b.chain[h]; a.InTree() && a.nHeight == h && a.chain == b.chain[..h+1] && a.SkipsOk()
  {
    AncestorInTree(b, h);
  }

  /** A locator of a block below height 2^k has at most k + 12 entries. */
  lemma LocatorLength(height: nat, k: nat, n: nat)
    requires height < Pow2(k) && n > 1 && Back(height, n - 2) > 0
    ensures n <= k + 12
  {
    if n > k + 12 {
      StepsBackGrows(n - 2);
      Pow2Grows(k, n - 12);
    }
  }

  // ---------------------------------------------------------------------------------------------
  // Chains
  // ---------------------------------------------------------------------------------------------

  class Chain {
    var vChain: seq<BlockIndex?>

    /** Empty, or the chain of a block. */
    ghost predicate Valid()
      reads this
    {
      vChain == [] || (var tip := vChain[|vChain|-1]; tip != null && tip.InTree() && vChain == tip.chain)
    }

    constructor ()
      ensures Valid() && vChain == []
    {
      vChain := [];
    }

    function Height(): int
      reads this
    {
      |vChain| - 1
    }

    predicate Contains(block: BlockIndex)
      reads this
    {
      block.nHeight < |vChain| && vChain[block.nHeight] == block
    }

    /** The chain becomes that of the block, though only the part that differs is written. */
    method SetTip(block: BlockIndex)
      requires Valid() && block.InTree()
      modifies this
      ensures Valid() && vChain == block.chain
    {
      ghost var was := vChain;
      ghost var n := block.nHeight;
      var pindex: BlockIndex? := block;
      vChain := if |vChain| > block.nHeight then vChain[..block.nHeight+1]
        else vChain + seq(block.nHeight + 1 - |vChain|, _ => null);
      ghost var h: int := n;
      while pindex != null && vChain[pindex.nHeight] != pindex
        invariant -1 <= h <= n && |vChain| == n + 1
        invariant pindex == if h >= 0 then block.chain[h] else null
        invariant forall i | h < i <= n :: vChain[i] == block.chain[i]
        invariant forall i | 0 <= i <= h :: vChain[i] == if i < |was| then was[i] else null
        decreases h
      {
        vChain := vChain[pindex.nHeight := pindex];
        pindex := pindex.pprev;
        h := h - 1;
        assert h >= 0 ==> block.chain[h+1].pprev == block.chain[h];
      }
      if h >= 0 {
        var tip := was[|was|-1];
        assert was[h] == block.chain[h];
        forall i | 0 <= i <= h ensures vChain[i] == block.chain[i] {
          AgreeBelow(tip, block, i, h);
        }
      }
      assert vChain == block.chain;
    }

    /** The last block that the chain shares with the block's own; null if they share none, or without a block. */
    method FindFork(block: BlockIndex?) returns (r: BlockIndex?)
      requires Valid() && (block != null ==> block.InTree() && block.SkipsOk())
      ensures block == null ==> r == null
      ensures block != null && r != null ==>
        r.nHeight < |block.chain| && ForksAt(vChain, block.chain, r.nHeight) && r == block.chain[r.nHeight]
      ensures block != null && r == null ==>
        forall j | 0 <= j < |vChain| && j < |block.chain| :: vChain[j] != block.chain[j]
    {
      if block == null {
        return null;
      }
      var pindex: BlockIndex? := block;
      if block.nHeight > Height() {
        var ancestor, _ := block.GetAncestor(Height());
        pindex := ancestor;
      }
      ghost var h: int := if pindex == null then -1 else pindex.nHeight;
      while pindex != null && !Contains(pindex)
        invariant -1 <= h < |block.chain| && h < |vChain| && pindex == if h >= 0 then block.chain[h] else null
        invariant forall j | h < j < |vChain| && j < |block.chain| :: vChain[j] != block.chain[j]
        decreases h
      {
        assert h > 0 ==> block.chain[h].pprev == block.chain[h-1];
        pindex := pindex.pprev;
        h := h - 1;
      }
      return pindex;
    }
  }
}

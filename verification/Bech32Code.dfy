/** What the Bech32 checksum detects (src/bech32.cpp): up to three errors within a window of 1023 symbols. The generator
    has three consecutive powers of an element e of order 1023 of GF(1024) among its roots. */
module Bech32Codes {
  import opened Bech32s
  import opened Bech32Fields
  import opened Options

  // ---------------------------------------------------------------------------------------------
  // GF(1024)
  // ---------------------------------------------------------------------------------------------

  function Add(a: bv10, b: bv10): bv10 { a ^ b }

  /** Multiplication by e in GF(2)[e] modulo e^10 + e^9 + e^5 + e^2 + 1: bit i is the coefficient of e^i. */
  function Next(x: bv10): bv10 { Add(x << 1, Pick(x & 512, 0x225)) }

  function Pick(bit: bv10, x: bv10): bv10 { if bit != 0 then x else 0 }

  /** Multiplication by e^k. */
  function Power(k: nat, x: bv10): bv10 { if k == 0 then x else Next(Power(k - 1, x)) }

  /** The sum of the terms picked by the bits of x. */
  function Picked(x: bv10, y0: bv10, y1: bv10, y2: bv10, y3: bv10, y4: bv10, y5: bv10, y6: bv10, y7: bv10, y8: bv10,
                  y9: bv10): bv10 {
    Add(Add(Add(Add(Add(Add(Add(Add(Add(Pick(x & 1, y0), Pick(x & 2, y1)), Pick(x & 4, y2)),
      Pick(x & 8, y3)), Pick(x & 16, y4)), Pick(x & 32, y5)), Pick(x & 64, y6)),
      Pick(x & 128, y7)), Pick(x & 256, y8)), Pick(x & 512, y9))
  }

  /** Multiplication: the sum of e^i y over the bits i of x. */
  function Mul(x: bv10, y: bv10): bv10 {
    var y1 := Next(y);
    var y2 := Next(y1);
    var y3 := Next(y2);
    var y4 := Next(y3);
    var y5 := Next(y4);
    var y6 := Next(y5);
    var y7 := Next(y6);
    var y8 := Next(y7);
    Picked(x, y, y1, y2, y3, y4, y5, y6, y7, y8, Next(y8))
  }

  lemma AddZero(x: bv10)
    ensures Add(x, 0) == x && Add(0, x) == x && Add(x, x) == 0
  {
  }

  lemma AddEqual(x: bv10, y: bv10)
    ensures Add(x, y) == 0 <==> x == y
  {
  }

  lemma AddSwap(a: bv10, b: bv10, c: bv10, d: bv10)
    ensures Add(Add(a, b), Add(c, d)) == Add(Add(a, c), Add(b, d))
  {
    hide Add;
    AddAssoc(a, b, Add(c, d));
    AddAssoc(b, c, d);
    AddComm(b, c);
    AddAssoc(c, b, d);
    AddAssoc(a, c, Add(b, d));
  }

  lemma AddAssoc(a: bv10, b: bv10, c: bv10)
    ensures Add(Add(a, b), c) == Add(a, Add(b, c))
  {
  }

  lemma AddComm(a: bv10, b: bv10)
    ensures Add(a, b) == Add(b, a)
  {
  }

  lemma ShiftAdd(x: bv10, y: bv10)
    ensures Add(x, y) << 1 == Add(x << 1, y << 1)
  {
  }

  lemma TopAdd(x: bv10, y: bv10)
    ensures Pick(Add(x, y) & 512, 0x225) == Add(Pick(x & 512, 0x225), Pick(y & 512, 0x225))
  {
  }

  lemma NextAdd(x: bv10, y: bv10)
    ensures Next(Add(x, y)) == Add(Next(x), Next(y))
  {
    hide Add, Pick;
    ShiftAdd(x, y);
    TopAdd(x, y);
    AddSwap(x << 1, y << 1, Pick(x & 512, 0x225), Pick(y & 512, 0x225));
  }

  lemma NextInjective(x: bv10, y: bv10)
    ensures Next(x) == Next(y) ==> x == y
  {
  }

  lemma NextPick(bit: bv10, x: bv10)
    ensures Next(Pick(bit, x)) == Pick(bit, Next(x))
  {
  }

  lemma PickAdd(bit: bv10, x: bv10, y: bv10)
    ensures Pick(bit, Add(x, y)) == Add(Pick(bit, x), Pick(bit, y))
  {
  }

  lemma NextSum(x: bv10, bit: bv10, y: bv10, z: bv10)
    requires Next(x) == z
    ensures Next(Add(x, Pick(bit, y))) == Add(z, Pick(bit, Next(y)))
  {
    hide Next, Add, Pick;
    NextAdd(x, Pick(bit, y));
    NextPick(bit, y);
  }

  lemma {:induction false} PowerAdd(k: nat, x: bv10, y: bv10)
    ensures Power(k, Add(x, y)) == Add(Power(k, x), Power(k, y))
  {
    hide Add, Next;
    if k > 0 {
      PowerAdd(k - 1, x, y);
      NextAdd(Power(k - 1, x), Power(k - 1, y));
    }
  }

  lemma {:induction false} PowerZero(k: nat)
    ensures Power(k, 0) == 0
  {
    if k > 0 { PowerZero(k - 1); }
  }

  lemma {:induction false} PowerSum(a: nat, b: nat, x: bv10)
    ensures Power(a + b, x) == Power(a, Power(b, x))
  {
    hide Next;
    if a > 0 { PowerSum(a - 1, b, x); }
  }

  lemma {:induction false} PowerInjective(k: nat, x: bv10, y: bv10)
    requires Power(k, x) == Power(k, y)
    ensures x == y
  {
    hide Next;
    if k > 0 {
      NextInjective(Power(k - 1, x), Power(k - 1, y));
      PowerInjective(k - 1, x, y);
    }
  }

  lemma MulNext(x: bv10, y: bv10)
    ensures Mul(x, Next(y)) == Next(Mul(x, y))
  {
    hide Next, Add, Pick;
    var y1 := Next(y);
    var y2 := Next(y1);
    var y3 := Next(y2);
    var y4 := Next(y3);
    var y5 := Next(y4);
    var y6 := Next(y5);
    var y7 := Next(y6);
    var y8 := Next(y7);
    var y9 := Next(y8);
    NextPicked(x, y, y1, y2, y3, y4, y5, y6, y7, y8, y9);
  }

  lemma NextPicked(x: bv10, y0: bv10, y1: bv10, y2: bv10, y3: bv10, y4: bv10, y5: bv10, y6: bv10, y7: bv10, y8: bv10,
                   y9: bv10)
    ensures Next(Picked(x, y0, y1, y2, y3, y4, y5, y6, y7, y8, y9)) == Picked(x, Next(y0), Next(y1), Next(y2), Next(y3),
      Next(y4), Next(y5), Next(y6), Next(y7), Next(y8), Next(y9))
  {
    hide Next, Add, Pick;
    NextPick(x & 1, y0);
    var s0, t0 := Pick(x & 1, y0), Pick(x & 1, Next(y0));
    NextSum(s0, x & 2, y1, t0);
    var s1, t1 := Add(s0, Pick(x & 2, y1)), Add(t0, Pick(x & 2, Next(y1)));
    NextSum(s1, x & 4, y2, t1);
    var s2, t2 := Add(s1, Pick(x & 4, y2)), Add(t1, Pick(x & 4, Next(y2)));
    NextSum(s2, x & 8, y3, t2);
    var s3, t3 := Add(s2, Pick(x & 8, y3)), Add(t2, Pick(x & 8, Next(y3)));
    NextSum(s3, x & 16, y4, t3);
    var s4, t4 := Add(s3, Pick(x & 16, y4)), Add(t3, Pick(x & 16, Next(y4)));
    NextSum(s4, x & 32, y5, t4);
    var s5, t5 := Add(s4, Pick(x & 32, y5)), Add(t4, Pick(x & 32, Next(y5)));
    NextSum(s5, x & 64, y6, t5);
    var s6, t6 := Add(s5, Pick(x & 64, y6)), Add(t5, Pick(x & 64, Next(y6)));
    NextSum(s6, x & 128, y7, t6);
    var s7, t7 := Add(s6, Pick(x & 128, y7)), Add(t6, Pick(x & 128, Next(y7)));
    NextSum(s7, x & 256, y8, t7);
    var s8, t8 := Add(s7, Pick(x & 256, y8)), Add(t7, Pick(x & 256, Next(y8)));
    NextSum(s8, x & 512, y9, t8);
  }

  lemma {:induction false} MulPower(x: bv10, k: nat, y: bv10)
    ensures Mul(x, Power(k, y)) == Power(k, Mul(x, y))
  {
    hide Next, Mul;
    if k > 0 {
      MulPower(x, k - 1, y);
      MulNext(x, Power(k - 1, y));
    }
  }

  lemma MulOne(x: bv10)
    ensures Mul(x, 1) == x
  {
  }

  /** Multiplication by e^k is multiplication by the element e^k. */
  lemma PowerIsMul(k: nat, x: bv10)
    ensures Power(k, x) == Mul(x, Power(k, 1))
  {
    hide Mul, Power;
    MulPower(x, k, 1);
    MulOne(x);
  }

  lemma PowerTimes(a: nat, b: nat, x: bv10, y: bv10, z: bv10)
    requires Power(a, 1) == x && Power(b, 1) == y && Mul(x, y) == z
    ensures Power(a + b, 1) == z
  {
    hide Mul, Power;
    PowerSum(b, a, 1);
    PowerIsMul(b, x);
  }

  // ---------------------------------------------------------------------------------------------
  // The order of e
  // ---------------------------------------------------------------------------------------------

  lemma Power9()
    ensures Power(9, 1) == 0x200
  {
  }

  lemma Power11()
    ensures Power(11, 1) == 0x26f
  {
    hide Power;
    Power9();
    PowerStep(9, 1);
    PowerStep(10, 1);
  }

  lemma Power22()
    ensures Power(22, 1) == 0x2f
  {
    hide Power;
    Power11();
    PowerTimes(11, 11, 0x26f, 0x26f, 0x2f);
  }

  lemma Power33()
    ensures Power(33, 1) == 0x2ed
  {
    hide Power;
    Power11();
    Power22();
    PowerTimes(22, 11, 0x2f, 0x26f, 0x2ed);
  }

  lemma Power31()
    ensures Power(31, 1) == 0x132
  {
    hide Power;
    Power9();
    Power22();
    PowerTimes(22, 9, 0x2f, 0x200, 0x132);
  }

  lemma Power62()
    ensures Power(62, 1) == 0x308
  {
    hide Power;
    Power31();
    PowerTimes(31, 31, 0x132, 0x132, 0x308);
  }

  lemma Power93()
    ensures Power(93, 1) == 0xd9
  {
    hide Power;
    Power31();
    Power62();
    PowerTimes(62, 31, 0x308, 0x132, 0xd9);
  }

  lemma Power186()
    ensures Power(186, 1) == 0x239
  {
    hide Power;
    Power93();
    PowerTimes(93, 93, 0xd9, 0xd9, 0x239);
  }

  lemma Power279()
    ensures Power(279, 1) == 0x25d
  {
    hide Power;
    Power93();
    Power186();
    PowerTimes(186, 93, 0x239, 0xd9, 0x25d);
  }

  lemma Power341()
    ensures Power(341, 1) == 0x96
  {
    hide Power;
    Power62();
    Power279();
    PowerTimes(279, 62, 0x25d, 0x308, 0x96);
  }

  lemma Power682()
    ensures Power(682, 1) == 0x97
  {
    hide Power;
    Power341();
    PowerTimes(341, 341, 0x96, 0x96, 0x97);
  }

  lemma Power1023()
    ensures Power(1023, 1) == 0x1
  {
    hide Power;
    Power341();
    Power682();
    PowerTimes(682, 341, 0x97, 0x96, 0x1);
  }

  lemma NotFixedBy33(y: bv10)
    requires Power(33, y) == y
    ensures y == 0
  {
    hide Power;
    Power33();
    PowerIsMul(33, y);
  }

  lemma NotFixedBy93(y: bv10)
    requires Power(93, y) == y
    ensures y == 0
  {
    hide Power;
    Power93();
    PowerIsMul(93, y);
  }

  lemma NotFixedBy341(y: bv10)
    requires Power(341, y) == y
    ensures y == 0
  {
    hide Power;
    Power341();
    PowerIsMul(341, y);
  }

  lemma FixedBy1023(y: bv10)
    ensures Power(1023, y) == y
  {
    hide Power, Mul;
    Power1023();
    PowerIsMul(1023, y);
    MulOne(y);
  }

  /** Two powers that fix y: so does one whose exponent divides both. */
  lemma {:induction false} CommonPeriod(a: nat, b: nat, y: bv10) returns (g: nat, i: nat, j: nat)
    requires a > 0 && b > 0 && Power(a, y) == y && Power(b, y) == y
    ensures a == g * i && b == g * j && Power(g, y) == y
    decreases a + b
  {
    hide Power;
    if a == b {
      return a, 1, 1;
    } else if a < b {
      PowerSum(a, b - a, y);
      PowerInjective(a, Power(b - a, y), y);
      g, i, j := CommonPeriod(a, b - a, y);
      j := j + i;
    } else {
      PowerSum(b, a - b, y);
      PowerInjective(b, Power(a - b, y), y);
      g, i, j := CommonPeriod(a - b, b, y);
      i := i + j;
    }
  }

  lemma {:induction false} Multiple(g: nat, n: nat, y: bv10)
    requires Power(g, y) == y
    ensures Power(g * n, y) == y
  {
    hide Power;
    if n == 0 {
      PowerNone(y);
    } else {
      Multiple(g, n - 1, y);
      assert g * n == g + g * (n - 1);
      PowerSum(g, g * (n - 1), y);
    }
  }

  lemma PowerStep(k: nat, x: bv10)
    ensures Power(k + 1, x) == Next(Power(k, x))
  {
    hide Next;
  }

  lemma PowerNone(y: bv10)
    ensures Power(0, y) == y
  {
  }

  lemma SmallDivisor(m: nat, n: nat)
    requires m * n == 1023 && 2 <= m <= 31
    ensures m == 3 || m == 11 || m == 31
  {
    assert m == 2 || m == 3 || m == 4 || m == 5 || m == 6 || m == 7 || m == 8 || m == 9 || m == 10 || m == 11 || m == 12
      || m == 13 || m == 14 || m == 15 || m == 16 || m == 17 || m == 18 || m == 19 || m == 20 || m == 21 || m == 22
      || m == 23 || m == 24 || m == 25 || m == 26 || m == 27 || m == 28 || m == 29 || m == 30 || m == 31;
  }

  lemma Divisors(m: nat, n: nat)
    requires m * n == 1023 && m < 1023
    ensures m == 1 || m == 3 || m == 11 || m == 31 || m == 33 || m == 93 || m == 341
  {
    if 2 <= m <= 31 {
      SmallDivisor(m, n);
    } else if m > 31 {
      if n > 31 { Beyond(m, n); }
      assert n * m == 1023;
      SmallDivisor(n, m);
    }
  }

  lemma Beyond(m: nat, n: nat)
    requires m >= 32 && n >= 32
    ensures m * n >= 1024
  {
  }

  /** No power of e below the 1023rd fixes anything but zero. */
  lemma NoPeriod(k: nat, y: bv10)
    requires 0 < k < 1023 && Power(k, y) == y
    ensures y == 0
  {
    hide Power;
    FixedBy1023(y);
    var g, i, j := CommonPeriod(k, 1023, y);
    Divisors(g, j);
    if g == 31 || g == 93 {
      Multiple(g, 93 / g, y);
      NotFixedBy93(y);
    } else if g == 341 {
      NotFixedBy341(y);
    } else {
      Multiple(g, 33 / g, y);
      NotFixedBy33(y);
    }
  }

  lemma Faithful(a: nat, b: nat, y: bv10)
    requires b < a < b + 1023 && Power(a, y) == Power(b, y)
    ensures y == 0
  {
    hide Power;
    PowerSum(b, a - b, y);
    PowerInjective(b, Power(a - b, y), y);
    NoPeriod(a - b, y);
  }

  // ---------------------------------------------------------------------------------------------
  // The roots of the generator
  // ---------------------------------------------------------------------------------------------

  function Wide(v: bv5): bv10 { v as bv10 }

  /** GF(32) within GF(1024). */
  function Embedded(v: bv5): bv10 {
    LowPicked(Wide(v), 1, 0x14d, 0x283, 0x267, 0x122)
  }

  function LowPicked(x: bv10, y0: bv10, y1: bv10, y2: bv10, y3: bv10, y4: bv10): bv10 {
    Add(Add(Add(Add(Pick(x & 1, y0), Pick(x & 2, y1)), Pick(x & 4, y2)), Pick(x & 8, y3)), Pick(x & 16, y4))
  }

  lemma WideAdd(a: bv5, b: bv5)
    ensures Wide(Xor5(a, b)) == Add(Wide(a), Wide(b))
  {
  }

  lemma MaskAdd10(x: bv10, z: bv10, k: bv10)
    ensures Add(x, z) & k == Add(x & k, z & k)
  {
  }

  lemma PickBits(x: bv10, z: bv10, k: bv10, y: bv10)
    requires (x & k == 0 || x & k == k) && (z & k == 0 || z & k == k) && k != 0
    ensures Pick(Add(x, z) & k, y) == Add(Pick(x & k, y), Pick(z & k, y))
  {
    hide Add;
    MaskAdd10(x, z, k);
    AddZero(0);
    AddZero(k);
    AddZero(y);
  }

  lemma SingleBits(x: bv10)
    ensures (x & 1 == 0 || x & 1 == 1) && (x & 2 == 0 || x & 2 == 2) && (x & 4 == 0 || x & 4 == 4)
    ensures (x & 8 == 0 || x & 8 == 8) && (x & 16 == 0 || x & 16 == 16) && (x & 32 == 0 || x & 32 == 32)
    ensures (x & 64 == 0 || x & 64 == 64) && (x & 128 == 0 || x & 128 == 128) && (x & 256 == 0 || x & 256 == 256)
    ensures x & 512 == 0 || x & 512 == 512
  {
  }

  lemma PickLow(x: bv10, z: bv10, y0: bv10, y1: bv10, y2: bv10, y3: bv10, y4: bv10)
    ensures var c := Add(x, z);
      && Pick(c & 1, y0) == Add(Pick(x & 1, y0), Pick(z & 1, y0))
      && Pick(c & 2, y1) == Add(Pick(x & 2, y1), Pick(z & 2, y1))
      && Pick(c & 4, y2) == Add(Pick(x & 4, y2), Pick(z & 4, y2))
      && Pick(c & 8, y3) == Add(Pick(x & 8, y3), Pick(z & 8, y3))
      && Pick(c & 16, y4) == Add(Pick(x & 16, y4), Pick(z & 16, y4))
  {
    hide Add, Pick;
    SingleBits(x);
    SingleBits(z);
    PickBits(x, z, 1, y0);
    PickBits(x, z, 2, y1);
    PickBits(x, z, 4, y2);
    PickBits(x, z, 8, y3);
    PickBits(x, z, 16, y4);
  }

  lemma PickHigh(x: bv10, z: bv10, y5: bv10, y6: bv10, y7: bv10, y8: bv10, y9: bv10)
    ensures var c := Add(x, z);
      && Pick(c & 32, y5) == Add(Pick(x & 32, y5), Pick(z & 32, y5))
      && Pick(c & 64, y6) == Add(Pick(x & 64, y6), Pick(z & 64, y6))
      && Pick(c & 128, y7) == Add(Pick(x & 128, y7), Pick(z & 128, y7))
      && Pick(c & 256, y8) == Add(Pick(x & 256, y8), Pick(z & 256, y8))
      && Pick(c & 512, y9) == Add(Pick(x & 512, y9), Pick(z & 512, y9))
  {
    hide Add, Pick;
    SingleBits(x);
    SingleBits(z);
    PickBits(x, z, 32, y5);
    PickBits(x, z, 64, y6);
    PickBits(x, z, 128, y7);
    PickBits(x, z, 256, y8);
    PickBits(x, z, 512, y9);
  }

  lemma AddSwaps(a1: bv10, a2: bv10, a3: bv10, a4: bv10, a5: bv10, b1: bv10, b2: bv10, b3: bv10, b4: bv10, b5: bv10)
    ensures Add(Add(Add(Add(Add(a1, b1), Add(a2, b2)), Add(a3, b3)), Add(a4, b4)), Add(a5, b5))
         == Add(Add(Add(Add(Add(a1, a2), a3), a4), a5), Add(Add(Add(Add(b1, b2), b3), b4), b5))
  {
    hide Add;
    AddSwap(a1, b1, a2, b2);
    AddSwap(Add(a1, a2), Add(b1, b2), a3, b3);
    AddSwap(Add(Add(a1, a2), a3), Add(Add(b1, b2), b3), a4, b4);
    AddSwap(Add(Add(Add(a1, a2), a3), a4), Add(Add(Add(b1, b2), b3), b4), a5, b5);
  }

  lemma LowPickedAdd(x: bv10, z: bv10, y0: bv10, y1: bv10, y2: bv10, y3: bv10, y4: bv10)
    ensures LowPicked(Add(x, z), y0, y1, y2, y3, y4) ==
      Add(LowPicked(x, y0, y1, y2, y3, y4), LowPicked(z, y0, y1, y2, y3, y4))
  {
    hide Add, Pick;
    PickLow(x, z, y0, y1, y2, y3, y4);
    AddSwaps(Pick(x & 1, y0), Pick(x & 2, y1), Pick(x & 4, y2), Pick(x & 8, y3), Pick(x & 16, y4),
      Pick(z & 1, y0), Pick(z & 2, y1), Pick(z & 4, y2), Pick(z & 8, y3), Pick(z & 16, y4));
  }

  lemma EmbeddedAdd(a: bv5, b: bv5)
    ensures Embedded(Xor5(a, b)) == Add(Embedded(a), Embedded(b))
  {
    hide Add, LowPicked, Xor5, Wide;
    WideAdd(a, b);
    LowPickedAdd(Wide(a), Wide(b), 1, 0x14d, 0x283, 0x267, 0x122);
  }

  lemma EmbeddedZero(a: bv5)
    ensures Embedded(a) == 0 <==> a == 0
  {
  }

  lemma PickedLeft(x: bv10, z: bv10, y0: bv10, y1: bv10, y2: bv10, y3: bv10, y4: bv10, y5: bv10, y6: bv10, y7: bv10,
                   y8: bv10, y9: bv10)
    ensures Picked(Add(x, z), y0, y1, y2, y3, y4, y5, y6, y7, y8, y9) ==
      Add(Picked(x, y0, y1, y2, y3, y4, y5, y6, y7, y8, y9), Picked(z, y0, y1, y2, y3, y4, y5, y6, y7, y8, y9))
  {
    hide Add, Pick;
    PickLow(x, z, y0, y1, y2, y3, y4);
    PickHigh(x, z, y5, y6, y7, y8, y9);
    var s0, t0 := Pick(x & 1, y0), Pick(z & 1, y0);
    var a1, b1 := Pick(x & 2, y1), Pick(z & 2, y1);
    AddSwap(s0, t0, a1, b1);
    var s1, t1 := Add(s0, a1), Add(t0, b1);
    var a2, b2 := Pick(x & 4, y2), Pick(z & 4, y2);
    AddSwap(s1, t1, a2, b2);
    var s2, t2 := Add(s1, a2), Add(t1, b2);
    var a3, b3 := Pick(x & 8, y3), Pick(z & 8, y3);
    AddSwap(s2, t2, a3, b3);
    var s3, t3 := Add(s2, a3), Add(t2, b3);
    var a4, b4 := Pick(x & 16, y4), Pick(z & 16, y4);
    AddSwap(s3, t3, a4, b4);
    var s4, t4 := Add(s3, a4), Add(t3, b4);
    var a5, b5 := Pick(x & 32, y5), Pick(z & 32, y5);
    AddSwap(s4, t4, a5, b5);
    var s5, t5 := Add(s4, a5), Add(t4, b5);
    var a6, b6 := Pick(x & 64, y6), Pick(z & 64, y6);
    AddSwap(s5, t5, a6, b6);
    var s6, t6 := Add(s5, a6), Add(t5, b6);
    var a7, b7 := Pick(x & 128, y7), Pick(z & 128, y7);
    AddSwap(s6, t6, a7, b7);
    var s7, t7 := Add(s6, a7), Add(t6, b7);
    var a8, b8 := Pick(x & 256, y8), Pick(z & 256, y8);
    AddSwap(s7, t7, a8, b8);
    var s8, t8 := Add(s7, a8), Add(t7, b8);
    var a9, b9 := Pick(x & 512, y9), Pick(z & 512, y9);
    AddSwap(s8, t8, a9, b9);
  }

  lemma MulLeft(x: bv10, z: bv10, y: bv10)
    ensures Mul(Add(x, z), y) == Add(Mul(x, y), Mul(z, y))
  {
    hide Add, Next, Picked;
    var y1 := Next(y);
    var y2 := Next(y1);
    var y3 := Next(y2);
    var y4 := Next(y3);
    var y5 := Next(y4);
    var y6 := Next(y5);
    var y7 := Next(y6);
    var y8 := Next(y7);
    PickedLeft(x, z, y, y1, y2, y3, y4, y5, y6, y7, y8, Next(y8));
  }

  /** e is a root of x^2 + {9}x + {23}. */
  lemma ElementRoot()
    ensures Power(2, 1) == Add(Mul(Embedded(9), Power(1, 1)), Embedded(23))
  {
    FirstPowers();
    hide Power;
  }

  lemma FirstPowers()
    ensures Power(1, 1) == 2 && Power(2, 1) == 4
  {
  }

  /** The products of a and b in the two fields agree. */
  ghost predicate Agree(a: bv5, b: bv5) { Embedded(Times(a, b)) == Mul(Embedded(a), Embedded(b)) }

  lemma AgreeLeft(a: bv5, a': bv5, b: bv5)
    requires Agree(a, b) && Agree(a', b)
    ensures Agree(Xor5(a, a'), b)
  {
    hide Xor5, Embedded, Times, Mul, Add;
    TimesLeft(a, a', b);
    EmbeddedAdd(a, a');
    EmbeddedAdd(Times(a, b), Times(a', b));
    MulLeft(Embedded(a), Embedded(a'), Embedded(b));
  }

  lemma AgreeRight(a: bv5, b: bv5, b': bv5)
    requires Agree(a, b) && Agree(a, b')
    ensures Agree(a, Xor5(b, b'))
  {
    hide Xor5, Embedded, Times, Mul, Add;
    TimesRight(a, b, b');
    EmbeddedAdd(b, b');
    EmbeddedAdd(Times(a, b), Times(a, b'));
    MulAdd(Embedded(a), Embedded(b), Embedded(b'));
  }

  lemma AgreeZero(a: bv5)
    ensures Agree(a, 0) && Agree(0, a)
  {
    hide Times, Mul, Embedded;
    EmbeddedZero(0);
    TimesZero(a);
    MulZero(Embedded(a));
    MulZeroLeft(Embedded(a));
  }

  lemma AgreeOne(b: bv5)
    ensures Agree(1, b)
  {
    hide Times, Mul, Embedded;
    EmbeddedOne();
    TimesOneLeft(b);
    MulOneLeft(Embedded(b));
  }

  lemma EmbeddedOne()
    ensures Embedded(1) == 1
  {
  }

  lemma TimesOneLeft(b: bv5)
    ensures Times(1, b) == b
  {
    hide Double;
  }

  lemma Evaluated(a: bv5, b: bv5, c: bv5, x: bv10, y: bv10, z: bv10)
    requires Times(a, b) == c && Embedded(a) == x && Embedded(b) == y && Embedded(c) == z && Mul(x, y) == z
    ensures Agree(a, b)
  {
    hide Times, Embedded, Mul;
  }

  lemma AgreeOneRight(a: bv5)
    ensures Agree(a, 1)
  {
    hide Times, Mul, Embedded;
    EmbeddedOne();
    TimesOne(a);
    MulOne(Embedded(a));
  }

  lemma EmbeddedValues1()
    ensures Embedded(2) == 0x14d && Embedded(4) == 0x283 && Embedded(8) == 0x267 && Embedded(9) == 0x266
  {
  }

  lemma EmbeddedValues2()
    ensures Embedded(13) == 0xe5 && Embedded(16) == 0x122 && Embedded(18) == 0x6f && Embedded(26) == 0x208
  {
  }

  lemma TimesBy2()
    ensures Times(2, 2) == 4 && Times(2, 4) == 8 && Times(2, 8) == 16 && Times(2, 16) == 9
  {
  }

  lemma Agree2Low()
    ensures Agree(2, 2) && Agree(2, 4)
  {
    hide Agree, Times, Embedded;
    EmbeddedValues1();
    EmbeddedValues2();
    TimesBy2();
    Evaluated(2, 2, 4, 0x14d, 0x14d, 0x283);
    Evaluated(2, 4, 8, 0x14d, 0x283, 0x267);
  }

  lemma Agree2High()
    ensures Agree(2, 8) && Agree(2, 16)
  {
    hide Agree, Times, Embedded;
    EmbeddedValues1();
    EmbeddedValues2();
    TimesBy2();
    Evaluated(2, 8, 16, 0x14d, 0x267, 0x122);
    Evaluated(2, 16, 9, 0x14d, 0x122, 0x266);
  }

  lemma TimesBy4()
    ensures Times(4, 2) == 8 && Times(4, 4) == 16 && Times(4, 8) == 9 && Times(4, 16) == 18
  {
  }

  lemma Agree4Low()
    ensures Agree(4, 2) && Agree(4, 4)
  {
    hide Agree, Times, Embedded;
    EmbeddedValues1();
    EmbeddedValues2();
    TimesBy4();
    Evaluated(4, 2, 8, 0x283, 0x14d, 0x267);
    Evaluated(4, 4, 16, 0x283, 0x283, 0x122);
  }

  lemma Agree4High()
    ensures Agree(4, 8) && Agree(4, 16)
  {
    hide Agree, Times, Embedded;
    EmbeddedValues1();
    EmbeddedValues2();
    TimesBy4();
    Evaluated(4, 8, 9, 0x283, 0x267, 0x266);
    Evaluated(4, 16, 18, 0x283, 0x122, 0x6f);
  }

  lemma TimesBy8()
    ensures Times(8, 2) == 16 && Times(8, 4) == 9 && Times(8, 8) == 18 && Times(8, 16) == 13
  {
  }

  lemma Agree8Low()
    ensures Agree(8, 2) && Agree(8, 4)
  {
    hide Agree, Times, Embedded;
    EmbeddedValues1();
    EmbeddedValues2();
    TimesBy8();
    Evaluated(8, 2, 16, 0x267, 0x14d, 0x122);
    Evaluated(8, 4, 9, 0x267, 0x283, 0x266);
  }

  lemma Agree8High()
    ensures Agree(8, 8) && Agree(8, 16)
  {
    hide Agree, Times, Embedded;
    EmbeddedValues1();
    EmbeddedValues2();
    TimesBy8();
    Evaluated(8, 8, 18, 0x267, 0x267, 0x6f);
    Evaluated(8, 16, 13, 0x267, 0x122, 0xe5);
  }

  lemma TimesBy16()
    ensures Times(16, 2) == 9 && Times(16, 4) == 18 && Times(16, 8) == 13 && Times(16, 16) == 26
  {
  }

  lemma Agree16Low()
    ensures Agree(16, 2) && Agree(16, 4)
  {
    hide Agree, Times, Embedded;
    EmbeddedValues1();
    EmbeddedValues2();
    TimesBy16();
    Evaluated(16, 2, 9, 0x122, 0x14d, 0x266);
    Evaluated(16, 4, 18, 0x122, 0x283, 0x6f);
  }

  lemma Agree16High()
    ensures Agree(16, 8) && Agree(16, 16)
  {
    hide Agree, Times, Embedded;
    EmbeddedValues1();
    EmbeddedValues2();
    TimesBy16();
    Evaluated(16, 8, 13, 0x122, 0x267, 0xe5);
    Evaluated(16, 16, 26, 0x122, 0x122, 0x208);
  }

  lemma AgreeAll(a: bv5, b: bv5)
    requires Agree(a, 2) && Agree(a, 4) && Agree(a, 8) && Agree(a, 16)
    ensures Agree(a, b)
  {
    hide Agree, Xor5;
    AgreeOneRight(a);
    AgreeZero(a);
    Parts(b);
    AgreeRight(a, b & 1, b & 2);
    AgreeRight(a, Xor5(b & 1, b & 2), b & 4);
    AgreeRight(a, Xor5(Xor5(b & 1, b & 2), b & 4), b & 8);
    AgreeRight(a, Xor5(Xor5(Xor5(b & 1, b & 2), b & 4), b & 8), b & 16);
  }

  lemma AgreeBasis(b: bv5)
    ensures Agree(1, b) && Agree(2, b) && Agree(4, b) && Agree(8, b) && Agree(16, b)
  {
    hide Agree;
    AgreeOne(b);
    Agree2Low();
    Agree2High();
    AgreeAll(2, b);
    Agree4Low();
    Agree4High();
    AgreeAll(4, b);
    Agree8Low();
    Agree8High();
    AgreeAll(8, b);
    Agree16Low();
    Agree16High();
    AgreeAll(16, b);
  }

  lemma AgreeAlways(a: bv5, b: bv5)
    ensures Agree(a, b)
  {
    hide Agree, Xor5;
    AgreeBasis(b);
    AgreeZero(b);
    Parts(a);
    AgreeLeft(a & 1, a & 2, b);
    AgreeLeft(Xor5(a & 1, a & 2), a & 4, b);
    AgreeLeft(Xor5(Xor5(a & 1, a & 2), a & 4), a & 8, b);
    AgreeLeft(Xor5(Xor5(Xor5(a & 1, a & 2), a & 4), a & 8), a & 16, b);
  }

  /** GF(32) is a part of GF(1024). */
  lemma EmbeddedTimes(a: bv5, b: bv5)
    ensures Embedded(Times(a, b)) == Mul(Embedded(a), Embedded(b))
  {
    hide Embedded, Times, Mul;
    AgreeAlways(a, b);
  }

  /** The value of a polynomial at e^m; its coefficients are given from the lowest up. */
  function Value(m: nat, s: seq<bv5>): bv10 {
    if s == [] then 0 else Add(Embedded(s[0]), Power(m, Value(m, s[1..])))
  }

  /** The generator, from its lowest coefficient up. */
  const LOW_FIRST: seq<bv5> := [18, 29, 21, 20, 22, 29, 1]

  /** As e^1023 is one, e^997 is the inverse of e^26. */
  lemma Power997()
    ensures Power(997, 1) == 0xd
  {
    hide Power;
    Power26();
    Power1023();
    PowerSum(26, 997, 1);
    PowerInjective(26, Power(997, 1), 0xd);
  }

  lemma Power999()
    ensures Power(998, 1) == 0x1a && Power(999, 1) == 0x34
  {
    hide Power;
    Power997();
    PowerStep(997, 1);
    PowerStep(998, 1);
  }

  lemma Power4(x: bv10, y: bv10)
    requires Next(Next(Next(Next(x)))) == y
    ensures Power(4, x) == y
  {
    hide Next, Power;
    PowerNone(x);
    PowerStep(0, x);
    PowerStep(1, x);
    PowerStep(2, x);
    PowerStep(3, x);
  }

  lemma Power2(x: bv10, y: bv10)
    requires Next(Next(x)) == y
    ensures Power(2, x) == y
  {
    hide Next, Power;
    PowerNone(x);
    PowerStep(0, x);
    PowerStep(1, x);
  }

  lemma Power26()
    ensures Power(26, 0xd) == 1
  {
    hide Power;
    Power4(0xd, 0xd0);
    Power4(0xd0, 0x14a);
    Power4(0x14a, 0x7e);
    Power4(0x7e, 0x1c5);
    Power4(0x1c5, 0x2e1);
    Power4(0x2e1, 0x189);
    Power2(0x189, 1);
    PowerSum(2, 24, 0xd);
    PowerSum(4, 20, 0xd);
    PowerSum(4, 16, 0xd);
    PowerSum(4, 12, 0xd);
    PowerSum(4, 8, 0xd);
    PowerSum(4, 4, 0xd);
  }

  lemma ValueLast(m: nat)
    ensures Value(m, LOW_FIRST[6..]) == 1
  {
    hide Power;
    PowerZero(m);
    assert LOW_FIRST[6..][1..] == [];
  }

  /** One more coefficient of the generator; w is e^m. */
  lemma ValueNext(m: nat, w: bv10, k: nat, c: bv5, before: bv10, after: bv10)
    requires Power(m, 1) == w && k < 6 && LOW_FIRST[k] == c
    requires Value(m, LOW_FIRST[k+1..]) == before && Add(Embedded(c), Mul(before, w)) == after
    ensures Value(m, LOW_FIRST[k..]) == after
  {
    hide Embedded, Add, Power, Mul;
    assert LOW_FIRST[k..][1..] == LOW_FIRST[k+1..];
    PowerIsMul(m, before);
  }

  lemma Root997()
    ensures Value(997, LOW_FIRST) == 0
  {
    hide Power, Value;
    Power997();
    ValueLast(997);
    ValueNext(997, 0xd, 5, 29, 0x1, 0x1ca);
    ValueNext(997, 0xd, 4, 22, 0x1ca, 0x31);
    ValueNext(997, 0xd, 3, 20, 0x31, 0x2dc);
    ValueNext(997, 0xd, 2, 21, 0x2dc, 0x25d);
    ValueNext(997, 0xd, 1, 29, 0x25d, 0x92);
    ValueNext(997, 0xd, 0, 18, 0x92, 0x0);
    assert LOW_FIRST[0..] == LOW_FIRST;
  }

  lemma Root998()
    ensures Value(998, LOW_FIRST) == 0
  {
    hide Power, Value;
    Power999();
    ValueLast(998);
    ValueNext(998, 0x1a, 5, 29, 0x1, 0x1dd);
    ValueNext(998, 0x1a, 4, 22, 0x1dd, 0x95);
    ValueNext(998, 0x1a, 3, 20, 0x95, 0x339);
    ValueNext(998, 0x1a, 2, 21, 0x339, 0x13);
    ValueNext(998, 0x1a, 1, 29, 0x13, 0x49);
    ValueNext(998, 0x1a, 0, 18, 0x49, 0x0);
    assert LOW_FIRST[0..] == LOW_FIRST;
  }

  lemma Root999()
    ensures Value(999, LOW_FIRST) == 0
  {
    hide Power, Value;
    Power999();
    ValueLast(999);
    ValueNext(999, 0x34, 5, 29, 0x1, 0x1f3);
    ValueNext(999, 0x34, 4, 22, 0x1f3, 0x186);
    ValueNext(999, 0x34, 3, 20, 0x186, 0x280);
    ValueNext(999, 0x34, 2, 21, 0x280, 0x10b);
    ValueNext(999, 0x34, 1, 29, 0x10b, 0x336);
    ValueNext(999, 0x34, 0, 18, 0x336, 0x0);
    assert LOW_FIRST[0..] == LOW_FIRST;
  }

  ghost predicate IsRoot(m: nat) { m == 997 || m == 998 || m == 999 }

  lemma RootValue(m: nat)
    requires IsRoot(m)
    ensures Value(m, LOW_FIRST) == 0
  {
    hide Value;
    Root997();
    Root998();
    Root999();
  }

  lemma MoreAdd(s: bv10, t: bv10, sum: bv10, bit: bv10, y: bv10, z: bv10)
    requires Add(s, t) == sum
    ensures Add(Add(s, Pick(bit, y)), Add(t, Pick(bit, z))) == Add(sum, Pick(bit, Add(y, z)))
  {
    hide Add, Pick;
    AddSwap(s, Pick(bit, y), t, Pick(bit, z));
    PickAdd(bit, y, z);
  }

  lemma PickedAdd(x: bv10, y0: bv10, y1: bv10, y2: bv10, y3: bv10, y4: bv10, y5: bv10, y6: bv10, y7: bv10, y8: bv10,
                  y9: bv10, z0: bv10, z1: bv10, z2: bv10, z3: bv10, z4: bv10, z5: bv10, z6: bv10, z7: bv10, z8: bv10,
                  z9: bv10)
    ensures Picked(x, Add(y0, z0), Add(y1, z1), Add(y2, z2), Add(y3, z3), Add(y4, z4), Add(y5, z5), Add(y6, z6),
      Add(y7, z7), Add(y8, z8), Add(y9, z9)) ==
      Add(Picked(x, y0, y1, y2, y3, y4, y5, y6, y7, y8, y9), Picked(x, z0, z1, z2, z3, z4, z5, z6, z7, z8, z9))
  {
    hide Add, Pick;
    PickAdd(x & 1, y0, z0);
    var s0, t0, r0 := Pick(x & 1, y0), Pick(x & 1, z0), Pick(x & 1, Add(y0, z0));
    MoreAdd(s0, t0, r0, x & 2, y1, z1);
    var s1, t1 := Add(s0, Pick(x & 2, y1)), Add(t0, Pick(x & 2, z1));
    var r1 := Add(r0, Pick(x & 2, Add(y1, z1)));
    MoreAdd(s1, t1, r1, x & 4, y2, z2);
    var s2, t2 := Add(s1, Pick(x & 4, y2)), Add(t1, Pick(x & 4, z2));
    var r2 := Add(r1, Pick(x & 4, Add(y2, z2)));
    MoreAdd(s2, t2, r2, x & 8, y3, z3);
    var s3, t3 := Add(s2, Pick(x & 8, y3)), Add(t2, Pick(x & 8, z3));
    var r3 := Add(r2, Pick(x & 8, Add(y3, z3)));
    MoreAdd(s3, t3, r3, x & 16, y4, z4);
    var s4, t4 := Add(s3, Pick(x & 16, y4)), Add(t3, Pick(x & 16, z4));
    var r4 := Add(r3, Pick(x & 16, Add(y4, z4)));
    MoreAdd(s4, t4, r4, x & 32, y5, z5);
    var s5, t5 := Add(s4, Pick(x & 32, y5)), Add(t4, Pick(x & 32, z5));
    var r5 := Add(r4, Pick(x & 32, Add(y5, z5)));
    MoreAdd(s5, t5, r5, x & 64, y6, z6);
    var s6, t6 := Add(s5, Pick(x & 64, y6)), Add(t5, Pick(x & 64, z6));
    var r6 := Add(r5, Pick(x & 64, Add(y6, z6)));
    MoreAdd(s6, t6, r6, x & 128, y7, z7);
    var s7, t7 := Add(s6, Pick(x & 128, y7)), Add(t6, Pick(x & 128, z7));
    var r7 := Add(r6, Pick(x & 128, Add(y7, z7)));
    MoreAdd(s7, t7, r7, x & 256, y8, z8);
    var s8, t8 := Add(s7, Pick(x & 256, y8)), Add(t7, Pick(x & 256, z8));
    var r8 := Add(r7, Pick(x & 256, Add(y8, z8)));
    MoreAdd(s8, t8, r8, x & 512, y9, z9);
  }

  lemma MulAdd(x: bv10, y: bv10, z: bv10)
    ensures Mul(x, Add(y, z)) == Add(Mul(x, y), Mul(x, z))
  {
    hide Add, Next, Picked;
    NextAdd(y, z);
    var y1, z1 := Next(y), Next(z);
    NextAdd(y1, z1);
    var y2, z2 := Next(y1), Next(z1);
    NextAdd(y2, z2);
    var y3, z3 := Next(y2), Next(z2);
    NextAdd(y3, z3);
    var y4, z4 := Next(y3), Next(z3);
    NextAdd(y4, z4);
    var y5, z5 := Next(y4), Next(z4);
    NextAdd(y5, z5);
    var y6, z6 := Next(y5), Next(z5);
    NextAdd(y6, z6);
    var y7, z7 := Next(y6), Next(z6);
    NextAdd(y7, z7);
    var y8, z8 := Next(y7), Next(z7);
    NextAdd(y8, z8);
    var y9, z9 := Next(y8), Next(z8);
    PickedAdd(x, y, y1, y2, y3, y4, y5, y6, y7, y8, y9, z, z1, z2, z3, z4, z5, z6, z7, z8, z9);
  }

  /** Multiples of the generator are zero where it is. */
  lemma {:induction false} ScaledValue(m: nat, a: bv5, k: nat)
    requires k <= 7
    ensures Value(m, Scaled(a)[k..]) == Mul(Embedded(a), Value(m, LOW_FIRST[k..]))
    decreases 7 - k
  {
    hide Mul, Embedded, Power, Times, Add;
    if k == 7 {
      MulZero(Embedded(a));
    } else {
      ScaledValue(m, a, k + 1);
      var c, v := LOW_FIRST[k], Value(m, LOW_FIRST[k+1..]);
      assert Scaled(a)[k..][1..] == Scaled(a)[k+1..] && LOW_FIRST[k..][1..] == LOW_FIRST[k+1..];
      EmbeddedTimes(a, c);
      MulPower(Embedded(a), m, v);
      MulAdd(Embedded(a), Embedded(c), Power(m, v));
    }
  }

  lemma PickZero(x: bv10)
    ensures Pick(x, 0) == 0 && Pick(0, x) == 0
  {
  }

  lemma PickedZero(x: bv10)
    ensures Picked(x, 0, 0, 0, 0, 0, 0, 0, 0, 0, 0) == 0
  {
    hide Add, Pick;
    AddZero(0);
    PickZero(x & 1);
    PickZero(x & 2);
    PickZero(x & 4);
    PickZero(x & 8);
    PickZero(x & 16);
    PickZero(x & 32);
    PickZero(x & 64);
    PickZero(x & 128);
    PickZero(x & 256);
    PickZero(x & 512);
  }

  lemma NextZero()
    ensures Next(0) == 0
  {
  }

  lemma MulZero(x: bv10)
    ensures Mul(x, 0) == 0
  {
    hide Next, Picked;
    NextZero();
    PickedZero(x);
  }

  lemma MulZeroLeft(x: bv10)
    ensures Mul(0, x) == 0
  {
    hide Next;
  }

  lemma MulOneLeft(x: bv10)
    ensures Mul(1, x) == x
  {
    hide Next;
  }

  /** The generator times a, from its lowest coefficient up. */
  function Scaled(a: bv5): seq<bv5> { seq(7, k requires 0 <= k < 7 => Times(a, LOW_FIRST[k])) }

  // ---------------------------------------------------------------------------------------------
  // The value of the remainder at the roots
  // ---------------------------------------------------------------------------------------------

  lemma {:induction false} ValueAdd(m: nat, s: seq<bv5>, t: seq<bv5>)
    requires |s| == |t|
    ensures Value(m, XorAll(s, t)) == Add(Value(m, s), Value(m, t))
  {
    hide Add, Power, Embedded, Xor5;
    if s == [] {
      AddZero(0);
    } else {
      assert XorAll(s, t)[1..] == XorAll(s[1..], t[1..]);
      ValueAdd(m, s[1..], t[1..]);
      EmbeddedAdd(s[0], t[0]);
      PowerAdd(m, Value(m, s[1..]), Value(m, t[1..]));
      AddSwap(Embedded(s[0]), Embedded(t[0]), Power(m, Value(m, s[1..])), Power(m, Value(m, t[1..])));
    }
  }

  lemma {:induction false} ValueTrailing(m: nat, s: seq<bv5>)
    ensures Value(m, s + [0]) == Value(m, s)
  {
    hide Add, Power, Embedded;
    if s == [] {
      EmbeddedZero(0);
      PowerZero(m);
      AddZero(0);
      assert [0][1..] == [] && s + [0] == [0];
    } else {
      assert (s + [0])[1..] == s[1..] + [0];
      ValueTrailing(m, s[1..]);
    }
  }

  function Symbols(c: bv30): seq<bv5> { seq(6, n requires 0 <= n < 6 => Symbol(c, n)) }

  /** At a root a step multiplies by e^m and adds the symbol. */
  lemma StepValue(m: nat, c: bv30, v: bv5)
    requires IsRoot(m)
    ensures Value(m, Symbols(Step(c, v))) == Add(Embedded(v), Power(m, Value(m, Symbols(c))))
  {
    hide Step, Symbol, Add, Power, Embedded, Times, Xor5, Mul, IsRoot, Value;
    var a, after := Symbol(c, 5), Symbols(Step(c, v));
    StepSymbols(c, v);
    ValueCons(m, v, Symbols(c));
    ValueAdd(m, Scaled(a), after + [0]);
    ValueTrailing(m, after);
    ScaledValue(m, a, 0);
    assert Scaled(a)[0..] == Scaled(a) && LOW_FIRST[0..] == LOW_FIRST;
    RootValue(m);
    MulZero(Embedded(a));
    AddZero(Value(m, after));
  }

  lemma ValueCons(m: nat, v: bv5, s: seq<bv5>)
    ensures Value(m, [v] + s) == Add(Embedded(v), Power(m, Value(m, s)))
  {
    assert ([v] + s)[1..] == s;
  }

  lemma StepSymbols(c: bv30, v: bv5)
    ensures [v] + Symbols(c) == XorAll(Scaled(Symbol(c, 5)), Symbols(Step(c, v)) + [0])
  {
    hide Step, Symbol, Times, Xor5, Unpack;
    var a, after := Symbol(c, 5), Symbols(Step(c, v));
    forall n | 0 <= n < 7 ensures ([v] + Symbols(c))[n] == Xor5(Scaled(a)[n], (after + [0])[n]) {
      StepCoef(c, v, n);
      UnpackCoef(c, n - 1);
      UnpackCoef(Step(c, v), n);
      if n == 6 { NoSymbol(Step(c, v), n); }
      assert LOW_FIRST[n] == Coef(GENERATOR, n);
    }
  }

  /** The value at e^m of a list of symbols, from the highest coefficient down. */
  function Sum(m: nat, d: seq<bv5>): bv10 {
    if d == [] then 0 else Add(Power(m * (|d| - 1), Embedded(d[0])), Sum(m, d[1..]))
  }

  lemma {:induction false} RunValue(m: nat, c: bv30, d: seq<bv5>)
    requires IsRoot(m)
    ensures Value(m, Symbols(Run(c, d))) == Add(Power(m * |d|, Value(m, Symbols(c))), Sum(m, d))
    decreases |d|
  {
    hide Step, Symbol, Add, Power, Embedded, Value, IsRoot, Symbols;
    var x := Value(m, Symbols(c));
    if d == [] {
      AddZero(x);
      PowerNone(x);
    } else {
      var k := m * (|d| - 1);
      RunValue(m, Step(c, d[0]), d[1..]);
      StepValue(m, c, d[0]);
      PowerAdd(k, Embedded(d[0]), Power(m, x));
      assert m * |d| == k + m;
      PowerSum(k, m, x);
      AddComm(Power(k, Embedded(d[0])), Power(m * |d|, x));
      AddAssoc(Power(m * |d|, x), Power(k, Embedded(d[0])), Sum(m, d[1..]));
    }
  }

  /** A list of remainder zero is zero at the roots. */
  lemma ZeroAtRoots(m: nat, d: seq<bv5>)
    requires IsRoot(m) && Run(0, d) == 0
    ensures Sum(m, d) == 0
  {
    hide Add, Power, Sum, IsRoot, Symbols, Value, Run;
    RunValue(m, 0, d);
    ValueZero(m);
    PowerZero(m * |d|);
    AddZero(Sum(m, d));
  }

  lemma {:induction false} ValueZeroes(m: nat, s: seq<bv5>)
    requires AllZero(s)
    ensures Value(m, s) == 0
  {
    hide Add, Power, Embedded;
    if s != [] {
      ValueZeroes(m, s[1..]);
      EmbeddedZero(0);
      PowerZero(m);
      AddZero(0);
    }
  }

  lemma ValueZero(m: nat)
    ensures Value(m, Symbols(0)) == 0
  {
    hide Symbol, Value;
    forall n: nat | n < 6 ensures Symbols(0)[n] == 0 {
      SymbolZero(n);
    }
    ValueZeroes(m, Symbols(0));
  }

  lemma SymbolZero(n: nat)
    ensures Symbol(0, n) == 0
  {
  }

  // ---------------------------------------------------------------------------------------------
  // Few errors
  // ---------------------------------------------------------------------------------------------

  /** A symbol in error, and the power of x it belongs to. */
  datatype Error = Error(symbol: bv5, exponent: nat)

  /** The symbols that are not zero, with their powers. */
  function Errors(d: seq<bv5>): seq<Error> {
    if d == [] then [] else (if d[0] == 0 then [] else [Error(d[0], |d| - 1)]) + Errors(d[1..])
  }

  function ErrorSum(m: nat, es: seq<Error>): bv10 {
    if es == [] then 0 else Add(Power(m * es[0].exponent, Embedded(es[0].symbol)), ErrorSum(m, es[1..]))
  }

  lemma {:induction false} SumOfErrors(m: nat, d: seq<bv5>)
    ensures Sum(m, d) == ErrorSum(m, Errors(d))
  {
    hide Add, Power, Embedded;
    if d != [] {
      SumOfErrors(m, d[1..]);
      if d[0] == 0 {
        EmbeddedZero(0);
        PowerZero(m * (|d| - 1));
        AddZero(Sum(m, d[1..]));
        assert Errors(d) == Errors(d[1..]);
      } else {
        assert Errors(d)[1..] == Errors(d[1..]);
      }
    }
  }

  ghost predicate Descending(es: seq<Error>) {
    forall k, l | 0 <= k < l < |es| :: es[k].exponent > es[l].exponent
  }

  /** The positions of symbols that are not zero. */
  ghost function Places(d: seq<bv5>): set<nat> { set n: nat | n < |d| && d[n] != 0 }

  lemma {:induction false} ErrorsAre(d: seq<bv5>)
    ensures Descending(Errors(d)) && |Errors(d)| == |Places(d)|
    ensures forall k | 0 <= k < |Errors(d)| ::
      Errors(d)[k].symbol != 0 && Errors(d)[k].exponent < |d| && |d| - 1 - Errors(d)[k].exponent in Places(d)
  {
    if d != [] {
      ErrorsAre(d[1..]);
      PlacesNext(d);
    }
  }

  lemma PlacesNext(d: seq<bv5>)
    requires d != []
    ensures |Places(d)| == |Places(d[1..])| + if d[0] == 0 then 0 else 1
    ensures forall n: nat :: n in Places(d[1..]) ==> n + 1 in Places(d)
  {
    var later := set n: nat | n in Places(d[1..]) :: n + 1;
    Moved(Places(d[1..]), later, 1);
    PlacesAre(d, later);
  }

  lemma PlacesAre(d: seq<bv5>, later: set<nat>)
    requires d != [] && later == set n: nat | n in Places(d[1..]) :: n + 1
    ensures Places(d) == later + (if d[0] == 0 then {} else {0}) && 0 !in later
  {
    forall n: nat | n > 0 ensures n in Places(d) <==> n in later {
      assert n - 1 in Places(d[1..]) <==> n in later;
    }
  }

  lemma {:induction false} Moved(a: set<nat>, b: set<nat>, shift: nat)
    requires b == set n | n in a :: n + shift
    ensures |a| == |b|
  {
    if a != {} {
      var n :| n in a;
      var less, rest := b - {n + shift}, set k | k in a - {n} :: k + shift;
      forall k ensures k in less <==> k in rest {
        if k in less {
          assert k - shift in a - {n};
        }
      }
      assert less == rest;
      Moved(a - {n}, rest, shift);
    }
  }

  /** Two terms that vanish with two consecutive powers. */
  lemma TwoVanish(y1: bv10, y2: bv10, p1: nat, p2: nat)
    requires p2 < p1 < p2 + 1023
    requires Add(y1, y2) == 0 && Add(Power(p1, y1), Power(p2, y2)) == 0
    ensures y1 == 0
  {
    hide Power, Add;
    AddEqual(y1, y2);
    AddEqual(Power(p1, y1), Power(p2, y2));
    Faithful(p1, p2, y1);
  }

  lemma ThreeZero(a: bv10, b: bv10, c: bv10)
    requires Add(a, Add(b, c)) == 0
    ensures Add(a, b) == c
  {
    hide Add;
    AddAssoc(a, b, c);
    AddEqual(Add(a, b), c);
  }

  /** Three terms that vanish with three consecutive powers. */
  lemma ThreeVanish(y1: bv10, y2: bv10, y3: bv10, p1: nat, p2: nat, p3: nat)
    requires p3 < p2 < p1 < p3 + 1023
    requires Add(y1, Add(y2, y3)) == 0
    requires Add(Power(p1, y1), Add(Power(p2, y2), Power(p3, y3))) == 0
    requires Add(Power(p1, Power(p1, y1)), Add(Power(p2, Power(p2, y2)), Power(p3, Power(p3, y3)))) == 0
    ensures y1 == 0
  {
    hide Power, Add;
    var x1, x2 := Power(p1, y1), Power(p2, y2);
    Eliminated(y1, y2, y3, x1, x2, p3);
    Eliminated(x1, x2, Power(p3, y3), Power(p1, x1), Power(p2, x2), p3);
    Turned(y1, p1, p3);
    Turned(y2, p2, p3);
    TwoVanish(Add(x1, Power(p3, y1)), Add(x2, Power(p3, y2)), p1, p2);
    AddEqual(x1, Power(p3, y1));
    Faithful(p1, p3, y1);
  }

  /** The third term eliminated. */
  lemma Eliminated(y1: bv10, y2: bv10, y3: bv10, x1: bv10, x2: bv10, p3: nat)
    requires Add(y1, Add(y2, y3)) == 0 && Add(x1, Add(x2, Power(p3, y3))) == 0
    ensures Add(Add(x1, Power(p3, y1)), Add(x2, Power(p3, y2))) == 0
  {
    hide Power, Add;
    ThreeZero(y1, y2, y3);
    ThreeZero(x1, x2, Power(p3, y3));
    AddSwap(x1, Power(p3, y1), x2, Power(p3, y2));
    PowerAdd(p3, y1, y2);
    AddZero(Power(p3, y3));
  }

  lemma Turned(y: bv10, p: nat, q: nat)
    ensures Power(p, Add(Power(p, y), Power(q, y))) == Add(Power(p, Power(p, y)), Power(q, Power(p, y)))
  {
    hide Power, Add;
    PowerAdd(p, Power(p, y), Power(q, y));
    PowerSum(p, q, y);
    PowerSum(q, p, y);
  }

  /** The powers of one error at the three roots. */
  lemma AtRoots(e: Error)
    ensures var y := Power(997 * e.exponent, Embedded(e.symbol));
      && Power(998 * e.exponent, Embedded(e.symbol)) == Power(e.exponent, y)
      && Power(999 * e.exponent, Embedded(e.symbol)) == Power(e.exponent, Power(e.exponent, y))
      && (y == 0 ==> e.symbol == 0)
  {
    hide Power, Embedded;
    var p, x := e.exponent, Embedded(e.symbol);
    assert 998 * p == p + 997 * p && 999 * p == p + 998 * p;
    PowerSum(p, 997 * p, x);
    PowerSum(p, 998 * p, x);
    PowerZero(997 * p);
    if Power(997 * p, x) == 0 {
      PowerInjective(997 * p, x, 0);
      EmbeddedZero(e.symbol);
    }
  }

  /** One to three errors within the window do not vanish at all three roots. */
  lemma ErrorsShow(es: seq<Error>)
    requires 1 <= |es| <= 3 && Descending(es) && es[0].exponent < es[|es|-1].exponent + 1023 && es[0].symbol != 0
    ensures ErrorSum(997, es) != 0 || ErrorSum(998, es) != 0 || ErrorSum(999, es) != 0
  {
    hide Power, Embedded, Add, ErrorSum, Descending;
    AtRoots(es[0]);
    if ErrorSum(997, es) == 0 && ErrorSum(998, es) == 0 && ErrorSum(999, es) == 0 {
      LeadingVanishes(es);
      assert false;
    }
  }

  lemma LeadingVanishes(es: seq<Error>)
    requires 1 <= |es| <= 3 && Descending(es) && es[0].exponent < es[|es|-1].exponent + 1023
    requires ErrorSum(997, es) == 0 && ErrorSum(998, es) == 0 && ErrorSum(999, es) == 0
    ensures Power(997 * es[0].exponent, Embedded(es[0].symbol)) == 0
  {
    hide Power, Embedded, Add, ErrorSum;
    AtRoots(es[0]);
    var y1, p1 := Power(997 * es[0].exponent, Embedded(es[0].symbol)), es[0].exponent;
    if |es| == 1 {
      SumOne(997, es);
    } else {
      AtRoots(es[1]);
      var y2, p2 := Power(997 * es[1].exponent, Embedded(es[1].symbol)), es[1].exponent;
      if |es| == 2 {
        SumTwo(997, es);
        SumTwo(998, es);
        TwoVanish(y1, y2, p1, p2);
      } else {
        AtRoots(es[2]);
        SumThree(997, es);
        SumThree(998, es);
        SumThree(999, es);
        ThreeVanish(y1, y2, Power(997 * es[2].exponent, Embedded(es[2].symbol)), p1, p2, es[2].exponent);
      }
    }
  }

  function At(m: nat, e: Error): bv10 { Power(m * e.exponent, Embedded(e.symbol)) }

  lemma SumOne(m: nat, es: seq<Error>)
    requires |es| == 1
    ensures ErrorSum(m, es) == At(m, es[0])
  {
    hide Power, Embedded, Add;
    AddZero(At(m, es[0]));
  }

  lemma SumTwo(m: nat, es: seq<Error>)
    requires |es| == 2
    ensures ErrorSum(m, es) == Add(At(m, es[0]), At(m, es[1]))
  {
    hide Power, Embedded, Add;
    SumOne(m, es[1..]);
  }

  lemma SumThree(m: nat, es: seq<Error>)
    requires |es| == 3
    ensures ErrorSum(m, es) == Add(At(m, es[0]), Add(At(m, es[1]), At(m, es[2])))
  {
    hide Power, Embedded, Add;
    SumTwo(m, es[1..]);
  }

  // ---------------------------------------------------------------------------------------------
  // Detection
  // ---------------------------------------------------------------------------------------------

  ghost function Differences(u: seq<bv5>, v: seq<bv5>): set<nat>
    requires |u| == |v|
  {
    set n: nat | n < |u| && u[n] != v[n]
  }

  /** Between one and three symbols differ, and they are within a window of 1023. */
  ghost predicate FewErrors(u: seq<bv5>, v: seq<bv5>) {
    && |u| == |v| && 1 <= |Differences(u, v)| <= 3
    && forall i, j | i in Differences(u, v) && j in Differences(u, v) :: i < j + 1023
  }

  lemma DifferencesArePlaces(u: seq<bv5>, v: seq<bv5>)
    requires |u| == |v|
    ensures Places(XorAll(u, v)) == Differences(u, v)
  {
    hide Xor5;
    forall n: nat | n < |u| ensures XorAll(u, v)[n] == 0 <==> u[n] == v[n] {
      XorEqual5(u[n], v[n]);
    }
  }

  /** Two lists of symbols with one to three differences within a window of 1023 have different remainders. */
  lemma ThreeErrorsDetected(u: seq<bv5>, v: seq<bv5>)
    requires FewErrors(u, v)
    ensures Run(1, u) != Run(1, v)
  {
    hide Xor, XorAll, Run, Places, Differences, Errors, ErrorSum, Sum;
    RunLinear(1, 1, u, v);
    XorSelf(1);
    XorEqual(Run(1, u), Run(1, v));
    DifferencesArePlaces(u, v);
    XorAllLength(u, v);
    var d := XorAll(u, v);
    ErrorsAre(d);
    ErrorsShow(Errors(d));
    SumOfErrors(997, d);
    SumOfErrors(998, d);
    SumOfErrors(999, d);
    if Run(0, d) == 0 {
      ZeroAtRoots(997, d);
      ZeroAtRoots(998, d);
      ZeroAtRoots(999, d);
      assert false;
    }
  }

  /** Up to three errors, in the expanded prefix or the data, never pass the check of the same encoding. */
  lemma ErrorsRejected(hrp: string, u: seq<bv5>, hrp': string, v: seq<bv5>, encoding: Encoding)
    requires FewErrors(Expand(hrp) + u, Expand(hrp') + v) && Verified(hrp, u) == Some(encoding)
    ensures Verified(hrp', v) != Some(encoding)
  {
    hide Run, Expand, Verified, FewErrors;
    VerifiedIs(hrp, u, encoding);
    VerifiedIs(hrp', v, encoding);
    ThreeErrorsDetected(Expand(hrp) + u, Expand(hrp') + v);
  }

  // ---------------------------------------------------------------------------------------------
  // Errors in strings
  // ---------------------------------------------------------------------------------------------

  /** Where two strings differ in more than case. */
  ghost function Changes(s: string, t: string): set<nat>
    requires |s| == |t|
  {
    set i: nat | i < |s| && LowerCase(s[i]) != LowerCase(t[i])
  }

  /** The changed characters before position pos, and those from there on. */
  ghost function ChangesBefore(s: string, t: string, pos: int): set<nat>
    requires |s| == |t|
  {
    set i | i in Changes(s, t) && i < pos
  }

  ghost function ChangesAfter(s: string, t: string, pos: int): set<nat>
    requires |s| == |t|
  {
    set i | i in Changes(s, t) && i >= pos
  }

  /** Up to three characters behind the separator of s are changed, or one in front of it and at most one behind; the
      separator stays the last one. Changes are within a window of 1023, and if they include one of the prefix, so is
      all that enters the checksum. */
  ghost predicate FewChanges(s: string, t: string) {
    var pos := LastSeparator(s);
    && |s| == |t| && LastSeparator(t) == pos
    && 1 <= 2 * |ChangesBefore(s, t, pos)| + |ChangesAfter(s, t, pos)| <= 3
    && (forall i, j | i in Changes(s, t) && j in Changes(s, t) :: i < j + 1023)
    && (ChangesBefore(s, t, pos) != {} ==> |s| + pos <= 1023)
  }

  lemma ValueDiffers(c: char, d: char)
    requires ValueOf(c).Some? && ValueOf(d).Some?
    ensures ValueOf(c) == ValueOf(d) <==> LowerCase(c) == LowerCase(d)
  {
    hide LowerCase, CharOf;
    ValueChar(c);
    ValueChar(d);
  }

  /** The symbols of a string that enter the checksum. */
  ghost function Entering(s: string, pos: nat): (r: seq<bv5>)
    requires pos < |s| && AllValid(s[pos+1..])
    ensures |r| == |s| + pos
  {
    ExpandLength(Lower(s[..pos]));
    Expand(Lower(s[..pos])) + Values(s[pos+1..])
  }

  /** A character of the data enters as one symbol, pos places further on. */
  lemma DataEnters(s: string, t: string, pos: nat, i: nat)
    requires pos < i < |s| == |t| && AllValid(s[pos+1..]) && AllValid(t[pos+1..])
    ensures Entering(s, pos)[i + pos] == Entering(t, pos)[i + pos] <==> LowerCase(s[i]) == LowerCase(t[i])
  {
    hide ValueOf, LowerCase, Expand;
    ExpandLength(Lower(s[..pos]));
    ExpandLength(Lower(t[..pos]));
    assert s[pos+1..][i-pos-1] == s[i] && t[pos+1..][i-pos-1] == t[i];
    ValueDiffers(s[i], t[i]);
  }

  /** A character of the prefix enters as two symbols. */
  lemma PrefixEnters(s: string, t: string, pos: nat, i: nat)
    requires i < pos < |s| == |t| && AllValid(s[pos+1..]) && AllValid(t[pos+1..]) && Printable(s) && Printable(t)
    ensures var u, v := Entering(s, pos), Entering(t, pos);
      && u[pos] == v[pos]
      && (u[i] == v[i] && u[pos + 1 + i] == v[pos + 1 + i] <==> LowerCase(s[i]) == LowerCase(t[i]))
  {
    hide Values, AllValid, Expand;
    var a, b := Lower(s[..pos]), Lower(t[..pos]);
    ExpandRecovers(a, i);
    ExpandRecovers(b, i);
    if a[i] == b[i] {
      ExpandAt(a, b, i);
    }
  }

  lemma ExpandAt(a: string, b: string, i: nat)
    requires i < |a| == |b| && a[i] == b[i]
    ensures |Expand(a)| == |Expand(b)| == 2 * |a| + 1
    ensures Expand(a)[i] == Expand(b)[i] && Expand(a)[|a| + 1 + i] == Expand(b)[|a| + 1 + i]
  {
    hide UpperBits, LowerBits;
  }

  /** Where the symbols that enter the checksum may differ. */
  lemma DifferencesCovered(s: string, t: string, pos: nat)
    requires pos < |s| == |t| && AllValid(s[pos+1..]) && AllValid(t[pos+1..]) && Printable(s) && Printable(t)
    requires s[pos] == t[pos]
    ensures var (a, b) := (ChangesBefore(s, t, pos), ChangesAfter(s, t, pos));
      && Differences(Entering(s, pos), Entering(t, pos)) <= a + MovedBy(a, pos + 1) + MovedBy(b, pos)
      && (a + b != {} ==> Differences(Entering(s, pos), Entering(t, pos)) != {})
  {
    hide Entering, LowerCase, AllValid, Printable;
    var u, v := Entering(s, pos), Entering(t, pos);
    var a, b := ChangesBefore(s, t, pos), ChangesAfter(s, t, pos);
    forall n | n in Differences(u, v) ensures n in a + MovedBy(a, pos + 1) + MovedBy(b, pos) {
      if n < pos {
        PrefixEnters(s, t, pos, n);
      } else if n == pos {
        if pos > 0 { PrefixEnters(s, t, pos, 0); } else { NoPrefix(s, t); }
      } else if n <= 2 * pos {
        PrefixEnters(s, t, pos, n - pos - 1);
        assert n - pos - 1 in a;
      } else {
        DataEnters(s, t, pos, n - pos);
        assert n - pos in b;
      }
    }
    if i :| i in a {
      PrefixEnters(s, t, pos, i);
      assert i in Differences(u, v) || pos + 1 + i in Differences(u, v);
    }
    if i :| i in b {
      assert i != pos;
      DataEnters(s, t, pos, i);
      assert i + pos in Differences(u, v);
    }
  }

  ghost function MovedBy(a: set<nat>, shift: nat): set<nat> {
    set n | n in a :: n + shift
  }

  lemma NoPrefix(s: string, t: string)
    requires 0 < |s| == |t| && AllValid(s[1..]) && AllValid(t[1..])
    ensures Entering(s, 0)[0] == Entering(t, 0)[0]
  {
    hide Values, AllValid;
    assert s[..0] == t[..0];
  }

  lemma {:induction false} SubsetSize(a: set<nat>, b: set<nat>)
    requires a <= b
    ensures |a| <= |b|
  {
    if a != {} {
      var x :| x in a;
      SubsetSize(a - {x}, b - {x});
    }
  }

  /** Few changes of a string are few errors of the symbols. */
  lemma ChangesAreErrors(s: string, t: string, pos: nat)
    requires FewChanges(s, t) && pos == LastSeparator(s) && AllValid(s[pos+1..]) && AllValid(t[pos+1..])
    requires Printable(s) && Printable(t)
    ensures FewErrors(Entering(s, pos), Entering(t, pos))
  {
    hide Entering, AllValid, Printable, LowerCase, LastSeparator, Differences, ChangesBefore, ChangesAfter, MovedBy,
         Changes;
    var u, v := Entering(s, pos), Entering(t, pos);
    var a, b, d := ChangesBefore(s, t, pos), ChangesAfter(s, t, pos), Differences(u, v);
    DifferencesCovered(s, t, pos);
    CoverSize(d, a, b, pos);
    assert d != {} by {
      if a == {} && b == {} { assert false; }
    }
    SizePositive(d);
    if a == {} {
      AfterWithin(s, t, pos);
      CoverWindow(d, b, pos);
    } else {
      DifferencesBelow(u, v);
    }
  }

  lemma SizePositive(d: set<nat>)
    requires d != {}
    ensures |d| >= 1
  {
  }

  lemma DifferencesBelow(u: seq<bv5>, v: seq<bv5>)
    requires |u| == |v|
    ensures forall n | n in Differences(u, v) :: n < |u|
  {
  }

  lemma AfterWithin(s: string, t: string, pos: int)
    requires |s| == |t| && forall i, j | i in Changes(s, t) && j in Changes(s, t) :: i < j + 1023
    ensures forall i, j | i in ChangesAfter(s, t, pos) && j in ChangesAfter(s, t, pos) :: i < j + 1023
  {
  }

  lemma CoverSize(d: set<nat>, a: set<nat>, b: set<nat>, pos: nat)
    requires d <= a + MovedBy(a, pos + 1) + MovedBy(b, pos)
    ensures |d| <= 2 * |a| + |b|
  {
    Moved(a, MovedBy(a, pos + 1), pos + 1);
    Moved(b, MovedBy(b, pos), pos);
    SubsetSize(d, a + MovedBy(a, pos + 1) + MovedBy(b, pos));
  }

  lemma CoverWindow(d: set<nat>, b: set<nat>, pos: nat)
    requires d <= {} + MovedBy({}, pos + 1) + MovedBy(b, pos)
    requires forall i, j | i in b && j in b :: i < j + 1023
    ensures forall i, j | i in d && j in d :: i < j + 1023
  {
    forall i, j | i in d && j in d ensures i < j + 1023 {
      assert i in MovedBy(b, pos) && j in MovedBy(b, pos);
      assert i - pos in b && j - pos in b;
    }
  }

  /** Up to three changed characters in the data of a string that decodes, or one in its prefix and at most one in the
      data: it no longer decodes under that encoding. */
  lemma ChangesRejected(s: string, t: string, limit: nat, limit': nat)
    requires DecodeResult(s, limit).Some? && FewChanges(s, t)
    ensures DecodeResult(t, limit').Some? ==>
      DecodeResult(t, limit').value.encoding != DecodeResult(s, limit).value.encoding
  {
    hide Run, Expand, Verified, Values, AllValid, Lower, Printable, HasLower, HasUpper, LastSeparator, FewChanges,
         FewErrors;
    if DecodeResult(t, limit').Some? {
      var pos := LastSeparator(s);
      assert LastSeparator(t) == pos && |s| == |t| by { FewKeep(s, t); }
      ChangesAreErrors(s, t, pos);
      ErrorsRejected(Lower(s[..pos]), Values(s[pos+1..]), Lower(t[..pos]), Values(t[pos+1..]),
        DecodeResult(s, limit).value.encoding);
    }
  }

  lemma FewKeep(s: string, t: string)
    requires FewChanges(s, t)
    ensures |s| == |t| && LastSeparator(t) == LastSeparator(s)
  {
  }
}

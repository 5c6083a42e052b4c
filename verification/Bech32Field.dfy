/** What the Bech32 checksum computes (src/bech32.cpp): the remainder of a polynomial over GF(32). */
module Bech32Fields {
  import opened Bech32s

  // ---------------------------------------------------------------------------------------------
  // The field
  // ---------------------------------------------------------------------------------------------

  /** Multiplication by a in GF(2)[a] modulo a^5 + a^3 + 1: bit i is the coefficient of a^i. */
  function Double(x: bv5): bv5 { Xor5(x << 1, If(x & 16, 9)) }

  function If(bit: bv5, x: bv5): bv5 { if bit != 0 then x else 0 }

  /** Multiplication in GF(32): the sum of a^i y over the bits i of x. */
  function Times(x: bv5, y: bv5): bv5 {
    var y1 := Double(y);
    var y2 := Double(y1);
    var y3 := Double(y2);
    var y4 := Double(y3);
    Xor5(Xor5(Xor5(Xor5(If(x & 1, y), If(x & 2, y1)), If(x & 4, y2)), If(x & 8, y3)), If(x & 16, y4))
  }

  /** {5} {26} = {9}. */
  lemma TimesExample()
    ensures Times(5, 26) == 9
  {
  }

  lemma TimesZero(x: bv5)
    ensures Times(x, 0) == 0 && Times(0, x) == 0
  {
  }

  lemma TimesOne(x: bv5)
    ensures Times(x, 1) == x
  {
  }

  lemma DoubleAdd(x: bv5, y: bv5)
    ensures Double(Xor5(x, y)) == Xor5(Double(x), Double(y))
  {
  }

  lemma IfAdd(bit: bv5, x: bv5, y: bv5)
    ensures If(bit, Xor5(x, y)) == Xor5(If(bit, x), If(bit, y))
  {
    hide Xor5;
    SumZero(0);
  }

  lemma MaskAdd(a: bv5, b: bv5, k: bv5)
    ensures Xor5(a, b) & k == Xor5(a & k, b & k)
  {
  }

  lemma IfBits(a: bv5, b: bv5, k: bv5, x: bv5)
    requires (a & k == 0 || a & k == k) && (b & k == 0 || b & k == k) && k != 0
    ensures If(Xor5(a, b) & k, x) == Xor5(If(a & k, x), If(b & k, x))
  {
    hide Xor5;
    MaskAdd(a, b, k);
    SumZero(0);
    SumZero(k);
    SumZero(x);
  }

  /** A number is the sum of its bits. */
  lemma Parts(b: bv5)
    ensures b == Xor5(Xor5(Xor5(Xor5(b & 1, b & 2), b & 4), b & 8), b & 16)
    ensures (b & 1 == 0 || b & 1 == 1) && (b & 2 == 0 || b & 2 == 2) && (b & 4 == 0 || b & 4 == 4)
    ensures (b & 8 == 0 || b & 8 == 8) && (b & 16 == 0 || b & 16 == 16)
  {
  }

  lemma SumSwaps(a1: bv5, a2: bv5, a3: bv5, a4: bv5, a5: bv5, b1: bv5, b2: bv5, b3: bv5, b4: bv5, b5: bv5)
    ensures Xor5(Xor5(Xor5(Xor5(Xor5(a1, b1), Xor5(a2, b2)), Xor5(a3, b3)), Xor5(a4, b4)), Xor5(a5, b5))
         == Xor5(Xor5(Xor5(Xor5(Xor5(a1, a2), a3), a4), a5), Xor5(Xor5(Xor5(Xor5(b1, b2), b3), b4), b5))
  {
    hide Xor5;
    SumSwap(a1, b1, a2, b2);
    SumSwap(Xor5(a1, a2), Xor5(b1, b2), a3, b3);
    SumSwap(Xor5(Xor5(a1, a2), a3), Xor5(Xor5(b1, b2), b3), a4, b4);
    SumSwap(Xor5(Xor5(Xor5(a1, a2), a3), a4), Xor5(Xor5(Xor5(b1, b2), b3), b4), a5, b5);
  }

  lemma IfAll(a: bv5, b: bv5, y0: bv5, y1: bv5, y2: bv5, y3: bv5, y4: bv5)
    ensures var c := Xor5(a, b);
      && If(c & 1, y0) == Xor5(If(a & 1, y0), If(b & 1, y0)) && If(c & 2, y1) == Xor5(If(a & 2, y1), If(b & 2, y1))
      && If(c & 4, y2) == Xor5(If(a & 4, y2), If(b & 4, y2)) && If(c & 8, y3) == Xor5(If(a & 8, y3), If(b & 8, y3))
      && If(c & 16, y4) == Xor5(If(a & 16, y4), If(b & 16, y4))
  {
    hide Xor5, If;
    Parts(a);
    Parts(b);
    IfBits(a, b, 1, y0);
    IfBits(a, b, 2, y1);
    IfBits(a, b, 4, y2);
    IfBits(a, b, 8, y3);
    IfBits(a, b, 16, y4);
  }

  /** Multiplication distributes over addition on the left. */
  lemma TimesLeft(a: bv5, b: bv5, y: bv5)
    ensures Times(Xor5(a, b), y) == Xor5(Times(a, y), Times(b, y))
  {
    hide Xor5, If, Double;
    var y1 := Double(y);
    var y2 := Double(y1);
    var y3 := Double(y2);
    var y4 := Double(y3);
    IfAll(a, b, y, y1, y2, y3, y4);
    SumSwaps(If(a & 1, y), If(a & 2, y1), If(a & 4, y2), If(a & 8, y3), If(a & 16, y4),
      If(b & 1, y), If(b & 2, y1), If(b & 4, y2), If(b & 8, y3), If(b & 16, y4));
  }

  /** And on the right. */
  lemma TimesRight(x: bv5, a: bv5, b: bv5)
    ensures Times(x, Xor5(a, b)) == Xor5(Times(x, a), Times(x, b))
  {
    hide Xor5, If, Double;
    var a1, b1 := Double(a), Double(b);
    var a2, b2 := Double(a1), Double(b1);
    var a3, b3 := Double(a2), Double(b2);
    var a4, b4 := Double(a3), Double(b3);
    DoubleAdd(a, b);
    DoubleAdd(a1, b1);
    DoubleAdd(a2, b2);
    DoubleAdd(a3, b3);
    IfAdd(x & 1, a, b);
    IfAdd(x & 2, a1, b1);
    IfAdd(x & 4, a2, b2);
    IfAdd(x & 8, a3, b3);
    IfAdd(x & 16, a4, b4);
    SumSwaps(If(x & 1, a), If(x & 2, a1), If(x & 4, a2), If(x & 8, a3), If(x & 16, a4),
      If(x & 1, b), If(x & 2, b1), If(x & 4, b2), If(x & 8, b3), If(x & 16, b4));
  }

  lemma SumZero(x: bv5)
    ensures Xor5(x, 0) == x && Xor5(0, x) == x && Xor5(x, x) == 0
  {
  }

  lemma SumSwap(a: bv5, b: bv5, c: bv5, d: bv5)
    ensures Xor5(Xor5(a, b), Xor5(c, d)) == Xor5(Xor5(a, c), Xor5(b, d))
  {
  }

  // ---------------------------------------------------------------------------------------------
  // Polynomials
  // ---------------------------------------------------------------------------------------------

  /** The coefficient of x^n of a polynomial, given from the highest coefficient down. */
  function Coef(p: seq<bv5>, n: int): bv5 {
    if 0 <= n < |p| then p[|p|-1-n] else 0
  }

  /** The generator: x^6 + {29}x^5 + {22}x^4 + {20}x^3 + {21}x^2 + {29}x + {18}. */
  const GENERATOR: seq<bv5> := [1, 29, 22, 20, 21, 29, 18]

  /** Coefficient n of q times the generator: the products of coefficients n - j and j, summed over j < i. */
  function Convolution(q: seq<bv5>, n: int, i: nat): bv5 {
    if i == 0 then 0 else Xor5(Convolution(q, n, i - 1), Times(Coef(q, n - (i - 1)), Coef(GENERATOR, i - 1)))
  }

  function Product(q: seq<bv5>, n: int): bv5 { Convolution(q, n, |GENERATOR|) }

  /** p is q times the generator plus r, and r has a lower degree than the generator. */
  ghost predicate IsRemainder(p: seq<bv5>, q: seq<bv5>, r: seq<bv5>) {
    |r| == |GENERATOR| - 1 && forall n: int :: Coef(p, n) == Xor5(Product(q, n), Coef(r, n))
  }

  /** One more coefficient of q: everything moves up, and its multiple of the generator is added. */
  lemma {:induction false} ConvolutionAppend(q: seq<bv5>, a: bv5, n: int, i: nat)
    ensures Convolution(q + [a], n, i) == Xor5(Convolution(q, n - 1, i),
      if 0 <= n < i then Times(a, Coef(GENERATOR, n)) else 0)
  {
    hide Times, Xor5;
    if i == 0 {
      SumZero(0);
    } else {
      ConvolutionAppend(q, a, n, i - 1);
      var k, g := n - (i - 1), Coef(GENERATOR, i - 1);
      var before, added := Convolution(q, n - 1, i - 1), if 0 <= n < i - 1 then Times(a, Coef(GENERATOR, n)) else 0;
      TimesZero(g);
      SumZero(Times(a, g));
      SumZero(Times(Coef(q, k - 1), g));
      SumZero(added);
      if k == 0 {
        assert Times(Coef(q + [a], k), g) == Xor5(Times(Coef(q, k - 1), g), Times(a, g));
        SumSwap(before, added, Times(Coef(q, k - 1), g), Times(a, g));
      } else {
        assert Coef(q + [a], k) == Coef(q, k - 1);
        SumSwap(before, added, Times(Coef(q, k - 1), g), 0);
        SumZero(Times(Coef(q, k - 1), g));
      }
    }
  }

  // ---------------------------------------------------------------------------------------------
  // The step
  // ---------------------------------------------------------------------------------------------

  function Low5(m: bv30): bv5 { (m & 31) as bv5 }

  /** The coefficient of x^n of a packed remainder. */
  function Symbol(m: bv30, n: nat): bv5 {
    if n == 0 then Low5(m) else if n == 1 then Low5(m >> 5) else if n == 2 then Low5(m >> 10)
    else if n == 3 then Low5(m >> 15) else if n == 4 then Low5(m >> 20) else if n == 5 then Low5(m >> 25)
    else 0
  }

  lemma SymbolIsGroup(m: bv30)
    ensures Symbol(m, 0) == Group(m, 0) && Symbol(m, 1) == Group(m, 5) && Symbol(m, 2) == Group(m, 10)
    ensures Symbol(m, 3) == Group(m, 15) && Symbol(m, 4) == Group(m, 20) && Symbol(m, 5) == Group(m, 25)
  {
  }

  lemma UnpackCoef(m: bv30, n: int)
    ensures Coef(Unpack(m), n) == if n >= 0 then Symbol(m, n) else 0
  {
    SymbolIsGroup(m);
    hide Group, Symbol;
    if n > 5 { NoSymbol(m, n); }
  }

  lemma NoSymbol(m: bv30, n: nat)
    requires n > 5
    ensures Symbol(m, n) == 0
  {
  }

  lemma SymbolLinear(a: bv30, b: bv30, n: nat)
    ensures Symbol(Xor(a, b), n) == Xor5(Symbol(a, n), Symbol(b, n))
  {
    hide Low5, Xor, Xor5;
    Linear0(a, b);
    Linear5(a, b);
    Linear10(a, b);
    Linear15(a, b);
    Linear20(a, b);
    Linear25(a, b);
    SumZero(0);
  }

  lemma Linear0(a: bv30, b: bv30)
    ensures Low5(Xor(a, b)) == Xor5(Low5(a), Low5(b))
  {
  }

  lemma Linear5(a: bv30, b: bv30)
    ensures Low5(Xor(a, b) >> 5) == Xor5(Low5(a >> 5), Low5(b >> 5))
  {
  }

  lemma Linear10(a: bv30, b: bv30)
    ensures Low5(Xor(a, b) >> 10) == Xor5(Low5(a >> 10), Low5(b >> 10))
  {
  }

  lemma Linear15(a: bv30, b: bv30)
    ensures Low5(Xor(a, b) >> 15) == Xor5(Low5(a >> 15), Low5(b >> 15))
  {
  }

  lemma Linear20(a: bv30, b: bv30)
    ensures Low5(Xor(a, b) >> 20) == Xor5(Low5(a >> 20), Low5(b >> 20))
  {
  }

  lemma Linear25(a: bv30, b: bv30)
    ensures Low5(Xor(a, b) >> 25) == Xor5(Low5(a >> 25), Low5(b >> 25))
  {
  }

  lemma SymbolShifted(c: bv30, v: bv5)
    ensures Symbol(Shifted(c, v), 0) == v && Symbol(Shifted(c, v), 1) == Symbol(c, 0)
    ensures Symbol(Shifted(c, v), 2) == Symbol(c, 1) && Symbol(Shifted(c, v), 3) == Symbol(c, 2)
    ensures Symbol(Shifted(c, v), 4) == Symbol(c, 3) && Symbol(Shifted(c, v), 5) == Symbol(c, 4)
  {
  }

  lemma TopBits(c: bv30)
    ensures (Top(c) & 1 != 0 <==> Symbol(c, 5) & 1 != 0) && (Top(c) & 2 != 0 <==> Symbol(c, 5) & 2 != 0)
    ensures (Top(c) & 4 != 0 <==> Symbol(c, 5) & 4 != 0) && (Top(c) & 8 != 0 <==> Symbol(c, 5) & 8 != 0)
    ensures Top(c) & 16 != 0 <==> Symbol(c, 5) & 16 != 0
  {
  }

  /** The five constants are {1}, {2}, {4}, {8} and {16} times x^6 modulo the generator. */
  lemma Constants(n: nat)
    requires n < 6
    ensures var g := Coef(GENERATOR, n);
      && Symbol(0x3b6a57b2, n) == g && Symbol(0x26508e6d, n) == Double(g) && Symbol(0x1ea119fa, n) == Double(Double(g))
      && Symbol(0x3d4233dd, n) == Double(Double(Double(g)))
        && Symbol(0x2a1462b3, n) == Double(Double(Double(Double(g))))
  {
  }

  lemma SymbolTerm(b: bool, k: bv30, n: nat, bit: bv5)
    requires b <==> bit != 0
    ensures Symbol(Term(b, k), n) == If(bit, Symbol(k, n))
  {
    SymbolNone(n);
    hide Symbol;
  }

  lemma SymbolNone(n: nat)
    ensures Symbol(0, n) == 0
  {
  }

  lemma SymbolTerms(c: bv30, n: nat, k1: bv30, k2: bv30, k3: bv30, k4: bv30, k5: bv30)
    ensures var t, a := Top(c), Symbol(c, 5);
      && Symbol(Term(t & 1 != 0, k1), n) == If(a & 1, Symbol(k1, n))
      && Symbol(Term(t & 2 != 0, k2), n) == If(a & 2, Symbol(k2, n))
      && Symbol(Term(t & 4 != 0, k3), n) == If(a & 4, Symbol(k3, n))
      && Symbol(Term(t & 8 != 0, k4), n) == If(a & 8, Symbol(k4, n))
      && Symbol(Term(t & 16 != 0, k5), n) == If(a & 16, Symbol(k5, n))
  {
    TopBits(c);
    hide Symbol, Term, If, Top;
    var t, a := Top(c), Symbol(c, 5);
    SymbolTerm(t & 1 != 0, k1, n, a & 1);
    SymbolTerm(t & 2 != 0, k2, n, a & 2);
    SymbolTerm(t & 4 != 0, k3, n, a & 4);
    SymbolTerm(t & 8 != 0, k4, n, a & 8);
    SymbolTerm(t & 16 != 0, k5, n, a & 16);
  }

  lemma SymbolSum(t1: bv30, t2: bv30, t3: bv30, t4: bv30, t5: bv30, n: nat)
    ensures Symbol(Xor(Xor(Xor(Xor(t1, t2), t3), t4), t5), n) ==
      Xor5(Xor5(Xor5(Xor5(Symbol(t1, n), Symbol(t2, n)), Symbol(t3, n)), Symbol(t4, n)), Symbol(t5, n))
  {
    hide Symbol, Xor, Xor5;
    SymbolLinear(t1, t2, n);
    SymbolLinear(Xor(t1, t2), t3, n);
    SymbolLinear(Xor(Xor(t1, t2), t3), t4, n);
    SymbolLinear(Xor(Xor(Xor(t1, t2), t3), t4), t5, n);
  }

  /** The reduction adds the leading coefficient times x^6 modulo the generator. */
  lemma SymbolReduction(c: bv30, n: nat)
    requires n < 6
    ensures Symbol(Reduction(Top(c)), n) == Times(Symbol(c, 5), Coef(GENERATOR, n))
  {
    hide Symbol, Xor, Xor5, Term, If, Double, Top, Coef;
    var t := Top(c);
    Constants(n);
    SymbolTerms(c, n, 0x3b6a57b2, 0x26508e6d, 0x1ea119fa, 0x3d4233dd, 0x2a1462b3);
    SymbolSum(Term(t & 1 != 0, 0x3b6a57b2), Term(t & 2 != 0, 0x26508e6d), Term(t & 4 != 0, 0x1ea119fa),
      Term(t & 8 != 0, 0x3d4233dd), Term(t & 16 != 0, 0x2a1462b3), n);
  }

  /** A step multiplies by x, adds the symbol, and takes off the leading coefficient's multiple of the generator. */
  lemma StepCoef(c: bv30, v: bv5, n: nat)
    ensures var r, a := Unpack(c), Symbol(c, 5);
      (if n == 0 then v else Coef(r, n - 1)) == Xor5(if n < 7 then Times(a, Coef(GENERATOR, n)) else 0,
        Coef(Unpack(Step(c, v)), n))
  {
    hide Unpack, Symbol, Xor5, Times, Shifted, Reduction, Top, Xor;
    var a, s := Symbol(c, 5), Step(c, v);
    UnpackCoef(s, n);
    UnpackCoef(c, n - 1);
    if n < 6 {
      SymbolLinear(Shifted(c, v), Reduction(Top(c)), n);
      SymbolReduction(c, n);
      SymbolShifted(c, v);
      Cancel(Symbol(Shifted(c, v), n), Times(a, Coef(GENERATOR, n)));
    } else {
      NoSymbol(s, n);
      TimesOne(a);
      SumZero(a);
      SumZero(0);
      if n > 6 { NoSymbol(c, n - 1); }
    }
  }

  lemma Cancel(x: bv5, y: bv5)
    ensures x == Xor5(y, Xor5(x, y))
  {
  }

  // ---------------------------------------------------------------------------------------------
  // The remainder
  // ---------------------------------------------------------------------------------------------

  /** The coefficients that the steps take off. */
  function Quotient(v: seq<bv5>): seq<bv5> {
    if v == [] then [] else Quotient(v[..|v|-1]) + [Symbol(Run(1, v[..|v|-1]), 5)]
  }

  lemma {:induction false} NoProduct(n: int, i: nat)
    ensures Convolution([], n, i) == 0
  {
    hide Times, Xor5;
    if i > 0 {
      NoProduct(n, i - 1);
      TimesZero(Coef(GENERATOR, i - 1));
      SumZero(0);
    }
  }

  /** PolyMod computes the remainder, modulo the generator, of the polynomial with a one and then the symbols as its
      coefficients. */
  lemma {:induction false} RunIsRemainder(v: seq<bv5>)
    ensures IsRemainder([1] + v, Quotient(v), Unpack(Run(1, v)))
    decreases |v|
  {
    hide Step, Symbol, Xor5, Times, Unpack, Run, Convolution;
    if v == [] {
      RunNone();
      forall n: int ensures Coef([1] + v, n) == Xor5(Product([], n), Coef(Unpack(1), n)) {
        NoProduct(n, |GENERATOR|);
        UnpackOne(n);
        SumZero(Coef([1], n));
      }
    } else {
      var u, d := v[..|v|-1], v[|v|-1];
      var c, q := Run(1, u), Quotient(u);
      var a := Symbol(c, 5);
      RunIsRemainder(u);
      RunNext(u, d);
      assert u + [d] == v;
      forall n: int ensures Coef([1] + v, n) == Xor5(Product(q + [a], n), Coef(Unpack(Step(c, d)), n)) {
        RemainderStep(u, d, c, q, n);
      }
    }
  }

  lemma RunNone()
    ensures Run(1, []) == 1
  {
  }

  lemma RunNext(u: seq<bv5>, d: bv5)
    ensures Run(1, u + [d]) == Step(Run(1, u), d)
  {
    RunAppend(1, u, [d]);
    RunCons(Run(1, u), d, []);
    assert [d] + [] == [d];
  }

  lemma UnpackOne(n: int)
    ensures Coef(Unpack(1), n) == Coef([1], n)
  {
    UnpackCoef(1, n);
  }

  lemma RemainderStep(u: seq<bv5>, d: bv5, c: bv30, q: seq<bv5>, n: int)
    requires IsRemainder([1] + u, q, Unpack(c))
    ensures Coef([1] + (u + [d]), n) == Xor5(Product(q + [Symbol(c, 5)], n), Coef(Unpack(Step(c, d)), n))
  {
    hide Step, Symbol, Xor5, Times, Unpack, Convolution;
    var a, p := Symbol(c, 5), [1] + u;
    assert [1] + (u + [d]) == p + [d];
    ConvolutionAppend(q, a, n, |GENERATOR|);
    var old_ := Product(q, n - 1);
    if n < 0 {
      NegativeProduct(q, n - 1, |GENERATOR|);
      SumZero(0);
    } else {
      StepCoef(c, d, n);
      var added, rest := if n < 7 then Times(a, Coef(GENERATOR, n)) else 0, Coef(Unpack(Step(c, d)), n);
      SumAssoc(old_, added, rest);
      if n == 0 {
        NegativeProduct(q, n - 1, |GENERATOR|);
        SumZero(d);
      } else {
        assert Coef(p + [d], n) == Coef(p, n - 1);
      }
    }
  }

  lemma SumAssoc(a: bv5, b: bv5, c: bv5)
    ensures Xor5(Xor5(a, b), c) == Xor5(a, Xor5(b, c))
  {
  }

  lemma {:induction false} NegativeProduct(q: seq<bv5>, n: int, i: nat)
    requires n < 0
    ensures Convolution(q, n, i) == 0
  {
    hide Times, Xor5;
    if i > 0 {
      NegativeProduct(q, n, i - 1);
      TimesZero(Coef(GENERATOR, i - 1));
      SumZero(0);
    }
  }

  /** Coefficients of the product depend on those of q from n down. */
  lemma {:induction false} SameConvolution(q: seq<bv5>, q': seq<bv5>, n: int, i: nat)
    requires forall m | n - i < m <= n :: Coef(q, m) == Coef(q', m)
    ensures Convolution(q, n, i) == Convolution(q', n, i)
  {
    if i > 0 { SameConvolution(q, q', n, i - 1); }
  }

  /** As the generator's leading coefficient is one, the high coefficients of the product determine q. */
  lemma {:induction false} SameQuotient(q: seq<bv5>, q': seq<bv5>, n: nat)
    requires forall k | k >= 6 :: Product(q, k) == Product(q', k)
    ensures forall m: nat | m >= n :: Coef(q, m) == Coef(q', m)
    decreases (if |q| < |q'| then |q'| else |q|) - n
  {
    if n < |q| || n < |q'| {
      SameQuotient(q, q', n + 1);
      SameConvolution(q, q', n + 6, 6);
      assert Product(q, n + 6) == Product(q', n + 6);
      hide Times, Xor5;
      TimesOne(Coef(q, n));
      TimesOne(Coef(q', n));
      SumCancels(Convolution(q, n + 6, 6), Coef(q, n), Coef(q', n));
    }
  }

  lemma SumCancels(a: bv5, x: bv5, y: bv5)
    ensures Xor5(a, x) == Xor5(a, y) ==> x == y
  {
    Cancel(x, a);
    Cancel(y, a);
  }

  /** There is only one remainder. */
  lemma RemainderUnique(p: seq<bv5>, q: seq<bv5>, r: seq<bv5>, q': seq<bv5>, r': seq<bv5>)
    requires IsRemainder(p, q, r) && IsRemainder(p, q', r')
    ensures r == r'
  {
    hide Convolution, Xor5, Times;
    forall k | k >= 6 ensures Product(q, k) == Product(q', k) {
      assert Coef(p, k) == Xor5(Product(q, k), Coef(r, k)) == Xor5(Product(q', k), Coef(r', k));
      SumZero(Product(q, k));
      SumZero(Product(q', k));
    }
    SameQuotient(q, q', 0);
    forall i | 0 <= i < 6 ensures r[i] == r'[i] {
      var n := 5 - i;
      SameConvolution(q, q', n, 7);
      assert Coef(p, n) == Xor5(Product(q, n), Coef(r, n)) == Xor5(Product(q', n), Coef(r', n));
      SumCancels(Product(q, n), Coef(r, n), Coef(r', n));
    }
  }
}

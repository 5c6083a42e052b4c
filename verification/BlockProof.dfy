/** Compact targets and the work of a block (src/arith_uint256.cpp, src/chain.cpp). */
module BlockProofs {
  import opened Ariths
  import opened Integers

  const WIDTH := 8

  /** A 256-bit number of at most 64 bits. */
  function FromUint64(x: nat): (s: seq<nat>)
    requires x < B * B
    ensures |s| == WIDTH && Limbs(s)
  {
    [x % B, x / B, 0, 0, 0, 0, 0, 0]
  }

  lemma FromUint64Val(x: nat)
    requires x < B * B
    ensures Val(FromUint64(x)) == x
  {
    var s := FromUint64(x);
    AllZeros(s[2..]);
    ValHead(s, 1);
    ValHead(s, 0);
    assert s[0..] == s;
  }

  function SizeOf(nCompact: nat): nat { nCompact / 0x100_0000 }

  function WordOf(nCompact: nat): nat { nCompact % 0x80_0000 }

  predicate SignOf(nCompact: nat) { (nCompact / 0x80_0000) % 2 == 1 }

  /** The number that a compact representation stands for: the mantissa times a power of 256. */
  function CompactValue(nCompact: nat): nat {
    Scale(WordOf(nCompact), SizeOf(nCompact))
  }

  function Scale(word: nat, size: nat): nat {
    if size <= 3 then ShiftedDown(word, 8 * (3 - size)) else ShiftedUp(word, 8 * (size - 3))
  }

  function ShiftedDown(word: nat, bits: nat): nat {
    DivShrinks(word, Pow2(bits));
    word / Pow2(bits)
  }

  function ShiftedUp(word: nat, bits: nat): nat { word * Pow2(bits) }

  /** SetCompact: the value, truncated to the width, and flags for what the representation cannot stand for. */
  method SetCompact(nCompact: nat) returns (pn: array<nat>, negative: bool, overflow: bool)
    requires nCompact < B
    ensures fresh(pn) && pn.Length == WIDTH && Limbs(pn[..]) && Val(pn[..]) == CompactValue(nCompact) % PowB(WIDTH)
    ensures overflow <==> CompactValue(nCompact) >= PowB(WIDTH)
    ensures negative <==> SignOf(nCompact) && CompactValue(nCompact) != 0
  {
    hide Val, PowB, Pow2, SizeOf, WordOf, SignOf, FromUint64, Limbs;
    var nSize := SizeOf(nCompact);
    var nWord := WordOf(nCompact);
    WordRange(nCompact);
    if nSize <= 3 {
      nWord := ShiftedDown(nWord, 8 * (3 - nSize));
      FromUint64Val(nWord);
      pn := ToArray(FromUint64(nWord));
      SmallWord(nWord);
    } else {
      FromUint64Val(nWord);
      pn := ToArray(FromUint64(nWord));
      ShiftLeft(pn, 8 * (nSize - 3));
      OverflowExact(nWord, nSize);
      Pow2Positive(8 * (nSize - 3));
      NonZeroProduct(nWord, Pow2(8 * (nSize - 3)));
    }
    negative := nWord != 0 && SignOf(nCompact);
    overflow := nWord != 0 && (nSize > 34 || (nWord > 0xff && nSize > 33) || (nWord > 0xffff && nSize > 32));
  }

  lemma WordRange(nCompact: nat)
    requires nCompact < B
    ensures WordOf(nCompact) < 0x80_0000 && SizeOf(nCompact) < 256
    ensures SizeOf(nCompact) <= 3 ==> ShiftedDown(WordOf(nCompact), 8 * (3 - SizeOf(nCompact))) < 0x80_0000
  {
    if SizeOf(nCompact) <= 3 {
      var p := Pow2(8 * (3 - SizeOf(nCompact)));
      DivShrinks(WordOf(nCompact), p);
    }
  }

  lemma DivShrinks(x: nat, p: nat)
    requires p > 0
    ensures 0 <= x / p <= x
  {
    MulMono(1, p, x / p);
    assert x == (x / p) * p + x % p;
  }

  lemma NonZeroProduct(x: nat, p: nat)
    requires p > 0
    ensures x * p == 0 <==> x == 0
  {
    if x > 0 {
      MulMono(1, x, p);
    }
  }

  lemma SmallWord(nWord: nat)
    requires nWord < 0x80_0000
    ensures nWord < PowB(WIDTH) && nWord % PowB(WIDTH) == nWord
  {
    Pow2Values();
    PowBIsPow2(WIDTH);
    Pow2Grows(24, 32 * WIDTH);
    Reduced(nWord, PowB(WIDTH));
  }

  /** The overflow flag is set exactly when the value does not fit into 256 bits. */
  lemma OverflowExact(nWord: nat, nSize: nat)
    requires nWord < 0x80_0000 && nSize > 3
    ensures nWord * Pow2(8 * (nSize - 3)) >= PowB(WIDTH) <==>
      (nWord != 0 && (nSize > 34 || (nWord > 0xff && nSize > 33) || (nWord > 0xffff && nSize > 32)))
  {
    hide Pow2, PowB;
    var s := 8 * (nSize - 3);
    PowBIsPow2(WIDTH);
    Pow2Values();
    Pow2Positive(s);
    if nSize > 34 {
      Pow2Grows(256, s);
      if nWord > 0 {
        MulMono(1, nWord, Pow2(s));
      }
    } else if nSize == 34 {
      Threshold(nWord, 8, s);
    } else if nSize == 33 {
      Threshold(nWord, 16, s);
    } else {
      Threshold(nWord, 24, 232);
      Pow2Grows(s, 232);
      MulMono(Pow2(s), Pow2(232), nWord);
    }
  }

  lemma Threshold(x: nat, i: nat, s: nat)
    requires i + s == 256
    ensures x * Pow2(s) >= Pow2(256) <==> x >= Pow2(i)
  {
    hide Pow2;
    Pow2Sum(i, s);
    Pow2Positive(s);
    if x >= Pow2(i) {
      MulMono(Pow2(i), x, Pow2(s));
    } else {
      BelowProduct(x, Pow2(i), Pow2(s));
    }
  }

  /** bnTarget == 0. */
  method IsZero(s: seq<nat>) returns (r: bool)
    requires Limbs(s)
    ensures r <==> Val(s) == 0
  {
    var i := |s| - 1;
    while i >= 0
      invariant -1 <= i < |s| && forall j | i < j < |s| :: s[j] == 0
    {
      if s[i] != 0 {
        ValSplit(s, i);
        ValHead(s, i);
        NonZeroProduct(Val(s[i..]), PowB(i));
        return false;
      }
      i := i - 1;
    }
    AllZeros(s);
    return true;
  }

  /** The work of a block: for a target that is positive and fits, floor(2^256 / (target + 1)), although neither 2^256
      nor possibly its quotient by one fits into the type; and zero for any other. */
  method GetBlockProof(nBits: nat) returns (r: seq<nat>)
    requires nBits < B
    ensures |r| == WIDTH && Limbs(r)
    ensures var target := CompactValue(nBits);
      Val(r) == if SignOf(nBits) || target == 0 || target >= Pow2(256) then 0 else Pow2(256) / (target + 1)
  {
    hide Val, PowB, Pow2, CompactValue;
    var pn, negative, overflow := SetCompact(nBits);
    var bnTarget := pn[..];
    PowBIsPow2(WIDTH);
    FromUint64Val(0);
    var zero := IsZero(bnTarget);
    ghost var target := CompactValue(nBits);
    if !overflow {
      Reduced(target, PowB(WIDTH));
    }
    if negative || overflow || zero {
      return FromUint64(0);
    }
    FromUint64Val(1);
    ComplementVal(bnTarget);
    TargetRoom(nBits);
    var next := ToArray(bnTarget);
    Add(next, FromUint64(1));
    Reduced(target + 1, PowB(WIDTH));
    var q := Divide(Complement(bnTarget), next[..]);
    var sum := ToArray(q.value);
    Add(sum, FromUint64(1));
    ProofIdentity(PowB(WIDTH), target);
    Reduced(PowB(WIDTH) / (target + 1), PowB(WIDTH));
    return sum[..];
  }

  /** A target that fits is not the greatest 256-bit number, so that target + 1 fits too. */
  lemma TargetRoom(nCompact: nat)
    requires nCompact < B && CompactValue(nCompact) < PowB(WIDTH)
    ensures CompactValue(nCompact) + 1 < PowB(WIDTH)
  {
    hide Pow2, PowB;
    WordRange(nCompact);
    var size, word := SizeOf(nCompact), WordOf(nCompact);
    PowBIsPow2(WIDTH);
    if size <= 3 {
      Pow2Values();
      Pow2Grows(24, 256);
    } else {
      EvenProduct(word, 8 * (size - 3));
      EvenProduct(1, 256);
    }
  }

  lemma EvenProduct(x: nat, s: nat)
    requires s > 0
    ensures (x * Pow2(s)) % 2 == 0
  {
    assert x * Pow2(s) == 2 * (x * Pow2(s - 1));
  }

  /** (m - 1 - t) / (t + 1) + 1 is m / (t + 1). */
  lemma ProofIdentity(m: nat, t: nat)
    requires 0 < t && t + 1 < m
    ensures (m - 1 - t) / (t + 1) + 1 == m / (t + 1) < m
  {
    var d := t + 1;
    var q, e := (m - d) / d, (m - d) % d;
    assert m - d == q * d + e;
    assert (q + 1) * d == q * d + d;
    DivModIs(m, d, q + 1, e);
    MulMono(2, d, q + 1);
  }

  // ---------------------------------------------------------------------------------------------
  // The compact form of a number
  // ---------------------------------------------------------------------------------------------

  /** v without its k lowest bytes. */
  function Rounded(v: nat, k: nat): int { (v / Pow2(8 * k)) * Pow2(8 * k) }

  function Over3(size: nat): nat { if size > 3 then size - 3 else 0 }

  method GetLow64(s: seq<nat>) returns (r: nat)
    requires |s| == WIDTH && Limbs(s)
    ensures Val(s) < B * B ==> r == Val(s)
  {
    r := s[0] + s[1] * B;
    assert s[..2] == [s[0], s[1]];
    ValSplit(s, 2);
    assert Val([s[0], s[1]]) == s[0] + B * Val([s[1]]) && Val([s[1]]) == s[1];
    assert PowB(2) == B * B;
    if Val(s[2..]) > 0 {
      MulMono(1, Val(s[2..]), PowB(2));
    }
  }

  /** GetCompact: the two internal assertions hold, and reading the result back gives the number with only the bytes
      below the mantissa dropped. */
  /** The size in bytes, and the three highest of them. */
  method Mantissa(a: seq<nat>) returns (nSize: nat, word: nat)
    requires |a| == WIDTH && Limbs(a)
    ensures nSize <= 32 && word < 0x100_0000 && (nSize > 3 ==> word >= 0x1_0000)
    ensures Scale(word, nSize) == Rounded(Val(a), Over3(nSize))
    ensures if nSize <= 3 then word == Val(a) * Pow2(8 * (3 - nSize)) else word == Val(a) / Pow2(8 * (nSize - 3))
  {
    hide Val, PowB, Pow2, Limbs, Scale, Rounded;
    ghost var v := Val(a);
    var bits := Bits(a);
    nSize := (bits + 7) / 8;
    if nSize <= 3 {
      SmallMantissa(v, bits, nSize);
      var low := GetLow64(a);
      word := low * Pow2(8 * (3 - nSize));
    } else {
      LargeMantissa(v, bits, nSize);
      var bn := ToArray(a);
      ShiftRight(bn, 8 * (nSize - 3));
      word := GetLow64(bn[..]);
    }
  }

  lemma SignBit(word: nat)
    requires word < 0x100_0000
    ensures (word / 0x80_0000) % 2 == 1 <==> word >= 0x80_0000
  {
  }

  method GetCompact(a: seq<nat>, fNegative: bool) returns (nCompact: nat)
    requires |a| == WIDTH && Limbs(a)
    ensures nCompact < B && CompactValue(nCompact) == Rounded(Val(a), Over3(SizeOf(nCompact))) < PowB(WIDTH)
    ensures SignOf(nCompact) <==> fNegative && WordOf(nCompact) != 0
    ensures SizeOf(nCompact) <= 33 && (WordOf(nCompact) >= 0x8000 || SizeOf(nCompact) <= 3)
  {
    hide Val, PowB, Pow2, Limbs, Scale, Rounded, SizeOf, WordOf, SignOf;
    ghost var v := Val(a);
    var nSize, word := Mantissa(a);
    SignBit(word);
    if (word / 0x80_0000) % 2 == 1 {
      SignBitMoved(v, word, nSize);
      word := word / 256;
      nSize := nSize + 1;
    }
    assert word < 0x80_0000 && nSize < 256;
    Assembled(word, nSize, fNegative && word != 0);
    RoundedBelow(v, Over3(nSize));
    ValBound(a);
    nCompact := word + nSize * 0x100_0000 + if fNegative && word != 0 then 0x80_0000 else 0;
  }

  lemma Assembled(word: nat, size: nat, sign: bool)
    requires word < 0x80_0000 && size < 256
    ensures var n := word + size * 0x100_0000 + if sign then 0x80_0000 else 0;
      n < B && SizeOf(n) == size && WordOf(n) == word && (SignOf(n) <==> sign)
  {
  }

  lemma RoundedBelow(v: nat, k: nat)
    ensures Rounded(v, k) <= v
  {
    assert v == (v / Pow2(8 * k)) * Pow2(8 * k) + v % Pow2(8 * k);
  }

  /** v takes at most 3 bytes: the mantissa is v, shifted up to fill them. */
  lemma SmallMantissa(v: nat, bits: nat, size: nat)
    requires v < Pow2(bits) && size == (bits + 7) / 8 <= 3
    ensures v < B * B && v * Pow2(8 * (3 - size)) < 0x100_0000
    ensures Scale(v * Pow2(8 * (3 - size)), size) == Rounded(v, Over3(size))
  {
    hide Pow2;
    Pow2Grows(bits, 8 * size);
    Pow2Values();
    Pow2Sum(8 * size, 8 * (3 - size));
    Pow2Positive(8 * (3 - size));
    BelowProduct(v, Pow2(8 * size), Pow2(8 * (3 - size)));
    Pow2Grows(8 * size, 24);
    Pow2Zero();
    DivModIs(v * Pow2(8 * (3 - size)), Pow2(8 * (3 - size)), v, 0);
    assert Rounded(v, 0) == v;
  }

  /** v takes more: the mantissa is its top 3 bytes. */
  lemma LargeMantissa(v: nat, bits: nat, size: nat)
    requires v < Pow2(bits) && size == (bits + 7) / 8 > 3 && Pow2(bits - 1) <= v
    ensures v / Pow2(8 * (size - 3)) < 0x100_0000 && v / Pow2(8 * (size - 3)) >= 0x1_0000
      && v / Pow2(8 * (size - 3)) < B * B
    ensures Scale(v / Pow2(8 * (size - 3)), size) == Rounded(v, Over3(size))
  {
    hide Pow2;
    var p := Pow2(8 * (size - 3));
    Pow2Values();
    Pow2Grows(bits, 8 * size);
    Pow2Grows(8 * (size - 1), bits - 1);
    Pow2Sum(24, 8 * (size - 3));
    Pow2Sum(16, 8 * (size - 3));
    DivBetween(v, p, 0x1_0000, 0x100_0000);
  }

  lemma DivBetween(v: nat, p: nat, lower: nat, upper: nat)
    requires p > 0 && lower * p <= v < upper * p
    ensures lower <= v / p < upper
  {
    var q := v / p;
    assert v == q * p + v % p;
    if q < lower {
      MulMono(q + 1, lower, p);
    } else if q >= upper {
      MulMono(upper, q, p);
    }
  }

  /** Moving a mantissa that would set the sign bit down by a byte keeps all but that byte. */
  lemma SignBitMoved(v: nat, word: nat, size: nat)
    requires 0x80_0000 <= word < 0x100_0000
    requires if size <= 3 then word == v * Pow2(8 * (3 - size)) else word == v / Pow2(8 * (size - 3))
    ensures Scale(word / 256, size + 1) == Rounded(v, Over3(size + 1)) && word / 256 < 0x80_0000
  {
    hide Pow2;
    Pow2Values();
    Pow2Zero();
    if size < 3 {
      var j := 8 * (2 - size);
      Pow2Sum(j, 8);
      Assoc(v, Pow2(j), 256);
      assert word == (v * Pow2(j)) * 256;
      assert word / 256 == v * Pow2(j);
      Pow2Positive(j);
      DivModIs(v * Pow2(j), Pow2(j), v, 0);
      assert Rounded(v, 0) == v;
    } else {
      var p := Pow2(8 * (size - 3));
      Pow2Sum(8 * (size - 3), 8);
      Pow2Positive(8 * (size - 3));
      DivTwice(v, p);
    }
  }

  lemma DivTwice(v: nat, p: nat)
    requires p > 0
    ensures (v / p) / 256 == v / (p * 256)
  {
    var q, e := v / p, v % p;
    var q', e' := q / 256, q % 256;
    assert v == q * p + e && q == q' * 256 + e';
    assert q * p == q' * (p * 256) + e' * p;
    FitsIn(e, e', 256, p);
    DivModIs(v, p * 256, q', e' * p + e);
  }
}

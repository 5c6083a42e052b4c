/** Known strings (src/test/bech32_tests.cpp): the shortest valid Bech32 and Bech32m strings decode, and are encoded, as
    they should. */
module Bech32Vectors {
  import opened Bech32s
  import opened Options

  /** One step on known values, and the rest. */
  lemma RunNext(c: bv30, v: seq<bv5>, after: bv30, result: bv30)
    requires v != [] && Step(c, v[0]) == after && Run(after, v[1..]) == result
    ensures Run(c, v) == result
  {
    hide Step;
  }

  lemma RunNone(c: bv30)
    ensures Run(c, []) == c
  {
  }

  /** A step with reduction, from its parts. */
  lemma StepIs(c: bv30, v: bv5, shifted: bv30, top: bv30, reduction: bv30, after: bv30)
    requires Shifted(c, v) == shifted && Top(c) == top && Reduction(top) == reduction
    requires Xor(shifted, reduction) == after
    ensures Step(c, v) == after
  {
    hide Shifted, Top, Reduction, Xor;
  }

  lemma ShiftSteps()
    ensures Step(0x1, 3) == 0x23
    ensures Step(0x23, 0) == 0x460
    ensures Step(0x460, 1) == 0x8c01
    ensures Step(0x8c01, 10) == 0x11802a
    ensures Step(0x11802a, 28) == 0x230055c
    ensures Step(0x8c01, 31) == 0x11803f
    ensures Step(0x11803f, 0) == 0x23007e0
  {
    hide Step;
    StepShifts(0x1, 3);
    StepShifts(0x23, 0);
    StepShifts(0x460, 1);
    StepShifts(0x8c01, 10);
    StepShifts(0x11802a, 28);
    StepShifts(0x8c01, 31);
    StepShifts(0x11803f, 0);
  }

  lemma Reductions()
    ensures Reduction(1) == 0x3b6a57b2
    ensures Reduction(30) == 0x2fa7c6f9
    ensures Reduction(18) == 0xc44ecde
  {
  }

  lemma ReductionSteps()
    ensures Step(0x230055c, 25) == 0x3d6afc2b
    ensures Step(0x3d6afc2b, 31) == 0x2f84386
    ensures Step(0x2f84386, 20) == 0x24622766
    ensures Step(0x24622766, 31) == 0x1
    ensures Step(0x23007e0, 9) == 0x3d6aabbb
    ensures Step(0x3d6aabbb, 19) == 0x2f2b18a
    ensures Step(0x2f2b18a, 17) == 0x253c66e3
    ensures Step(0x253c66e3, 29) == 0x2bc830a3
  {
    hide Step, Reduction;
    Reductions();
    StepIs(0x230055c, 25, 0x600ab99, 1, 0x3b6a57b2, 0x3d6afc2b);
    StepIs(0x3d6afc2b, 31, 0x2d5f857f, 30, 0x2fa7c6f9, 0x2f84386);
    StepIs(0x2f84386, 20, 0x1f0870d4, 1, 0x3b6a57b2, 0x24622766);
    StepIs(0x24622766, 31, 0xc44ecdf, 18, 0xc44ecde, 0x1);
    StepIs(0x23007e0, 9, 0x600fc09, 1, 0x3b6a57b2, 0x3d6aabbb);
    StepIs(0x3d6aabbb, 19, 0x2d557773, 30, 0x2fa7c6f9, 0x2f2b18a);
    StepIs(0x2f2b18a, 17, 0x1e563151, 1, 0x3b6a57b2, 0x253c66e3);
    StepIs(0x253c66e3, 29, 0x278cdc7d, 18, 0xc44ecde, 0x2bc830a3);
  }

  lemma Bech32Run()
    ensures Run(1, [3, 0, 1, 10, 28, 25, 31, 20, 31]) == 0x1
  {
    hide Step, Run;
    ShiftSteps();
    ReductionSteps();
    var v: seq<bv5> := [3, 0, 1, 10, 28, 25, 31, 20, 31];
    assert v[9..] == [];
    RunNone(0x1);
    RunNext(0x24622766, v[8..], 0x1, 0x1);
    RunNext(0x2f84386, v[7..], 0x24622766, 0x1);
    RunNext(0x3d6afc2b, v[6..], 0x2f84386, 0x1);
    RunNext(0x230055c, v[5..], 0x3d6afc2b, 0x1);
    RunNext(0x11802a, v[4..], 0x230055c, 0x1);
    RunNext(0x8c01, v[3..], 0x11802a, 0x1);
    RunNext(0x460, v[2..], 0x8c01, 0x1);
    RunNext(0x23, v[1..], 0x460, 0x1);
    RunNext(0x1, v[0..], 0x23, 0x1);
    assert v[0..] == v;
  }

  lemma Bech32mRun()
    ensures Run(1, [3, 0, 1, 31, 0, 9, 19, 17, 29]) == 0x2bc830a3
  {
    hide Step, Run;
    ShiftSteps();
    ReductionSteps();
    var v: seq<bv5> := [3, 0, 1, 31, 0, 9, 19, 17, 29];
    assert v[9..] == [];
    RunNone(0x2bc830a3);
    RunNext(0x253c66e3, v[8..], 0x2bc830a3, 0x2bc830a3);
    RunNext(0x2f2b18a, v[7..], 0x253c66e3, 0x2bc830a3);
    RunNext(0x3d6aabbb, v[6..], 0x2f2b18a, 0x2bc830a3);
    RunNext(0x23007e0, v[5..], 0x3d6aabbb, 0x2bc830a3);
    RunNext(0x11803f, v[4..], 0x23007e0, 0x2bc830a3);
    RunNext(0x8c01, v[3..], 0x11803f, 0x2bc830a3);
    RunNext(0x460, v[2..], 0x8c01, 0x2bc830a3);
    RunNext(0x23, v[1..], 0x460, 0x2bc830a3);
    RunNext(0x1, v[0..], 0x23, 0x2bc830a3);
    assert v[0..] == v;
  }

  /** The string without data whose prefix is a single letter, for Bech32. */
  lemma ShortestBech32()
    ensures DecodeResult("a12uel5l", 90) == Some(Decoded(BECH32, "a", []))
    ensures Encoded(BECH32, "a", []) == "a12uel5l"
  {
    hide Run, Expand, Step, Verified, ValueOf, Checksum, DecodeResult, Encoded;
    var values: seq<bv5> := [10, 28, 25, 31, 20, 31];
    assert Expand("a") + values == [3, 0, 1, 10, 28, 25, 31, 20, 31] by { ExpandA(); }
    Bech32Run();
    VerifiedIs("a", values, BECH32);
    assert AllValid("2uel5l") && Values("2uel5l") == values by { Bech32Values(); }
    assert "a1" + "2uel5l" == "a12uel5l";
    Shape("2uel5l");
    var str := "a12uel5l";
    assert str[1+1..] == "2uel5l" && str[..1] == "a";
    DecodeResultIs(str, 90, 1, "a", values, BECH32);
    EncodeDecode(str, 90);
  }

  lemma Bech32Values()
    ensures AllValid("2uel5l") && Values("2uel5l") == [10, 28, 25, 31, 20, 31]
  {
  }

  /** The string without data whose prefix is a single letter, for Bech32m. */
  lemma ShortestBech32m()
    ensures DecodeResult("a1lqfn3a", 90) == Some(Decoded(BECH32M, "a", []))
    ensures Encoded(BECH32M, "a", []) == "a1lqfn3a"
  {
    hide Run, Expand, Step, Verified, ValueOf, Checksum, DecodeResult, Encoded;
    var values: seq<bv5> := [31, 0, 9, 19, 17, 29];
    assert Expand("a") + values == [3, 0, 1, 31, 0, 9, 19, 17, 29] by { ExpandA(); }
    Bech32mRun();
    VerifiedIs("a", values, BECH32M);
    assert AllValid("lqfn3a") && Values("lqfn3a") == values by { Bech32mValues(); }
    assert "a1" + "lqfn3a" == "a1lqfn3a";
    Shape("lqfn3a");
    var str := "a1lqfn3a";
    assert str[1+1..] == "lqfn3a" && str[..1] == "a";
    DecodeResultIs(str, 90, 1, "a", values, BECH32M);
    EncodeDecode(str, 90);
  }

  lemma Bech32mValues()
    ensures AllValid("lqfn3a") && Values("lqfn3a") == [31, 0, 9, 19, 17, 29]
  {
  }

  lemma ExpandA()
    ensures Expand("a") == [3, 0, 1]
  {
    assert UpperBits('a') == 3 && LowerBits('a') == 1;
  }

  lemma Shape(data: string)
    requires data == "2uel5l" || data == "lqfn3a"
    ensures var s := "a1" + data;
      && Printable(s) && !HasUpper(s) && LastSeparator(s) == 1 && s[2..] == data
      && Lower(s[..1]) == "a" && Lower(s) == s
  {
    hide LastSeparator;
    var s := "a1" + data;
    assert s[..1] == "a" && s[2..] == data;
    LowerSame(s);
    LowerSame("a");
    assert s[1] == '1' && forall i | 1 < i < |s| :: s[i] != '1';
  }
}

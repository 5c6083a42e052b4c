/** Base58 (src/base58.cpp): radix conversion in a buffer whose size is estimated in advance. */
module Base58s {
  import opened Integers
  import opened Options

  // ---------------------------------------------------------------------------------------------
  // Numbers and their digits, most significant first
  // ---------------------------------------------------------------------------------------------

  function Pow(b: nat, n: nat): nat {
    if n == 0 then 1 else b * Pow(b, n - 1)
  }

  ghost predicate AreDigits(s: seq<nat>, b: nat) {
    forall i | 0 <= i < |s| :: s[i] < b
  }

  ghost function Num(s: seq<nat>, b: nat): nat {
    if s == [] then 0 else Num(s[..|s|-1], b) * b + s[|s|-1]
  }

  /** The digits of a number, without leading zeroes. */
  ghost function Digits(v: nat, b: nat): seq<nat>
    requires b > 1
  {
    if v == 0 then []
    else
      DivSmaller(v, b);
      Digits(v / b, b) + [v % b]
  }

  lemma {:induction false} PowPositive(b: nat, n: nat)
    requires b > 0
    ensures Pow(b, n) > 0
  {
    if n > 0 {
      PowPositive(b, n - 1);
      MulMono(1, b, Pow(b, n - 1));
    }
  }

  lemma {:induction false} PowSum(b: nat, m: nat, n: nat)
    ensures Pow(b, m + n) == Pow(b, m) * Pow(b, n)
  {
    if m == 0 {
      assert Pow(b, m) == 1;
    } else {
      PowSum(b, m - 1, n);
      assert Pow(b, m + n) == b * Pow(b, m + n - 1);
      hide Pow;
      Assoc(b, Pow(b, m - 1), Pow(b, n));
    }
  }

  lemma {:induction false} PowMono(b: nat, m: nat, n: nat)
    requires b > 0 && m <= n
    ensures Pow(b, m) <= Pow(b, n)
  {
    if m < n {
      PowMono(b, m, n - 1);
      PowPositive(b, n - 1);
      MulMono(1, b, Pow(b, n - 1));
    }
  }

  lemma {:induction false} NumAppend(s: seq<nat>, t: seq<nat>, b: nat)
    ensures Num(s + t, b) == Num(s, b) * Pow(b, |t|) + Num(t, b)
  {
    if t == [] {
      assert s + t == s;
    } else {
      var n := |t| - 1;
      assert (s + t)[..|s + t|-1] == s + t[..n];
      NumAppend(s, t[..n], b);
      NumAppendStep(Num(s, b), Pow(b, n), Num(t[..n], b), b, t[n]);
    }
  }

  lemma NumAppendStep(x: nat, p: nat, y: nat, b: nat, d: nat)
    ensures (x * p + y) * b + d == x * (b * p) + (y * b + d)
  {
    assert (x * p) * b == x * (b * p);
    assert (x * p + y) * b == (x * p) * b + y * b;
  }

  lemma {:induction false} NumBound(s: seq<nat>, b: nat)
    requires AreDigits(s, b) && b > 0
    ensures Num(s, b) < Pow(b, |s|)
  {
    if s != [] {
      var n := |s| - 1;
      NumBound(s[..n], b);
      MulMono(Num(s[..n], b) + 1, Pow(b, n), b);
      assert (Num(s[..n], b) + 1) * b == Num(s[..n], b) * b + b;
    }
  }

  lemma {:induction false} NumZeros(s: seq<nat>, b: nat)
    requires forall i | 0 <= i < |s| :: s[i] == 0
    ensures Num(s, b) == 0
  {
    if s != [] {
      NumZeros(s[..|s|-1], b);
    }
  }

  lemma {:induction false} NumDigits(v: nat, b: nat)
    requires b > 1
    ensures Num(Digits(v, b), b) == v && AreDigits(Digits(v, b), b) && (v > 0 ==> Digits(v, b)[0] != 0)
  {
    if v > 0 {
      DivSmaller(v, b);
      NumDigits(v / b, b);
      var s := Digits(v / b, b);
      assert (s + [v % b])[..|s|] == s;
    }
  }

  lemma DivSmaller(v: nat, b: nat)
    requires v > 0 && b > 1
    ensures 0 <= v / b < v && v == (v / b) * b + v % b
  {
    if v / b >= v {
      MulMono(v, v / b, b);
      MulMono(2, b, v);
    }
  }

  /** Digits without a leading zero are the digits of their number. */
  lemma {:induction false} DigitsNum(s: seq<nat>, b: nat)
    requires b > 1 && AreDigits(s, b) && (s != [] ==> s[0] != 0)
    ensures Digits(Num(s, b), b) == s
  {
    if s != [] {
      var n := |s| - 1;
      DivModIs(Num(s, b), b, Num(s[..n], b), s[n]);
      DigitsNum(s[..n], b);
      assert n > 0 ==> Num(s[..n], b) != 0;
    }
  }

  /** A number with its full length of digits does not start with a zero. */
  lemma FirstDigit(s: seq<nat>, b: nat)
    requires b > 1 && AreDigits(s, b) && s != [] && Num(s, b) >= Pow(b, |s| - 1)
    ensures s[0] != 0
  {
    if s[0] == 0 {
      assert s == [s[0]] + s[1..];
      NumAppend([s[0]], s[1..], b);
      NumZeros([s[0]], b);
      NumBound(s[1..], b);
    }
  }

  // ---------------------------------------------------------------------------------------------
  // One step of the conversion
  // ---------------------------------------------------------------------------------------------

  /** buf = buf * factor + digit in base b, over at least the last length digits and as far as there is a carry. */
  method MulAdd(buf: array<nat>, factor: nat, b: nat, digit: nat, length: nat) returns (carry: nat, i: nat)
    requires b > 1 && AreDigits(buf[..], b) && length <= buf.Length
      && forall j | 0 <= j < buf.Length - length :: buf[j] == 0
    modifies buf
    ensures length <= i <= buf.Length || carry != 0
    ensures AreDigits(buf[..], b) && i <= buf.Length
      && (carry == 0 ==> forall j | 0 <= j < buf.Length - i :: buf[j] == 0)
    ensures var v := Num(old(buf[..]), b) * factor + digit;
      && (carry == 0 ==> Num(buf[..], b) == v && v < Pow(b, i) && (i > length ==> v >= Pow(b, i - 1)))
      && (carry != 0 ==> v >= Pow(b, buf.Length))
  {
    hide Low, Pow, AreDigits;
    ghost var s0 := buf[..];
    carry := digit;
    i := 0;
    var size := buf.Length;
    LowNone(s0, b);
    while (carry != 0 || i < length) && i < size
      invariant 0 <= i <= size && AreDigits(buf[..], b) && (forall j | 0 <= j < size - i :: buf[j] == s0[j])
      invariant Low(buf[..], i, b) + carry * Pow(b, i) == Low(s0, i, b) * factor + digit
      invariant i > length ==> Num(s0, b) * factor + digit >= Pow(b, i - 1)
      decreases size - i
    {
      var p := size - i - 1;
      if i >= length {
        LowAll(s0, i, b);
        CarryBound(Low(buf[..], i, b), carry, Pow(b, i));
      }
      LowStep(s0, buf[..], i, factor, digit, b, carry);
      carry := carry + factor * buf[p];
      buf[p] := carry % b;
      carry := carry / b;
      i := i + 1;
    }
    if carry == 0 {
      LowAll(s0, i, b);
      LowAll(buf[..], i, b);
      LowBound(buf[..], i, b);
    } else {
      LowAll(s0, i, b);
      CarryBound(Low(buf[..], i, b), carry, Pow(b, i));
    }
  }

  /** The number that the last i digits make up. */
  ghost function Low(s: seq<nat>, i: nat, b: nat): nat
    requires i <= |s|
  {
    Num(s[|s|-i..], b)
  }

  lemma LowNone(s: seq<nat>, b: nat)
    ensures Low(s, 0, b) == 0 && Pow(b, 0) == 1
  {
  }

  lemma LowAll(s: seq<nat>, i: nat, b: nat)
    requires i <= |s| && forall j | 0 <= j < |s| - i :: s[j] == 0
    ensures Low(s, i, b) == Num(s, b)
  {
    AllLow(s, |s| - i, b);
  }

  lemma LowBound(s: seq<nat>, i: nat, b: nat)
    requires i <= |s| && AreDigits(s, b) && b > 0
    ensures Low(s, i, b) < Pow(b, i)
  {
    NumBound(s[|s|-i..], b);
  }

  /** One digit of the loop: what was carried is divided among the digit and the next carry. */
  lemma LowStep(s0: seq<nat>, s: seq<nat>, i: nat, factor: nat, digit: nat, b: nat, carry: nat)
    requires b > 0 && i < |s| == |s0| && s[|s|-i-1] == s0[|s|-i-1] && AreDigits(s, b)
    requires Low(s, i, b) + carry * Pow(b, i) == Low(s0, i, b) * factor + digit
    ensures var p, total := |s| - i - 1, carry + factor * s[|s|-i-1];
      && total >= 0 && total / b >= 0 && 0 <= total % b < b && AreDigits(s[p := total % b], b)
      && Low(s[p := total % b], i + 1, b) + (total / b) * Pow(b, i + 1) == Low(s0, i + 1, b) * factor + digit
  {
    var total := carry + factor * s[|s|-i-1];
    Quotient(total, b);
    LowStepWith(s0, s, i, factor, digit, b, carry, total / b, total % b);
  }

  lemma Quotient(x: nat, b: nat)
    requires b > 0
    ensures x / b >= 0 && 0 <= x % b < b && x == (x / b) * b + x % b
  {
  }

  lemma LowStepWith(s0: seq<nat>, s: seq<nat>, i: nat, factor: nat, digit: nat, b: nat, carry: nat, q: nat, r: nat)
    requires b > 0 && i < |s| == |s0| && s[|s|-i-1] == s0[|s|-i-1] && AreDigits(s, b)
    requires Low(s, i, b) + carry * Pow(b, i) == Low(s0, i, b) * factor + digit
    requires r < b && q * b + r == carry + factor * s[|s|-i-1]
    ensures var p := |s| - i - 1;
      && AreDigits(s[p := r], b)
      && Low(s[p := r], i + 1, b) + q * Pow(b, i + 1) == Low(s0, i + 1, b) * factor + digit
  {
    var p := |s| - i - 1;
    var t := s[p := r];
    LowNext(s0, p, b);
    LowNext(t, p, b);
    assert t[p+1..] == s[p+1..];
    hide Num, Pow;
    PowNext(b, i);
    Step(Num(s[p+1..], b), carry, Pow(b, i), Num(s0[p+1..], b), factor, digit, s0[p], b, q, r);
  }

  lemma PowNext(b: nat, n: nat)
    ensures Pow(b, n + 1) == b * Pow(b, n)
  {
  }

  lemma CarryBound(low: nat, carry: nat, p: nat)
    requires carry > 0
    ensures low + carry * p >= p
  {
    MulMono(1, carry, p);
  }

  lemma AllLow(s: seq<nat>, n: nat, b: nat)
    requires n <= |s| && forall j | 0 <= j < n :: s[j] == 0
    ensures Num(s, b) == Num(s[n..], b)
  {
    assert s == s[..n] + s[n..];
    NumAppend(s[..n], s[n..], b);
    NumZeros(s[..n], b);
  }

  lemma LowNext(s: seq<nat>, p: nat, b: nat)
    requires p < |s|
    ensures Num(s[p..], b) == s[p] * Pow(b, |s| - p - 1) + Num(s[p+1..], b)
  {
    assert s[p..] == [s[p]] + s[p+1..];
    NumAppend([s[p]], s[p+1..], b);
    assert Num([s[p]], b) == Num([], b) * b + s[p];
  }

  lemma Step(low: nat, c0: nat, p: nat, old0: nat, factor: nat, digit: nat, d: nat, b: nat, q: nat, r: nat)
    requires low + c0 * p == old0 * factor + digit && q * b + r == c0 + factor * d
    ensures r * p + low + q * (b * p) == (d * p + old0) * factor + digit
  {
    var total := q * b + r;
    assert total * p == q * (b * p) + r * p;
    assert total * p == c0 * p + (factor * d) * p;
    assert (d * p + old0) * factor == (d * p) * factor + old0 * factor;
    assert (factor * d) * p == (d * p) * factor;
  }

  // ---------------------------------------------------------------------------------------------
  // The size estimates
  // ---------------------------------------------------------------------------------------------

  lemma {:induction false} PowOfPow(b: nat, m: nat, n: nat)
    ensures Pow(Pow(b, m), n) == Pow(b, m * n)
  {
    if n > 0 {
      PowOfPow(b, m, n - 1);
      PowSum(b, m, m * (n - 1));
      assert m * n == m + m * (n - 1);
    }
  }

  lemma {:induction false} PowBase(a: nat, b: nat, n: nat)
    requires a <= b
    ensures Pow(a, n) <= Pow(b, n)
  {
    if n > 0 {
      PowBase(a, b, n - 1);
      MulMono(Pow(a, n - 1), Pow(b, n - 1), a);
      MulMono(a, b, Pow(b, n - 1));
    }
  }

  lemma {:induction false} PowBaseStrict(a: nat, b: nat, n: nat)
    requires a < b && n > 0
    ensures Pow(a, n) < Pow(b, n)
  {
    hide Pow;
    PowNext(a, n - 1);
    PowNext(b, n - 1);
    PowPositive(b, n - 1);
    PowBase(a, b, n - 1);
    MulMono(Pow(a, n - 1), Pow(b, n - 1), a);
    MulMono(a + 1, b, Pow(b, n - 1));
    assert (a + 1) * Pow(b, n - 1) == a * Pow(b, n - 1) + Pow(b, n - 1);
  }

  /** x^u <= y^w gives x^n <= y^s for every s of at least n w / u. */
  lemma Ratio(x: nat, y: nat, u: nat, w: nat, n: nat, s: nat, un: nat, us: nat, wn: nat)
    requires u > 0 && y > 0 && Pow(x, u) <= Pow(y, w) && un == u * n && us == u * s && wn == w * n && wn <= us
    ensures Pow(x, n) <= Pow(y, s)
  {
    hide Pow;
    PowOfPow(x, u, n);
    PowOfPow(y, w, n);
    PowBase(Pow(x, u), Pow(y, w), n);
    PowMono(y, wn, us);
    Root(x, y, u, n, s, un, us);
  }

  lemma Root(x: nat, y: nat, u: nat, n: nat, s: nat, un: nat, us: nat)
    requires u > 0 && un == u * n && us == u * s && Pow(x, un) <= Pow(y, us)
    ensures Pow(x, n) <= Pow(y, s)
  {
    hide Pow;
    Commute(s, u);
    Commute(n, u);
    PowOfPow(x, n, u);
    PowOfPow(y, s, u);
    if Pow(x, n) > Pow(y, s) {
      PowBaseStrict(Pow(y, s), Pow(x, n), u);
    }
  }

  lemma Commute(a: nat, b: nat)
    ensures a * b == b * a
  {
  }

  /** 138/100 digits of base 58 for every byte, and one more, are enough. */
  lemma EncodeSize(n: nat)
    ensures Pow(256, n) <= Pow(58, n * 138 / 100 + 1)
  {
    assert Pow(256, 8) == 18446744073709551616;
    assert Pow(58, 11) == 24986644000165537792;
    var s := n * 138 / 100 + 1;
    Ratio(256, 58, 8, 11, n, s, 8 * n, 8 * s, 11 * n);
  }

  /** 733/1000 bytes for every character, and one more, are enough. */
  lemma DecodeSize(n: nat)
    ensures Pow(58, n) <= Pow(256, n * 733 / 1000 + 1)
  {
    Powers58();
    var s := n * 733 / 1000 + 1;
    Ratio(58, 256, 71, 52, n, s, 71 * n, 71 * s, 52 * n);
  }

  lemma Powers58()
    ensures Pow(58, 71) <= Pow(256, 52)
  {
    assert Pow(58, 8) == 128063081718016 && Pow(58, 7) == 2207984167552;
    assert Pow(256, 8) == 18446744073709551616 && Pow(256, 4) == 4294967296;
    hide Pow;
    PowSum(58, 8, 8);
    assert Pow(58, 16) == 16400152899115243850138976256;
    PowSum(58, 16, 16);
    assert Pow(58, 32) == 268965015114358137726910587140455987105619365599731777536;
    PowSum(58, 32, 32);
    PowSum(58, 64, 7);
    PowSum(256, 8, 8);
    assert Pow(256, 16) == 340282366920938463463374607431768211456;
    PowSum(256, 16, 16);
    PowSum(256, 32, 16);
    PowSum(256, 48, 4);
  }

  // ---------------------------------------------------------------------------------------------
  // Characters
  // ---------------------------------------------------------------------------------------------

  /** mapBase58, or nothing for its -1: the alphanumeric characters except 0, I, O and l. */
  function ValueOf(c: char): Option<nat> {
    if '1' <= c <= '9' then Some(c as int - '1' as int)
    else if 'A' <= c <= 'H' then Some(9 + c as int - 'A' as int)
    else if 'J' <= c <= 'N' then Some(17 + c as int - 'J' as int)
    else if 'P' <= c <= 'Z' then Some(22 + c as int - 'P' as int)
    else if 'a' <= c <= 'k' then Some(33 + c as int - 'a' as int)
    else if 'm' <= c <= 'z' then Some(44 + c as int - 'm' as int)
    else None
  }

  /** pszBase58. */
  function CharOf(d: nat): char
    requires d < 58
  {
    if d < 9 then ('1' as int + d) as char
    else if d < 17 then ('A' as int + d - 9) as char
    else if d < 22 then ('J' as int + d - 17) as char
    else if d < 33 then ('P' as int + d - 22) as char
    else if d < 44 then ('a' as int + d - 33) as char
    else ('m' as int + d - 44) as char
  }

  /** The table for decoding inverts the alphabet. */
  lemma CharValue(d: nat)
    requires d < 58
    ensures ValueOf(CharOf(d)) == Some(d)
  {
  }

  lemma ValueChar(c: char)
    requires ValueOf(c).Some?
    ensures ValueOf(c).value < 58 && CharOf(ValueOf(c).value) == c
  {
  }

  predicate IsAlphanumeric(c: char) {
    '0' <= c <= '9' || 'A' <= c <= 'Z' || 'a' <= c <= 'z'
  }

  /** The alphabet is that of the digits and letters without four that are easily mistaken, in character order. */
  lemma Alphabet(c: char, d: nat, e: nat)
    ensures ValueOf(c).Some? <==> IsAlphanumeric(c) && c != '0' && c != 'O' && c != 'I' && c != 'l'
    ensures d < e < 58 ==> CharOf(d) < CharOf(e)
  {
  }

  predicate IsSpace(c: char) {
    c == ' ' || c == '\n' || c == '\t' || c == '\r' || c == '\U{0C}' || c == '\U{0B}'
  }

  /** The white space of the C locale: the space and the control characters from tab to carriage return. */
  lemma Spaces(c: char)
    ensures IsSpace(c) <==> c as int == 32 || 9 <= c as int <= 13
  {
  }

  function Ones(n: nat): string { seq(n, _ => '1') }

  function Zeros(n: nat): seq<nat> { seq(n, _ => 0) }

  function Chars(s: seq<nat>): string
    requires forall i | 0 <= i < |s| :: s[i] < 58
  {
    seq(|s|, i requires 0 <= i < |s| => CharOf(s[i]))
  }

  predicate AllValid(s: string) {
    forall i | 0 <= i < |s| :: ValueOf(s[i]).Some?
  }

  function Values(s: string): (r: seq<nat>)
    requires AllValid(s)
    ensures |r| == |s|
  {
    seq(|s|, i requires 0 <= i < |s| => ValueOf(s[i]).value)
  }

  lemma ValuesChars(s: seq<nat>)
    requires AreDigits(s, 58)
    ensures AllValid(Chars(s)) && Values(Chars(s)) == s
  {
    forall i | 0 <= i < |s| ensures ValueOf(Chars(s)[i]) == Some(s[i]) {
      CharValue(s[i]);
    }
  }

  lemma CharsValues(s: string)
    requires AllValid(s)
    ensures AreDigits(Values(s), 58) && Chars(Values(s)) == s
  {
    forall i | 0 <= i < |s| ensures Values(s)[i] < 58 && CharOf(Values(s)[i]) == s[i] {
      ValueChar(s[i]);
    }
  }

  // ---------------------------------------------------------------------------------------------
  // Encoding
  // ---------------------------------------------------------------------------------------------

  /** The number of leading elements equal to x. */
  function Leading<T(==)>(s: seq<T>, x: T): (n: nat)
    ensures n <= |s| && (forall i | 0 <= i < n :: s[i] == x) && (n < |s| ==> s[n] != x)
  {
    if s == [] || s[0] != x then 0 else 1 + Leading(s[1..], x)
  }

  lemma {:induction false} LeadingIs<T>(s: seq<T>, x: T, n: nat)
    requires n <= |s| && (forall i | 0 <= i < n :: s[i] == x) && (n < |s| ==> s[n] != x)
    ensures Leading(s, x) == n
  {
    if n > 0 {
      LeadingIs(s[1..], x, n - 1);
    }
  }

  /** A 1 for every leading zero byte, then the digits of the number. */
  ghost function Encoded(input: seq<nat>): string {
    NumDigits(Num(input, 256), 58);
    Ones(Leading(input, 0)) + Chars(Digits(Num(input, 256), 58))
  }

  /** The buffer holds the number v, of exactly length digits. */
  ghost predicate Holds(buf: seq<nat>, b: nat, v: nat, length: nat)
    requires b > 1
  {
    && AreDigits(buf, b) && length <= |buf| && (forall j | 0 <= j < |buf| - length :: buf[j] == 0)
    && Num(buf, b) == v && v < Pow(b, length) && (length > 0 ==> v >= Pow(b, length - 1))
  }

  lemma HoldsNone(buf: seq<nat>, b: nat)
    requires b > 1 && forall i | 0 <= i < |buf| :: buf[i] == 0
    ensures Holds(buf, b, 0, 0)
  {
    NumZeros(buf, b);
  }

  /** What is held, without the unused front of the buffer, are the digits of the number. */
  lemma HoldsDigits(buf: seq<nat>, b: nat, v: nat, length: nat)
    requires b > 1 && Holds(buf, b, v, length)
    ensures length <= |buf| && buf[|buf|-length..] == Digits(v, b) && (length > 0 ==> buf[|buf|-length] != 0)
  {
    var s := buf[|buf|-length..];
    AllLow(buf, |buf| - length, b);
    if length > 0 {
      FirstDigit(s, b);
    }
    DigitsNum(s, b);
  }

  /** One more digit of the input: the assertion on the carry holds, as the number fits the buffer. */
  method Accumulate(buf: array<nat>, factor: nat, b: nat, digit: nat, length: nat, ghost v: nat) returns (i: nat)
    requires b > 1 && factor > 0 && Holds(buf[..], b, v, length) && v * factor + digit < Pow(b, buf.Length)
    modifies buf
    ensures Holds(buf[..], b, v * factor + digit, i) && i >= length
  {
    hide Num, Pow;
    var carry;
    carry, i := MulAdd(buf, factor, b, digit, length);
    assert carry == 0;
    if i == length && length > 0 {
      StillLong(v, factor, digit, Pow(b, length - 1));
    }
  }

  lemma StillLong(v: nat, factor: nat, digit: nat, p: nat)
    requires factor > 0 && v >= p
    ensures v * factor + digit >= p
  {
    MulMono(1, factor, v);
  }

  method EncodeBase58(input: seq<nat>) returns (str: string)
    requires AreDigits(input, 256)
    ensures str == Encoded(input)
  {
    hide Num, Pow, Holds, Digits;
    var zeroes := 0;
    while zeroes < |input| && input[zeroes] == 0
      invariant 0 <= zeroes <= |input| && forall j | 0 <= j < zeroes :: input[j] == 0
    {
      zeroes := zeroes + 1;
    }
    LeadingIs(input, 0, zeroes);
    var rest := input[zeroes..];
    AllLow(input, zeroes, 256);
    var size := |rest| * 138 / 100 + 1;
    var b58 := new nat[size](_ => 0);
    var length := 0;
    HoldsNone(b58[..], 58);
    NumZeros([], 256);
    assert rest[..0] == [];
    for k := 0 to |rest|
      invariant Holds(b58[..], 58, Num(rest[..k], 256), length)
    {
      EncodeSize(|rest|);
      PrefixFits(rest, k, 256, 58, size);
      length := Accumulate(b58, 256, 58, rest[k], length, Num(rest[..k], 256));
    }
    assert rest[..|rest|] == rest;
    HoldsLength(b58[..], 58, Num(rest, 256), length);
    var it := size - length;
    while it < size && b58[it] == 0
      invariant size - length <= it <= size && forall j | size - length <= j < it :: b58[j] == 0
    {
      it := it + 1;
    }
    HoldsDigits(b58[..], 58, Num(rest, 256), length);
    NumDigits(Num(rest, 256), 58);
    assert it == size - length;
    assert b58[..][it..] == b58[it..];
    str := Ones(zeroes) + Chars(b58[it..]);
  }

  lemma HoldsLength(buf: seq<nat>, b: nat, v: nat, length: nat)
    requires b > 1 && Holds(buf, b, v, length)
    ensures length <= |buf|
  {
  }

  /** The number of the first k + 1 digits, as that of the first k and the next; it fits where all do. */
  lemma PrefixFits(s: seq<nat>, k: nat, b: nat, c: nat, size: nat)
    requires b > 0 && c > 0 && k < |s| && AreDigits(s, b) && Pow(b, |s|) <= Pow(c, size)
    ensures Num(s[..k+1], b) == Num(s[..k], b) * b + s[k] < Pow(c, size)
  {
    assert s[..k+1][..k] == s[..k];
    NumBound(s[..k+1], b);
    PowMono(b, k + 1, |s|);
  }

  // ---------------------------------------------------------------------------------------------
  // Decoding
  // ---------------------------------------------------------------------------------------------

  predicate AllSpaces(s: string) {
    forall i | 0 <= i < |s| :: IsSpace(s[i])
  }

  /** The number of leading spaces. */
  function Skip(s: string): (n: nat)
    ensures n <= |s| && (forall i | 0 <= i < n :: IsSpace(s[i])) && (n < |s| ==> !IsSpace(s[n]))
  {
    if s == [] || !IsSpace(s[0]) then 0 else 1 + Skip(s[1..])
  }

  /** The number of characters before the first space. */
  function UpTo(s: string): (n: nat)
    ensures n <= |s| && (forall i | 0 <= i < n :: !IsSpace(s[i])) && (n < |s| ==> IsSpace(s[n]))
  {
    if s == [] || IsSpace(s[0]) then 0 else 1 + UpTo(s[1..])
  }

  /** The first word, and whether only spaces follow it. */
  function WordOf(str: string): string {
    var t := str[Skip(str)..];
    t[..UpTo(t)]
  }

  predicate OneWord(str: string) {
    var t := str[Skip(str)..];
    AllSpaces(t[UpTo(t)..])
  }

  /** A word may stand between spaces. */
  lemma WordBetweenSpaces(before: string, word: string, after: string)
    requires AllSpaces(before) && AllSpaces(after) && forall i | 0 <= i < |word| :: !IsSpace(word[i])
    ensures OneWord(before + word + after) && WordOf(before + word + after) == word
  {
    var str := before + word + after;
    var t := str[Skip(str)..];
    if word != [] {
      assert str[|before|] == word[0];
      assert Skip(str) == |before|;
      assert t == word + after;
      assert UpTo(t) == |word| by {
        assert forall i | 0 <= i < |word| :: t[i] == word[i];
        assert after != [] ==> t[|word|] == after[0];
      }
    } else {
      assert forall i | 0 <= i < |str| :: IsSpace(str[i]);
      assert Skip(str) == |str|;
    }
  }

  /** A zero byte for every leading 1, then the bytes of the number. */
  ghost function Decoded(word: string): seq<nat>
    requires AllValid(word)
  {
    Zeros(Leading(word, '1')) + Digits(Num(Values(word), 58), 256)
  }

  /** DecodeBase58, as a whole: nothing for an invalid string and for one that stands for too many bytes. The limit is
      only looked at when there is a byte, so that it does not matter for the empty word. */
  ghost function DecodeResult(str: string, maxRetLen: int): Option<seq<nat>> {
    if '\0' !in str && OneWord(str) && AllValid(WordOf(str)) && Fits(Decoded(WordOf(str)), maxRetLen)
    then Some(Decoded(WordOf(str))) else None
  }

  predicate Fits(bytes: seq<nat>, maxRetLen: int) {
    bytes == [] || |bytes| <= maxRetLen
  }

  /** A result is within the limit exactly if the limit is not negative or there is something to decode. */
  lemma WithinLimit(str: string, maxRetLen: int)
    requires DecodeResult(str, maxRetLen).Some?
    ensures |DecodeResult(str, maxRetLen).value| <= maxRetLen <==> maxRetLen >= 0 || WordOf(str) != ""
  {
    var word := WordOf(str);
    if word != "" {
      var z := Leading(word, '1');
      if z == 0 {
        OnlyOneIsZero(word[0]);
        NumPositive(Values(word), 58);
        SomeDigits(Num(Values(word), 58));
      }
    }
  }

  /** No bytes at all, and yet more than the limit allows. */
  lemma EmptyBeyondLimit()
    ensures DecodeResult("", -1) == Some([])
  {
    assert WordOf("") == "" && Leading("", '1') == 0 && Values("") == [];
  }

  lemma {:induction false} SkipIs(s: string, n: nat)
    requires n <= |s| && (forall i | 0 <= i < n :: IsSpace(s[i])) && (n < |s| ==> !IsSpace(s[n]))
    ensures Skip(s) == n
  {
    if n > 0 {
      SkipIs(s[1..], n - 1);
    }
  }

  lemma {:induction false} DigitsMono(u: nat, v: nat, b: nat)
    requires b > 1 && u <= v
    ensures |Digits(u, b)| <= |Digits(v, b)|
    decreases v
  {
    if u > 0 {
      DivSmaller(u, b);
      DivSmaller(v, b);
      DivMono(u, v, b);
      DigitsMono(u / b, v / b, b);
    }
  }

  /** More digits make a number no shorter. */
  lemma PrefixShorter(s: seq<nat>, k: nat, b: nat, c: nat)
    requires b > 0 && c > 1 && k <= |s|
    ensures |Digits(Num(s[..k], b), c)| <= |Digits(Num(s, b), c)|
  {
    assert s == s[..k] + s[k..];
    NumAppend(s[..k], s[k..], b);
    PowPositive(b, |s| - k);
    MulMono(1, Pow(b, |s| - k), Num(s[..k], b));
    DigitsMono(Num(s[..k], b), Num(s, b), c);
  }

  /** Too many bytes for the digits so far are too many for all. */
  lemma TooLong(str: string, maxRetLen: int, word: string, k: nat, length: nat)
    requires word == WordOf(str) && Leading(word, '1') <= k <= |word| && AllValid(word[Leading(word, '1')..k])
    requires length == |Digits(Num(Values(word[Leading(word, '1')..k]), 58), 256)|
      && length + Leading(word, '1') > maxRetLen && length > 0
    ensures DecodeResult(str, maxRetLen) == None
  {
    hide Num, Digits, AllValid, ValueOf;
    if AllValid(word) {
      var z := Leading(word, '1');
      var t := word[z..];
      OnesThen(word, z);
      AllDecoded(str, word, z);
      assert Values(t)[..k-z] == Values(word[z..k]);
      PrefixShorter(Values(t), k - z, 58, 256);
    }
  }

  lemma FirstValue(t: string)
    requires AllValid(t) && (t != [] ==> t[0] != '1')
    ensures t != [] ==> Values(t)[0] != 0
  {
    if t != [] {
      OnlyOneIsZero(t[0]);
    }
  }

  lemma AllDecoded(str: string, word: string, z: nat)
    requires word == WordOf(str) && z == Leading(word, '1') && AllValid(word[z..])
    ensures AllValid(word) && Decoded(word) == Zeros(z) + Digits(Num(Values(word[z..]), 58), 256)
  {
    hide Num, Digits, AllValid, ValueOf;
    var t := word[z..];
    OnesThen(word, z);
    ValuesOfOnes(z, t);
    FirstValue(t);
    ZerosThen(z, Values(t), 58);
  }

  /** The next digit extends the number, which fits the buffer. */
  lemma NextDigit(t: string, k: nat, n: nat, size: nat)
    requires k < |t| <= n && size == n * 733 / 1000 + 1 && AllValid(t[..k]) && ValueOf(t[k]).Some?
    ensures AllValid(t[..k+1])
      && Num(Values(t[..k+1]), 58) == Num(Values(t[..k]), 58) * 58 + ValueOf(t[k]).value < Pow(256, size)
  {
    var s := Values(t[..k+1]);
    assert s[..k] == Values(t[..k]) && s[..k+1] == s;
    CharsValues(t[..k+1]);
    PowMono(58, k + 1, n);
    DecodeSize(n);
    PrefixFits(s, k, 58, 256, size);
  }

  /** Skip spaces from a position on. */
  method SkipSpaces(str: string, start: nat) returns (p: nat)
    requires start <= |str|
    ensures start <= p <= |str| && (forall i | start <= i < p :: IsSpace(str[i])) && (p < |str| ==> !IsSpace(str[p]))
  {
    p := start;
    while p < |str| && IsSpace(str[p])
      invariant start <= p <= |str| && forall i | start <= i < p :: IsSpace(str[i])
    {
      p := p + 1;
    }
  }

  /** Count the leading ones of the word, up to the limit. */
  method CountOnes(str: string, start: nat, maxRetLen: int) returns (ok: bool, zeroes: nat)
    requires start == Skip(str)
    ensures !ok ==> DecodeResult(str, maxRetLen) == None
    ensures ok ==> zeroes == Leading(WordOf(str), '1') && (zeroes > 0 ==> zeroes <= maxRetLen)
  {
    hide DecodeResult;
    ghost var word := WordOf(str);
    zeroes := 0;
    while start + zeroes < |str| && str[start + zeroes] == '1'
      invariant start + zeroes <= |str| && zeroes <= |word| && (zeroes > 0 ==> zeroes <= maxRetLen)
        && forall i | 0 <= i < zeroes :: word[i] == '1'
      decreases |str| - start - zeroes
    {
      InWord(str, start, zeroes);
      zeroes := zeroes + 1;
      if zeroes > maxRetLen {
        ManyOnes(str, maxRetLen, word, zeroes);
        return false, zeroes;
      }
    }
    assert zeroes < |word| ==> word[zeroes] == str[start + zeroes];
    LeadingIs(word, '1', zeroes);
    return true, zeroes;
  }

  /** The buffer holds the number of the first k characters of t. */
  ghost predicate Reading(t: string, k: nat, buf: seq<nat>, length: nat) {
    k <= |t| && AllValid(t[..k]) && Holds(buf, 256, Num(Values(t[..k]), 58), length)
  }

  lemma ReadNothing(t: string, buf: seq<nat>)
    requires forall i | 0 <= i < |buf| :: buf[i] == 0
    ensures Reading(t, 0, buf, 0)
  {
    HoldsNone(buf, 256);
    assert t[..0] == "";
  }

  /** Read one more digit. */
  method ReadDigit(b256: array<nat>, c: nat, length: nat, ghost t: string, ghost k: nat, ghost n: nat) returns (i: nat)
    requires Reading(t, k, b256[..], length) && k < |t| <= n && ValueOf(t[k]) == Some(c)
      && b256.Length == n * 733 / 1000 + 1
    modifies b256
    ensures Reading(t, k + 1, b256[..], i)
  {
    hide Num, Pow, Holds, AllValid, Values;
    NextDigit(t, k, n, b256.Length);
    i := Accumulate(b256, 58, 256, c, length, Num(Values(t[..k]), 58));
  }

  lemma {:induction false} NumPositive(s: seq<nat>, b: nat)
    requires b > 0 && s != [] && s[0] > 0
    ensures Num(s, b) > 0
  {
    if |s| > 1 {
      NumPositive(s[..|s|-1], b);
      MulMono(1, Num(s[..|s|-1], b), b);
    }
  }

  /** The digits read already stand for too many bytes. */
  lemma ReadTooLong(str: string, maxRetLen: int, zeroes: nat, k: nat, buf: seq<nat>, length: nat)
    requires zeroes == Leading(WordOf(str), '1') && k > 0 && Reading(WordOf(str)[zeroes..], k, buf, length)
      && length + zeroes > maxRetLen
    ensures DecodeResult(str, maxRetLen) == None
  {
    hide Num, Digits, DecodeResult, WordOf;
    var word := WordOf(str);
    var t := word[zeroes..];
    HoldsDigits(buf, 256, Num(Values(t[..k]), 58), length);
    assert word[zeroes..zeroes+k] == t[..k];
    FirstValue(t[..k]);
    NumPositive(Values(t[..k]), 58);
    SomeDigits(Num(Values(t[..k]), 58));
    TooLong(str, maxRetLen, word, zeroes + k, length);
  }

  lemma SomeDigits(v: nat)
    requires v > 0
    ensures Digits(v, 256) != []
  {
  }

  /** All digits are read: the buffer holds the bytes. */
  lemma ReadAll(str: string, zeroes: nat, k: nat, buf: seq<nat>, length: nat)
    requires zeroes == Leading(WordOf(str), '1') && k == |WordOf(str)| - zeroes
      && Reading(WordOf(str)[zeroes..], k, buf, length)
    ensures AllValid(WordOf(str)) && length <= |buf| && Decoded(WordOf(str)) == Zeros(zeroes) + buf[|buf|-length..]
  {
    hide Num, Digits, WordOf, Decoded;
    var t := WordOf(str)[zeroes..];
    assert t[..k] == t;
    HoldsDigits(buf, 256, Num(Values(t), 58), length);
    AllDecoded(str, WordOf(str), zeroes);
  }

  lemma FitsIs(zeroes: nat, bytes: seq<nat>, maxRetLen: int)
    requires zeroes + |bytes| > 0 ==> zeroes + |bytes| <= maxRetLen
    ensures Fits(Zeros(zeroes) + bytes, maxRetLen)
  {
  }

  /** Read the digits of the word after its leading ones. */
  method ReadDigits(str: string, start: nat, zeroes: nat, maxRetLen: int) returns (ok: bool, bytes: seq<nat>, p: nat)
    requires start == Skip(str) && zeroes == Leading(WordOf(str), '1') && (zeroes > 0 ==> zeroes <= maxRetLen)
    ensures !ok ==> DecodeResult(str, maxRetLen) == None
    ensures ok ==> p == start + |WordOf(str)| && p <= |str| && AllValid(WordOf(str))
    ensures ok ==> Zeros(zeroes) + bytes == Decoded(WordOf(str)) && Fits(Zeros(zeroes) + bytes, maxRetLen)
  {
    hide *;
    ghost var t := WordOf(str)[zeroes..];
    WordInside(str, start);
    p := start + zeroes;
    ghost var n := |str| - p;
    var size := (|str| - p) * 733 / 1000 + 1;
    var b256 := new nat[size](_ => 0);
    var length: nat := 0;
    ReadNothing(t, b256[..]);
    ghost var k := 0;
    while p < |str| && !IsSpace(str[p])
      invariant p == start + zeroes + k && p <= |str| && 0 <= k <= |t| <= n
      invariant Reading(t, k, b256[..], length) && (k > 0 ==> length + zeroes <= maxRetLen) && (k == 0 ==> length == 0)
      decreases |str| - p
    {
      InWord(str, start, zeroes + k);
      var carry := ValueOf(str[p]);
      if carry.None? {
        BadChar(str, maxRetLen, zeroes + k);
        return false, [], p;
      }
      length := ReadDigit(b256, carry.value, length, t, k, n);
      k := k + 1;
      if length + zeroes > maxRetLen {
        ReadTooLong(str, maxRetLen, zeroes, k, b256[..], length);
        return false, [], p;
      }
      p := p + 1;
    }
    WordEnd(str, start, zeroes + k);
    ghost var held := b256[..];
    ReadAll(str, zeroes, k, held, length);
    bytes := b256[size-length..];
    assert bytes == held[size-length..];
    FitsIs(zeroes, bytes, maxRetLen);
    return true, bytes, p;
  }

  method DecodeBase58(str: string, maxRetLen: int) returns (r: Option<seq<nat>>)
    ensures r == DecodeResult(str, maxRetLen)
  {
    hide AllValid, Decoded, WordOf, OneWord, Fits;
    if '\0' in str {
      return None;
    }
    var start := SkipSpaces(str, 0);
    SkipIs(str, start);
    var ok, zeroes := CountOnes(str, start, maxRetLen);
    if !ok {
      return None;
    }
    var bytes, p;
    ok, bytes, p := ReadDigits(str, start, zeroes, maxRetLen);
    if !ok {
      return None;
    }
    var last := SkipSpaces(str, p);
    AfterWord(str, start, p - start, last);
    if last != |str| {
      return None;
    }
    return Some(Zeros(zeroes) + bytes);
  }

  lemma WordInside(str: string, start: nat)
    requires start == Skip(str)
    ensures start + |WordOf(str)| <= |str|
  {
  }

  /** A character that is not a space, after none but such since the start, is in the word. */
  lemma InWord(str: string, start: nat, k: nat)
    requires Skip(str) == start && k <= |WordOf(str)| && start + k < |str| && !IsSpace(str[start + k])
    ensures k < |WordOf(str)| && WordOf(str)[k] == str[start + k]
  {
    var t := str[start..];
    assert t[k] == str[start + k];
  }

  lemma WordEnd(str: string, start: nat, k: nat)
    requires Skip(str) == start && k <= |WordOf(str)| && (start + k < |str| ==> IsSpace(str[start + k]))
    ensures k == |WordOf(str)|
  {
    var t := str[start..];
    assert k < |t| ==> t[k] == str[start + k];
  }

  lemma AfterWord(str: string, start: nat, n: nat, p: nat)
    requires Skip(str) == start && n == |WordOf(str)| && start + n <= p <= |str|
    requires (forall i | start + n <= i < p :: IsSpace(str[i])) && (p < |str| ==> !IsSpace(str[p]))
    ensures OneWord(str) <==> p == |str|
  {
    var after := str[start..][n..];
    assert forall i | 0 <= i < |after| :: after[i] == str[start + n + i];
    if p < |str| {
      assert after[p - start - n] == str[p];
    }
  }

  lemma ManyOnes(str: string, maxRetLen: int, word: string, zeroes: nat)
    requires word == WordOf(str) && 0 < zeroes <= |word| && zeroes > maxRetLen
      && forall i | 0 <= i < zeroes :: word[i] == '1'
    ensures DecodeResult(str, maxRetLen) == None
  {
    assert Leading(word, '1') >= zeroes;
  }

  lemma BadChar(str: string, maxRetLen: int, k: nat)
    requires k < |WordOf(str)| && ValueOf(WordOf(str)[k]).None?
    ensures DecodeResult(str, maxRetLen) == None
  {
  }

  // ---------------------------------------------------------------------------------------------
  // Round trips
  // ---------------------------------------------------------------------------------------------

  lemma ZerosThen(n: nat, s: seq<nat>, b: nat)
    requires s != [] ==> s[0] != 0
    ensures Leading(Zeros(n) + s, 0) == n && Num(Zeros(n) + s, b) == Num(s, b)
  {
    LeadingIs(Zeros(n) + s, 0, n);
    assert (Zeros(n) + s)[n..] == s;
    AllLow(Zeros(n) + s, n, b);
  }

  /** A sequence of digits is its leading zeroes and the digits of its number. */
  lemma ZerosAndDigits(s: seq<nat>, b: nat)
    requires b > 1 && AreDigits(s, b)
    ensures s == Zeros(Leading(s, 0)) + Digits(Num(s, b), b)
  {
    hide Num, Digits, Leading;
    var n := Leading(s, 0);
    AllLow(s, n, b);
    DigitsNum(s[n..], b);
    assert s[..n] == Zeros(n);
    assert s == s[..n] + s[n..];
  }

  lemma ValuesOfOnes(n: nat, t: string)
    requires AllValid(t)
    ensures AllValid(Ones(n) + t) && Values(Ones(n) + t) == Zeros(n) + Values(t)
    ensures (t != [] ==> t[0] != '1') ==> Leading(Ones(n) + t, '1') == n
  {
    if t != [] ==> t[0] != '1' {
      LeadingIs(Ones(n) + t, '1', n);
    }
  }

  lemma NoSpaces(s: string)
    requires AllValid(s)
    ensures OneWord(s) && WordOf(s) == s && '\0' !in s
  {
    forall i | 0 <= i < |s| ensures !IsSpace(s[i]) && s[i] != '\0' {
      assert ValueOf(s[i]).Some?;
    }
    WordBetweenSpaces("", s, "");
    assert "" + s + "" == s;
  }

  /** Decoding inverts encoding, for every byte string, given room. */
  lemma DecodeEncode(input: seq<nat>, maxRetLen: int)
    requires AreDigits(input, 256) && |input| <= maxRetLen
    ensures DecodeResult(Encoded(input), maxRetLen) == Some(input)
  {
    hide Num, Digits;
    var v, z := Num(input, 256), Leading(input, 0);
    NumDigits(v, 58);
    var digits := Digits(v, 58);
    ValuesChars(digits);
    EmptyDigits(v, 58);
    if digits != [] {
      FirstChar(digits);
    }
    ValuesOfOnes(z, Chars(digits));
    ZerosThen(z, digits, 58);
    ZerosAndDigits(input, 256);
    NoSpaces(Encoded(input));
  }

  lemma FirstChar(digits: seq<nat>)
    requires AreDigits(digits, 58) && digits != [] && digits[0] != 0
    ensures Chars(digits)[0] != '1'
  {
    CharValue(digits[0]);
  }

  /** Encoding inverts decoding, for every string without spaces. */
  lemma EncodeDecode(str: string, maxRetLen: int)
    requires DecodeResult(str, maxRetLen).Some? && forall i | 0 <= i < |str| :: !IsSpace(str[i])
    ensures Encoded(DecodeResult(str, maxRetLen).value) == str
  {
    hide Num, Digits, AllValid, Values, Chars, IsSpace, ValueOf;
    WordBetweenSpaces("", str, "");
    assert "" + str + "" == str;
    var z := Leading(str, '1');
    var t := str[z..];
    OnesThen(str, z);
    AllDecoded(str, str, z);
    CharsValues(t);
    FirstValue(t);
    var digits := Values(t);
    var v := Num(digits, 58);
    NumDigits(v, 256);
    EmptyDigits(v, 256);
    ZerosThen(z, Digits(v, 256), 256);
    DigitsNum(digits, 58);
  }

  lemma OnesThen(str: string, z: nat)
    requires z == Leading(str, '1')
    ensures str == Ones(z) + str[z..] && (str[z..] != [] ==> str[z..][0] != '1')
      && (AllValid(str) ==> AllValid(str[z..]))
  {
  }

  lemma OnlyOneIsZero(c: char)
    requires ValueOf(c).Some? && c != '1'
    ensures ValueOf(c).value != 0
  {
  }

  lemma EmptyDigits(v: nat, b: nat)
    requires b > 1
    ensures v == 0 ==> Digits(v, b) == []
  {
  }
}

/** The checksum of device/boot/liuqin-mark-slot-successful.c as what it is for: the
    remainder of a long division of polynomials over the two-element field. */
module CrcDivision {
  import opened Bytes
  import opened Crc32

  /** The powers of x in the CRC-32 generator of IEEE 802.3, section 3.2.9. */
  const EXPONENTS: set<nat> := {32, 26, 23, 22, 16, 12, 11, 10, 8, 7, 5, 4, 2, 1, 0}

  // ----- polynomials: coefficients, the highest power first

  function Generator(): (g: seq<bool>)
    ensures |g| == 33
  {
    seq(33, k requires 0 <= k < 33 => (32 - k) in EXPONENTS)
  }

  function Plus(a: seq<bool>, b: seq<bool>): (r: seq<bool>)
    requires |a| == |b|
    ensures |r| == |a| && forall k :: 0 <= k < |a| ==> (r[k] <==> a[k] != b[k])
  {
    seq(|a|, k requires 0 <= k < |a| => a[k] != b[k])
  }

  /** What long division by the generator leaves. */
  function Remainder(m: seq<bool>): (r: seq<bool>)
    ensures |m| >= 32 ==> |r| == 32
    decreases |m|
  {
    if |m| <= 32 then m
    else if m[0] then Remainder(Plus(m[..33], Generator())[1..] + m[33..])
    else Remainder(m[1..])
  }

  function Zeroes(n: nat): (z: seq<bool>)
    ensures |z| == n && forall k :: 0 <= k < n ==> !z[k]
  {
    seq(n, _ => false)
  }

  function Ones(n: nat): (z: seq<bool>)
    ensures |z| == n && forall k :: 0 <= k < n ==> z[k]
  {
    seq(n, _ => true)
  }

  function Complement(a: seq<bool>): (r: seq<bool>)
    ensures |r| == |a|
  {
    Plus(a, Ones(|a|))
  }

  // ----- a byte string as a polynomial

  /** The bits of a byte, least significant first. */
  function ByteBits(b: byte): (bits: seq<bool>)
    ensures |bits| == 8
  {
    [b % 2 == 1, b / 2 % 2 == 1, b / 4 % 2 == 1, b / 8 % 2 == 1,
     b / 16 % 2 == 1, b / 32 % 2 == 1, b / 64 % 2 == 1, b / 128 % 2 == 1]
  }

  function MessageBits(s: seq<byte>): (bits: seq<bool>)
    ensures |bits| == 8 * |s|
  {
    if s == [] then [] else MessageBits(s[..|s| - 1]) + ByteBits(s[|s| - 1])
  }

  /** The message with 32 zeros behind it, its first 32 bits complemented. */
  function Dividend(s: seq<byte>): seq<bool> {
    var m := MessageBits(s) + Zeroes(32);
    Complement(m[..32]) + m[32..]
  }

  /** The number whose bit `k` is `bits[k]`. */
  function Number(bits: seq<bool>): nat {
    if bits == [] then 0 else (if bits[0] then 1 else 0) + 2 * Number(bits[1..])
  }

  // ----- the register as a polynomial: its lowest bit is the highest power

  predicate Odd(c: bv32) {
    c & 1 != 0
  }

  function Half(c: bv32): bv32 {
    c >> 1
  }

  function LowBits(c: bv32, n: nat): (bits: seq<bool>)
    ensures |bits| == n
  {
    if n == 0 then [] else [Odd(c)] + LowBits(Half(c), n - 1)
  }

  function Halved(c: bv32, n: nat): bv32 {
    if n == 0 then c else Halved(Half(c), n - 1)
  }

  lemma {:induction false} OneMoreBit(c: bv32, n: nat)
    ensures LowBits(c, n + 1) == LowBits(c, n) + [Odd(Halved(c, n))]
    decreases n
  {
    hide Odd, Half;
    if n == 0 {
      assert LowBits(Half(c), 0) == [];
    } else {
      OneMoreBit(Half(c), n - 1);
      assert [Odd(c)] + (LowBits(Half(c), n - 1) + [Odd(Halved(c, n))]) == ([Odd(c)] + LowBits(Half(c), n - 1)) + [Odd(Halved(c, n))];
    }
  }

  lemma {:induction false} HalvedTwice(c: bv32, m: nat, n: nat)
    ensures Halved(c, m + n) == Halved(Halved(c, m), n)
    decreases m
  {
    hide Half;
    if m > 0 {
      HalvedTwice(Half(c), m - 1, n);
    }
  }

  lemma HalvedEight(c: bv32)
    ensures Halved(c, 8) == c >> 8
  {
    hide Half;
    HalvesAdd(c);
    HalvedFour(c);
    HalvedFour(Half(Half(Half(Half(c)))));
    HalvedTwice(c, 4, 4);
  }

  lemma HalvedFour(c: bv32)
    ensures Halved(c, 4) == Half(Half(Half(Half(c))))
  {
    hide *;
    HalvedNext(c, 3);
    HalvedNext(Half(c), 2);
    HalvedNext(Half(Half(c)), 1);
    HalvedNext(Half(Half(Half(c))), 0);
    NotHalved(Half(Half(Half(Half(c)))));
  }

  lemma HalvedNext(c: bv32, n: nat)
    ensures Halved(c, n + 1) == Halved(Half(c), n)
  {
    hide Half;
  }

  lemma NotHalved(c: bv32)
    ensures Halved(c, 0) == c
  {
  }

  lemma HalvesAdd(c: bv32)
    ensures Half(Half(Half(Half(Half(Half(Half(Half(c)))))))) == c >> 8
  {
  }

  lemma BytesShift(c: bv32)
    ensures (c >> 8) >> 8 == c >> 16 && (c >> 16) >> 8 == c >> 24 && (c >> 24) >> 8 == 0
  {
  }

  lemma HalvedAway(c: bv32)
    ensures Halved(c, 32) == 0
  {
    hide Halved;
    HalvedTwice(c, 8, 24);
    HalvedTwice(c >> 8, 8, 16);
    HalvedTwice(c >> 16, 8, 8);
    HalvedEight(c);
    HalvedEight(c >> 8);
    HalvedEight(c >> 16);
    HalvedEight(c >> 24);
    BytesShift(c);
  }

  /** Shifting the register multiplies by x. */
  lemma LowBitsHalf(c: bv32)
    ensures LowBits(Half(c), 32) == LowBits(c, 32)[1..] + [false]
  {
    hide *;
    OneMoreBit(c, 32);
    HalvedAway(c);
    ZeroIsEven();
    LowOne(c, 32);
    Tail(Odd(c), LowBits(Half(c), 32), LowBits(c, 32));
  }

  lemma ZeroIsEven()
    ensures !Odd(0)
  {
  }

  lemma Tail(b: bool, half: seq<bool>, low: seq<bool>)
    requires |low| == 32 && [b] + half == low + [false]
    ensures half == low[1..] + [false]
  {
    assert ([b] + half)[1..] == half;
  }

  lemma XorHalves(x: bv32, y: bv32)
    ensures Half(Xor(x, y)) == Xor(Half(x), Half(y)) && (Odd(Xor(x, y)) <==> Odd(x) != Odd(y))
  {
  }

  lemma {:induction false} LowBitsXor(x: bv32, y: bv32, n: nat)
    ensures LowBits(Xor(x, y), n) == Plus(LowBits(x, n), LowBits(y, n))
    decreases n
  {
    hide Half, Odd, Xor;
    if n > 0 {
      XorHalves(x, y);
      LowBitsXor(Half(x), Half(y), n - 1);
    }
  }

  lemma NextFour(c: bv32, d: bv32, b0: bool, b1: bool, b2: bool, b3: bool, n: nat)
    requires d == c >> 4 && (b0 <==> c & 1 != 0) && (b1 <==> c & 2 != 0) && (b2 <==> c & 4 != 0) && (b3 <==> c & 8 != 0)
    ensures LowBits(c, n + 4) == [b0, b1, b2, b3] + LowBits(d, n)
  {
    hide Half, Odd;
    FourFacts(c);
    LowFour(c, Half(c), Half(Half(c)), Half(Half(Half(c))), d, n);
  }

  lemma FourFacts(c: bv32)
    ensures Half(Half(Half(Half(c)))) == c >> 4
    ensures (Odd(c) <==> c & 1 != 0) && (Odd(Half(c)) <==> c & 2 != 0)
    ensures (Odd(Half(Half(c))) <==> c & 4 != 0) && (Odd(Half(Half(Half(c)))) <==> c & 8 != 0)
  {
  }

  lemma LowFour(c: bv32, c1: bv32, c2: bv32, c3: bv32, c4: bv32, n: nat)
    requires c1 == Half(c) && c2 == Half(c1) && c3 == Half(c2) && c4 == Half(c3)
    ensures LowBits(c, n + 4) == [Odd(c), Odd(c1), Odd(c2), Odd(c3)] + LowBits(c4, n)
  {
    hide *;
    LowOne(c, n + 3);
    LowOne(c1, n + 2);
    LowOne(c2, n + 1);
    LowOne(c3, n);
    Four(Odd(c), Odd(c1), Odd(c2), Odd(c3), LowBits(c4, n));
  }

  lemma LowOne(c: bv32, n: nat)
    ensures LowBits(c, n + 1) == [Odd(c)] + LowBits(Half(c), n)
  {
    hide Half, Odd;
  }

  lemma Four(b0: bool, b1: bool, b2: bool, b3: bool, rest: seq<bool>)
    ensures [b0] + ([b1] + ([b2] + ([b3] + rest))) == [b0, b1, b2, b3] + rest
  {
  }

  lemma GeneratorBits()
    ensures Generator() == [true]
      + ([false, false, false, false] + [false, true, false, false] + [true, true, false, false] + [false, false, false, true]
         + [false, false, false, true] + [true, true, false, true] + [true, false, true, true] + [false, true, true, true])
  {
  }

  /** The constant of the source is the generator without its highest power. */
  lemma PolynomialIsGenerator()
    ensures LowBits(POLYNOMIAL, 32) == Generator()[1..]
  {
    hide *;
    NextFour(0xedb8_8320, 0xe_db88_32, false, false, false, false, 28);
    NextFour(0xe_db88_32, 0xed_b883, false, true, false, false, 24);
    NextFour(0xed_b883, 0xe_db88, true, true, false, false, 20);
    NextFour(0xe_db88, 0xedb8, false, false, false, true, 16);
    NextFour(0xedb8, 0xedb, false, false, false, true, 12);
    NextFour(0xedb, 0xed, true, true, false, true, 8);
    NextFour(0xed, 0xe, true, false, true, true, 4);
    NextFour(0xe, 0, false, true, true, true, 0);
    NoBits(0);
    GeneratorBits();
    PolynomialIs();
    Joined([false, false, false, false], [false, true, false, false], [true, true, false, false], [false, false, false, true],
           [false, false, false, true], [true, true, false, true], [true, false, true, true], [false, true, true, true]);
  }

  lemma PolynomialIs()
    ensures POLYNOMIAL == 0xedb8_8320
  {
  }

  lemma Joined(a: seq<bool>, b: seq<bool>, c: seq<bool>, d: seq<bool>, e: seq<bool>, f: seq<bool>, g: seq<bool>, h: seq<bool>)
    ensures ([true] + (a + b + c + d + e + f + g + h))[1..] == a + (b + (c + (d + (e + (f + (g + (h + [])))))))
  {
  }

  lemma NoBits(c: bv32)
    ensures LowBits(c, 0) == []
  {
  }

  // ----- a bit step is one step of the division

  /** Times x, reduced. */
  function Shifted(r: seq<bool>): (t: seq<bool>)
    requires |r| == 32
    ensures |t| == 32
  {
    if r[0] then Plus(r + [false], Generator())[1..] else r[1..] + [false]
  }

  lemma StepIs(c: bv32)
    ensures BitStep(c) == if Odd(c) then Xor(Half(c), POLYNOMIAL) else Half(c)
  {
    hide *;
    if Odd(c) {
      StepOdd(c);
    } else {
      StepEven(c);
    }
  }

  lemma StepOdd(c: bv32)
    requires Odd(c)
    ensures BitStep(c) == Xor(Half(c), POLYNOMIAL)
  {
    hide Half, Xor, BitStep;
    AllOnes(c);
    StepHigh(c);
    HalfIs(c);
    XorIs(Half(c), POLYNOMIAL);
  }

  lemma AllOnes(c: bv32)
    requires Odd(c)
    ensures c & 1 == 1
  {
  }

  lemma StepHigh(c: bv32)
    requires c & 1 == 1
    ensures BitStep(c) == (c >> 1) ^ POLYNOMIAL
  {
  }

  lemma StepEven(c: bv32)
    requires !Odd(c)
    ensures BitStep(c) == Half(c)
  {
  }

  lemma HalfIs(c: bv32)
    ensures Half(c) == c >> 1
  {
  }

  lemma StepShifts(c: bv32)
    ensures LowBits(BitStep(c), 32) == Shifted(LowBits(c, 32))
  {
    hide *;
    StepIs(c);
    LowBitsHalf(c);
    LowestBit(c, 31);
    if Odd(c) {
      LowBitsXor(Half(c), POLYNOMIAL, 32);
      PolynomialIsGenerator();
      Reduced(LowBits(c, 32), LowBits(Half(c), 32), Generator());
      ShiftedIs(LowBits(c, 32));
    } else {
      ShiftedIs(LowBits(c, 32));
    }
  }

  lemma LowestBit(c: bv32, n: nat)
    ensures LowBits(c, n + 1)[0] == Odd(c)
  {
    hide Odd, Half;
  }

  lemma ShiftedIs(r: seq<bool>)
    requires |r| == 32
    ensures Shifted(r) == if r[0] then Plus(r + [false], Generator())[1..] else r[1..] + [false]
  {
    hide Generator;
  }

  lemma Reduced(r: seq<bool>, h: seq<bool>, g: seq<bool>)
    requires |r| == 32 && |g| == 33 && h == r[1..] + [false]
    ensures |h| == 32 && Plus(h, g[1..]) == Plus(r + [false], g)[1..]
  {
  }

  function OneBit(b: bool): bv32 {
    if b then 1 else 0
  }

  lemma {:induction false} NoneSet(n: nat)
    ensures LowBits(0, n) == Zeroes(n)
  {
    if n > 0 {
      assert Half(0) == 0;
      NoneSet(n - 1);
    }
  }

  lemma LowBitsOne(b: bool)
    ensures LowBits(OneBit(b), 32) == [b] + Zeroes(31)
  {
    NoneSet(31);
    assert Half(OneBit(b)) == 0 && (Odd(OneBit(b)) <==> b);
  }

  // ----- one bit of the message at a time

  function Fold(c: bv32, bits: seq<bool>): bv32
    decreases |bits|
  {
    if bits == [] then c else Fold(BitStep(Xor(c, OneBit(bits[0]))), bits[1..])
  }

  lemma {:induction false} FoldAppend(c: bv32, a: seq<bool>, b: seq<bool>)
    ensures Fold(c, a + b) == Fold(Fold(c, a), b)
    decreases |a|
  {
    hide BitStep, Xor, OneBit;
    if a == [] {
      assert a + b == b;
    } else {
      assert (a + b)[1..] == a[1..] + b;
      FoldAppend(BitStep(Xor(c, OneBit(a[0]))), a[1..], b);
    }
  }

  /** What is left to divide once the register holds `c`. */
  function Window(c: bv32, bits: seq<bool>): seq<bool> {
    var z := bits + Zeroes(32);
    Plus(LowBits(c, 32), z[..32]) + z[32..]
  }

  lemma WindowStep(c: bv32, bits: seq<bool>)
    requires bits != []
    ensures Remainder(Window(c, bits)) == Remainder(Window(BitStep(Xor(c, OneBit(bits[0]))), bits[1..]))
  {
    hide *;
    var b := bits[0];
    var d := Xor(c, OneBit(b));
    LowBitsXor(c, OneBit(b), 32);
    LowBitsOne(b);
    StepShifts(d);
    WindowIs(c, bits);
    WindowIs(BitStep(d), bits[1..]);
    ShiftedIs(LowBits(d, 32));
    assert bits + Zeroes(32) == [b] + (bits[1..] + Zeroes(32));
    Divides(LowBits(c, 32), LowBits(d, 32), b, bits[1..] + Zeroes(32));
  }

  lemma WindowIs(c: bv32, bits: seq<bool>)
    ensures Window(c, bits) == Plus(LowBits(c, 32), (bits + Zeroes(32))[..32]) + (bits + Zeroes(32))[32..]
  {
    hide LowBits;
  }

  /** The leading bit is taken off, and the generator with it if it is set. */
  lemma Divides(r: seq<bool>, q: seq<bool>, b: bool, z: seq<bool>)
    requires |r| == 32 && |q| == 32 && |z| >= 32 && q == Plus(r, [b] + Zeroes(31))
    ensures Remainder(Plus(r, ([b] + z)[..32]) + ([b] + z)[32..]) == Remainder(Plus(Shifted(q), z[..32]) + z[32..])
  {
    hide Generator, Shifted;
    var w := Plus(r, ([b] + z)[..32]) + ([b] + z)[32..];
    var next := if w[0] then Plus(w[..33], Generator())[1..] + w[33..] else w[1..];
    ShiftedIs(q);
    Moved(r, q, b, z, w, Generator());
    assert Remainder(w) == Remainder(next);
  }

  lemma Moved(r: seq<bool>, q: seq<bool>, b: bool, z: seq<bool>, w: seq<bool>, g: seq<bool>)
    requires |r| == 32 && |q| == 32 && |z| >= 32 && |g| == 33 && q == Plus(r, [b] + Zeroes(31))
    requires w == Plus(r, ([b] + z)[..32]) + ([b] + z)[32..]
    ensures |w| >= 33 && w[0] == q[0]
    ensures (if w[0] then Plus(w[..33], g)[1..] + w[33..] else w[1..])
         == Plus(if q[0] then Plus(q + [false], g)[1..] else q[1..] + [false], z[..32]) + z[32..]
  {
    assert forall k :: 0 <= k < 32 ==> q[k] == (r[k] != (k == 0 && b));
    assert forall k :: 1 <= k < 32 ==> w[k] == (q[k] != z[k - 1]);
    assert forall k :: 32 <= k < |w| ==> w[k] == z[k - 1];
  }

  lemma {:induction false} FoldDivides(c: bv32, bits: seq<bool>)
    ensures Remainder(Window(c, bits)) == LowBits(Fold(c, bits), 32)
    decreases |bits|
  {
    hide LowBits, BitStep, Xor, OneBit, Remainder, Window;
    if bits == [] {
      NothingLeft(c);
    } else {
      WindowStep(c, bits);
      FoldDivides(BitStep(Xor(c, OneBit(bits[0]))), bits[1..]);
    }
  }

  lemma NothingLeft(c: bv32)
    ensures Remainder(Window(c, [])) == LowBits(c, 32)
  {
    hide LowBits;
    assert [] + Zeroes(32) == Zeroes(32);
    assert Window(c, []) == LowBits(c, 32);
  }

  // ----- bytes

  lemma FoldOne(c: bv32, bits: seq<bool>)
    requires bits != []
    ensures Fold(c, bits) == Fold(BitStep(Xor(c, OneBit(bits[0]))), bits[1..])
  {
    hide BitStep, Xor, OneBit;
  }

  function PackBits(bits: seq<bool>): bv32
    requires |bits| == 8
  {
    Pack(bits[0], bits[1], bits[2], bits[3], bits[4], bits[5], bits[6], bits[7])
  }

  /** The lowest bit on its own, and the others one place lower. */
  lemma Peel(bits: seq<bool>)
    requires |bits| == 8
    ensures exists w :: PackBits(bits) == Xor(OneBit(bits[0]), w) && Doubles(PackBits(bits[1..] + [false]), w)
  {
    var b0, b1, b2, b3, b4, b5, b6, b7 := bits[0], bits[1], bits[2], bits[3], bits[4], bits[5], bits[6], bits[7];
    PeelPack(b0, b1, b2, b3, b4, b5, b6, b7);
  }

  lemma PeelPack(b0: bool, b1: bool, b2: bool, b3: bool, b4: bool, b5: bool, b6: bool, b7: bool)
    ensures var w := Pack(b1, b2, b3, b4, b5, b6, b7, false) << 1;
            Pack(b0, b1, b2, b3, b4, b5, b6, b7) == Xor(OneBit(b0), w) && Doubles(Pack(b1, b2, b3, b4, b5, b6, b7, false), w)
  {
  }

  lemma XorAssoc(c: bv32, x: bv32, w: bv32)
    ensures Xor(c, Xor(x, w)) == Xor(Xor(c, x), w)
  {
  }

  /** A step with a packed byte: its lowest bit is folded in, the others wait. */
  lemma PackedStep(c: bv32, bits: seq<bool>)
    requires |bits| == 8
    ensures BitStep(Xor(c, PackBits(bits))) == Xor(BitStep(Xor(c, OneBit(bits[0]))), PackBits(bits[1..] + [false]))
  {
    hide *;
    Peel(bits);
    var w :| PackBits(bits) == Xor(OneBit(bits[0]), w) && Doubles(PackBits(bits[1..] + [false]), w);
    XorAssoc(c, OneBit(bits[0]), w);
    BitStepShift(Xor(c, OneBit(bits[0])), PackBits(bits[1..] + [false]), w);
  }

  lemma NothingPacked(c: bv32)
    ensures Xor(c, PackBits(Zeroes(8))) == c
  {
  }

  /** `n` steps with a packed byte fold its first `n` bits in one at a time. */
  lemma {:induction false} StepsFold(c: bv32, bits: seq<bool>, n: nat)
    requires |bits| == 8 && n <= 8
    ensures BitSteps(Xor(c, PackBits(bits)), n) == Xor(Fold(c, bits[..n]), PackBits(bits[n..] + Zeroes(n)))
    decreases n
  {
    hide BitStep, Xor, OneBit, PackBits;
    if n == 0 {
      assert bits[0..] + Zeroes(0) == bits;
    } else {
      var d := Fold(c, bits[..n - 1]);
      var rest := bits[n - 1..] + Zeroes(n - 1);
      StepsFold(c, bits, n - 1);
      PackedStep(d, rest);
      assert rest[1..] + [false] == bits[n..] + Zeroes(n);
      assert bits[..n] == bits[..n - 1] + [bits[n - 1]];
      FoldAppend(c, bits[..n - 1], [bits[n - 1]]);
      FoldOne(d, [bits[n - 1]]);
    }
  }

  lemma ByteFolds(c: bv32, b: byte)
    ensures ByteStep(c, Widen(b)) == Fold(c, ByteBits(b))
  {
    hide BitSteps, Xor, OneBit, Pack;
    var bits := ByteBits(b);
    StepsFold(c, bits, 8);
    assert bits[..8] == bits && bits[8..] + Zeroes(8) == Zeroes(8);
    NothingPacked(Fold(c, bits));
  }

  lemma {:induction false} RegisterFolds(s: seq<byte>)
    ensures Register(0xffff_ffff, s) == Fold(0xffff_ffff, MessageBits(s))
  {
    hide ByteStep, Widen, ByteBits;
    if s != [] {
      var n := |s| - 1;
      RegisterFolds(s[..n]);
      ByteFolds(Register(0xffff_ffff, s[..n]), s[n]);
      FoldAppend(0xffff_ffff, MessageBits(s[..n]), ByteBits(s[n]));
    }
  }

  // ----- the register as a number

  lemma StartIsOnes()
    ensures LowBits(0xffff_ffff, 32) == Ones(32)
  {
    hide *;
    NextFour(0xffff_ffff, 0xfff_ffff, true, true, true, true, 28);
    NextFour(0xfff_ffff, 0xff_ffff, true, true, true, true, 24);
    NextFour(0xff_ffff, 0xf_ffff, true, true, true, true, 20);
    NextFour(0xf_ffff, 0xffff, true, true, true, true, 16);
    NextFour(0xffff, 0xfff, true, true, true, true, 12);
    NextFour(0xfff, 0xff, true, true, true, true, 8);
    NextFour(0xff, 0xf, true, true, true, true, 4);
    NextFour(0xf, 0, true, true, true, true, 0);
    NoBits(0);
  }

  lemma {:induction false} NumberAppend(a: seq<bool>, b: seq<bool>)
    ensures Number(a + b) == Number(a) + Power2(|a|) * Number(b)
    decreases |a|
  {
    if a == [] {
      assert a + b == b;
    } else {
      assert (a + b)[1..] == a[1..] + b;
      NumberAppend(a[1..], b);
      Distribute(Number(a[1..]), Power2(|a| - 1), Number(b));
    }
  }

  lemma Distribute(x: nat, p: nat, y: nat)
    ensures 2 * (x + p * y) == 2 * x + (2 * p) * y
  {
  }

  function Power2(n: nat): nat {
    if n == 0 then 1 else 2 * Power2(n - 1)
  }

  function Bit(b: bool, value: nat): nat {
    if b then value else 0
  }

  lemma NumberOfFour(b0: bool, b1: bool, b2: bool, b3: bool)
    ensures Number([b0, b1, b2, b3]) == Bit(b0, 1) + Bit(b1, 2) + Bit(b2, 4) + Bit(b3, 8)
  {
    assert [b0, b1, b2, b3][1..] == [b1, b2, b3] && [b1, b2, b3][1..] == [b2, b3] && [b2, b3][1..] == [b3];
    assert Number([b3]) == Bit(b3, 1);
    assert Number([b2, b3]) == Bit(b2, 1) + 2 * Number([b3]);
    assert Number([b1, b2, b3]) == Bit(b1, 1) + 2 * Number([b2, b3]);
  }

  function Nibble(c: bv32): nat {
    Bit(c & 1 != 0, 1) + Bit(c & 2 != 0, 2) + Bit(c & 4 != 0, 4) + Bit(c & 8 != 0, 8)
  }

  lemma NibbleNumber(c: bv32, n: nat)
    ensures Number(LowBits(c, n + 4)) == Nibble(c) + 16 * Number(LowBits(c >> 4, n))
  {
    hide LowBits, Number, Bit;
    NextFour(c, c >> 4, c & 1 != 0, c & 2 != 0, c & 4 != 0, c & 8 != 0, n);
    NumberOfFour(c & 1 != 0, c & 2 != 0, c & 4 != 0, c & 8 != 0);
    NumberAppend([c & 1 != 0, c & 2 != 0, c & 4 != 0, c & 8 != 0], LowBits(c >> 4, n));
    assert Power2(1) == 2;
    assert Power2(2) == 4;
    assert Power2(3) == 8;
  }

  lemma NarrowIs(c: bv32)
    ensures Narrow(c) == Nibble(c) + 16 * Nibble(c >> 4)
  {
    HighNibble(c);
  }

  lemma HighNibble(c: bv32)
    ensures ((c >> 4) & 1 != 0 <==> c & 16 != 0) && ((c >> 4) & 2 != 0 <==> c & 32 != 0)
    ensures ((c >> 4) & 4 != 0 <==> c & 64 != 0) && ((c >> 4) & 8 != 0 <==> c & 128 != 0)
  {
  }

  lemma ByteNumber(c: bv32, n: nat)
    ensures Number(LowBits(c, n + 8)) == Narrow(c) + 256 * Number(LowBits(c >> 8, n))
  {
    hide *;
    NibbleNumber(c, n + 4);
    NibbleNumber(c >> 4, n);
    NarrowIs(c);
    EightIsTwice(c);
  }

  lemma EightIsTwice(c: bv32)
    ensures (c >> 4) >> 4 == c >> 8
  {
  }

  lemma NoNumber(c: bv32)
    ensures Number(LowBits(c, 0)) == 0
  {
  }

  lemma ToU32Is(c: bv32)
    ensures ToU32(c) == Number(LowBits(c, 32))
  {
    hide *;
    var c1, c2, c3 := Shifts(c);
    Combined(c, c1, c2, c3);
  }

  lemma Shifts(c: bv32) returns (c1: bv32, c2: bv32, c3: bv32)
    ensures c1 == c >> 8 && c2 == c >> 16 && c3 == c >> 24 && c2 == c1 >> 8 && c3 == c2 >> 8
  {
    c1 := c >> 8;
    c2 := c1 >> 8;
    c3 := c2 >> 8;
    TwoBytes(c, c1, c2);
    ThreeBytes(c, c1, c2, c3);
  }

  lemma TwoBytes(c: bv32, c1: bv32, c2: bv32)
    requires c1 == c >> 8 && c2 == c1 >> 8
    ensures c2 == c >> 16
  {
  }

  lemma ThreeBytes(c: bv32, c1: bv32, c2: bv32, c3: bv32)
    requires c1 == c >> 8 && c2 == c1 >> 8 && c3 == c2 >> 8
    ensures c3 == c >> 24
  {
  }

  lemma Combined(c: bv32, c1: bv32, c2: bv32, c3: bv32)
    requires c1 == c >> 8 && c2 == c >> 16 && c3 == c >> 24 && c2 == c1 >> 8 && c3 == c2 >> 8
    ensures ToU32(c) == Number(LowBits(c, 32))
  {
    hide *;
    ToU32Digit(c, c1, c2, c3);
    FourBytesNumber(c, c1, c2, c3);
  }

  lemma FourBytesNumber(c: bv32, c1: bv32, c2: bv32, c3: bv32)
    requires c1 == c >> 8 && c2 == c1 >> 8 && c3 == c2 >> 8
    ensures Number(LowBits(c, 32)) == Narrow(c) + 256 * (Narrow(c1) + 256 * (Narrow(c2) + 256 * Narrow(c3)))
  {
    hide *;
    ByteNumber(c, 24);
    ByteNumber(c1, 16);
    ByteNumber(c2, 8);
    ByteNumber(c3, 0);
    NoNumber(c3 >> 8);
  }

  lemma ToU32Digit(c: bv32, c1: bv32, c2: bv32, c3: bv32)
    requires c1 == c >> 8 && c2 == c >> 16 && c3 == c >> 24
    ensures ToU32(c) == Narrow(c) + 256 * (Narrow(c1) + 256 * (Narrow(c2) + 256 * Narrow(c3)))
  {
    hide Narrow;
  }

  lemma FinishIs(c: bv32)
    ensures Finish(c) == Number(Complement(LowBits(c, 32)))
  {
    hide *;
    ToU32Is(!c);
    NotIsXor(c);
    LowBitsXor(c, 0xffff_ffff, 32);
    StartIsOnes();
    FinishMeans(c);
    ComplementIs(LowBits(c, 32));
  }

  lemma NotIsXor(c: bv32)
    ensures !c == Xor(c, 0xffff_ffff)
  {
  }

  lemma FinishMeans(c: bv32)
    ensures Finish(c) == ToU32(!c)
  {
  }

  lemma ComplementIs(a: seq<bool>)
    ensures Complement(a) == Plus(a, Ones(|a|)) && Complement(a) == Plus(Ones(|a|), a)
  {
  }

  lemma DividendIs(s: seq<byte>)
    requires LowBits(0xffff_ffff, 32) == Ones(32)
    ensures Dividend(s) == Window(0xffff_ffff, MessageBits(s))
  {
    hide LowBits, MessageBits;
    ComplementIs((MessageBits(s) + Zeroes(32))[..32]);
  }

  lemma CrcIs(s: seq<byte>)
    ensures Crc(s) == Finish(Register(0xffff_ffff, s))
  {
    hide Finish, Register;
  }

  /** The checksum of the source: for every byte string, the complement of the
      remainder of dividing the string, behind it 32 zeros and its first 32 bits
      complemented, by the generator. */
  lemma CrcIsRemainder(s: seq<byte>)
    ensures Crc(s) == Number(Complement(Remainder(Dividend(s))))
  {
    hide *;
    CrcIs(s);
    RegisterFolds(s);
    FoldDivides(0xffff_ffff, MessageBits(s));
    StartIsOnes();
    DividendIs(s);
    FinishIs(Register(0xffff_ffff, s));
  }

  // ----- the check value

  lemma EightSteps(x: bv32, x1: bv32, x2: bv32, x3: bv32, x4: bv32, x5: bv32, x6: bv32, x7: bv32, x8: bv32)
    requires BitStep(x) == x1 && BitStep(x1) == x2 && BitStep(x2) == x3 && BitStep(x3) == x4
    requires BitStep(x4) == x5 && BitStep(x5) == x6 && BitStep(x6) == x7 && BitStep(x7) == x8
    ensures Eight(x) == x8
  {
    hide BitStep;
    assert BitSteps(x, 1) == x1 && BitSteps(x, 2) == x2 && BitSteps(x, 3) == x3 && BitSteps(x, 4) == x4;
    assert BitSteps(x, 5) == x5 && BitSteps(x, 6) == x6 && BitSteps(x, 7) == x7;
  }

  lemma NextByte(s: seq<byte>, b: byte, c: bv32, x: bv32, d: bv32)
    requires Register(0xffff_ffff, s) == c && Xor(c, Widen(b)) == x && Eight(x) == d
    ensures Register(0xffff_ffff, s + [b]) == d
  {
    hide Xor, Eight, Widen;
    assert (s + [b])[..|s|] == s;
  }

  lemma Digit1()
    ensures Xor(0xffffffff, Widen(0x31)) == 0xffffffce && Eight(0xffffffce) == 0x7c231048
  {
    hide BitSteps;
    EightSteps(0xffffffce, 0x7fffffe7, 0xd2477cd3, 0x849b3d49, 0xaff51d84, 0x57fa8ec2, 0x2bfd4761, 0xf8462090, 0x7c231048);
  }

  lemma Digit2()
    ensures Xor(0x7c231048, Widen(0x32)) == 0x7c23107a && Eight(0x7c23107a) == 0xb0acbb32
  {
    hide BitSteps;
    EightSteps(0x7c23107a, 0x3e11883d, 0xf2b0473e, 0x7958239f, 0xd11492ef, 0x8532ca57, 0xaf21e60b, 0xba287025, 0xb0acbb32);
  }

  lemma Digit3()
    ensures Xor(0xb0acbb32, Widen(0x33)) == 0xb0acbb01 && Eight(0xb0acbb01) == 0x77b79c2d
  {
    hide BitSteps;
    EightSteps(0xb0acbb01, 0xb5eedea0, 0x5af76f50, 0x2d7bb7a8, 0x16bddbd4, 0xb5eedea, 0x5af76f5, 0xef6f385a, 0x77b79c2d);
  }

  lemma Digit4()
    ensures Xor(0x77b79c2d, Widen(0x34)) == 0x77b79c19 && Eight(0x77b79c19) == 0x641c1f5c
  {
    hide BitSteps;
    EightSteps(0x77b79c19, 0xd6634d2c, 0x6b31a696, 0x3598d34b, 0xf774ea85, 0x9602f662, 0x4b017b31, 0xc8383eb8, 0x641c1f5c);
  }

  lemma Digit5()
    ensures Xor(0x641c1f5c, Widen(0x35)) == 0x641c1f69 && Eight(0x641c1f69) == 0x340ac5e3
  {
    hide BitSteps;
    EightSteps(0x641c1f69, 0xdfb68c94, 0x6fdb464a, 0x37eda325, 0xf64e52b2, 0x7b272959, 0xd02b178c, 0x68158bc6, 0x340ac5e3);
  }

  lemma Digit6()
    ensures Xor(0x340ac5e3, Widen(0x36)) == 0x340ac5d5 && Eight(0x340ac5d5) == 0xf68d2c9e
  {
    hide BitSteps;
    EightSteps(0x340ac5d5, 0xf7bde1ca, 0x7bdef0e5, 0xd057fb52, 0x682bfda9, 0xd9ad7df4, 0x6cd6befa, 0x366b5f7d, 0xf68d2c9e);
  }

  lemma Digit7()
    ensures Xor(0xf68d2c9e, Widen(0x37)) == 0xf68d2ca9 && Eight(0xf68d2ca9) == 0xaffc9660
  {
    hide BitSteps;
    EightSteps(0xf68d2ca9, 0x96fe1574, 0x4b7f0aba, 0x25bf855d, 0xff67418e, 0x7fb3a0c7, 0xd2615343, 0x84882a81, 0xaffc9660);
  }

  lemma Digit8()
    ensures Xor(0xaffc9660, Widen(0x38)) == 0xaffc9658 && Eight(0xaffc9658) == 0x651f2550
  {
    hide BitSteps;
    EightSteps(0xaffc9658, 0x57fe4b2c, 0x2bff2596, 0x15ff92cb, 0xe7474a45, 0x9e1b2602, 0x4f0d9301, 0xca3e4aa0, 0x651f2550);
  }

  lemma Digit9()
    ensures Xor(0x651f2550, Widen(0x39)) == 0x651f2569 && Eight(0x651f2569) == 0x340bc6d9
  {
    hide BitSteps;
    EightSteps(0x651f2569, 0xdf371194, 0x6f9b88ca, 0x37cdc465, 0xf65e6112, 0x7b2f3089, 0xd02f1b64, 0x68178db2, 0x340bc6d9);
  }

  /** The published check value, that of the digits 1 to 9. */
  lemma CheckValue()
    ensures Crc([0x31, 0x32, 0x33, 0x34, 0x35, 0x36, 0x37, 0x38, 0x39]) == 0xcbf4_3926
  {
    hide *;
    NoBytes();
    Digit1();
    NextByte([], 0x31, 0xffffffff, 0xffffffce, 0x7c231048);
    assert [] + [0x31] == [0x31];
    Digit2();
    NextByte([0x31], 0x32, 0x7c231048, 0x7c23107a, 0xb0acbb32);
    assert [0x31] + [0x32] == [0x31, 0x32];
    Digit3();
    NextByte([0x31, 0x32], 0x33, 0xb0acbb32, 0xb0acbb01, 0x77b79c2d);
    assert [0x31, 0x32] + [0x33] == [0x31, 0x32, 0x33];
    Digit4();
    NextByte([0x31, 0x32, 0x33], 0x34, 0x77b79c2d, 0x77b79c19, 0x641c1f5c);
    assert [0x31, 0x32, 0x33] + [0x34] == [0x31, 0x32, 0x33, 0x34];
    Digit5();
    NextByte([0x31, 0x32, 0x33, 0x34], 0x35, 0x641c1f5c, 0x641c1f69, 0x340ac5e3);
    assert [0x31, 0x32, 0x33, 0x34] + [0x35] == [0x31, 0x32, 0x33, 0x34, 0x35];
    Digit6();
    NextByte([0x31, 0x32, 0x33, 0x34, 0x35], 0x36, 0x340ac5e3, 0x340ac5d5, 0xf68d2c9e);
    assert [0x31, 0x32, 0x33, 0x34, 0x35] + [0x36] == [0x31, 0x32, 0x33, 0x34, 0x35, 0x36];
    Digit7();
    NextByte([0x31, 0x32, 0x33, 0x34, 0x35, 0x36], 0x37, 0xf68d2c9e, 0xf68d2ca9, 0xaffc9660);
    assert [0x31, 0x32, 0x33, 0x34, 0x35, 0x36] + [0x37] == [0x31, 0x32, 0x33, 0x34, 0x35, 0x36, 0x37];
    Digit8();
    NextByte([0x31, 0x32, 0x33, 0x34, 0x35, 0x36, 0x37], 0x38, 0xaffc9660, 0xaffc9658, 0x651f2550);
    assert [0x31, 0x32, 0x33, 0x34, 0x35, 0x36, 0x37] + [0x38] == [0x31, 0x32, 0x33, 0x34, 0x35, 0x36, 0x37, 0x38];
    Digit9();
    NextByte([0x31, 0x32, 0x33, 0x34, 0x35, 0x36, 0x37, 0x38], 0x39, 0x651f2550, 0x651f2569, 0x340bc6d9);
    assert [0x31, 0x32, 0x33, 0x34, 0x35, 0x36, 0x37, 0x38] + [0x39] == [0x31, 0x32, 0x33, 0x34, 0x35, 0x36, 0x37, 0x38, 0x39];
    CrcIs([0x31, 0x32, 0x33, 0x34, 0x35, 0x36, 0x37, 0x38, 0x39]);
    LastComplement();
  }

  lemma NoBytes()
    ensures Register(0xffff_ffff, []) == 0xffff_ffff
  {
  }

  lemma LastComplement()
    ensures Finish(0x340bc6d9) == 0xcbf4_3926
  {
    assert !(0x340bc6d9 as bv32) == 0xcbf4_3926;
  }
}

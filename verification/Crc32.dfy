/** The bitwise CRC32 of device/boot/liuqin-mark-slot-successful.c, and what it
    detects. */
module Crc32 {
  import opened Bytes

  const POLYNOMIAL: bv32 := 0xedb8_8320

  // ----- bytes and registers

  /** Eight bits, least significant first, as the low byte of a register. */
  function Pack(b0: bool, b1: bool, b2: bool, b3: bool, b4: bool, b5: bool, b6: bool, b7: bool): bv32 {
    (if b0 then 1 else 0) | (if b1 then 2 else 0) | (if b2 then 4 else 0) | (if b3 then 8 else 0) |
    (if b4 then 16 else 0) | (if b5 then 32 else 0) | (if b6 then 64 else 0) | (if b7 then 128 else 0)
  }

  /** The byte as the low eight bits of a register. */
  function Widen(b: byte): bv32 {
    Pack(b % 2 == 1, b / 2 % 2 == 1, b / 4 % 2 == 1, b / 8 % 2 == 1,
         b / 16 % 2 == 1, b / 32 % 2 == 1, b / 64 % 2 == 1, b / 128 % 2 == 1)
  }

  /** The low eight bits of a register as a byte. */
  function Narrow(x: bv32): byte {
    (if x & 1 != 0 then 1 else 0) + (if x & 2 != 0 then 2 else 0) +
    (if x & 4 != 0 then 4 else 0) + (if x & 8 != 0 then 8 else 0) +
    (if x & 16 != 0 then 16 else 0) + (if x & 32 != 0 then 32 else 0) +
    (if x & 64 != 0 then 64 else 0) + (if x & 128 != 0 then 128 else 0)
  }

  function ToU32(x: bv32): u32 {
    Le32([Narrow(x), Narrow(x >> 8), Narrow(x >> 16), Narrow(x >> 24)], 0)
  }

  lemma PackInjective(x0: bool, x1: bool, x2: bool, x3: bool, x4: bool, x5: bool, x6: bool, x7: bool,
                      y0: bool, y1: bool, y2: bool, y3: bool, y4: bool, y5: bool, y6: bool, y7: bool)
    requires Pack(x0, x1, x2, x3, x4, x5, x6, x7) == Pack(y0, y1, y2, y3, y4, y5, y6, y7)
    ensures x0 == y0 && x1 == y1 && x2 == y2 && x3 == y3 && x4 == y4 && x5 == y5 && x6 == y6 && x7 == y7
  {
  }

  lemma BitsDetermine(x: byte, y: byte)
    requires x % 2 == y % 2 && x / 2 % 2 == y / 2 % 2 && x / 4 % 2 == y / 4 % 2 && x / 8 % 2 == y / 8 % 2
    requires x / 16 % 2 == y / 16 % 2 && x / 32 % 2 == y / 32 % 2
    requires x / 64 % 2 == y / 64 % 2 && x / 128 % 2 == y / 128 % 2
    ensures x == y
  {
    Horner(x);
    Horner(y);
  }

  lemma Horner(x: byte)
    ensures x == x % 2 + 2 * (x / 2 % 2) + 4 * (x / 4 % 2) + 8 * (x / 8 % 2) + 16 * (x / 16 % 2)
              + 32 * (x / 32 % 2) + 64 * (x / 64 % 2) + 128 * (x / 128 % 2)
  {
    assert x / 4 == x / 2 / 2;
    assert x / 8 == x / 4 / 2;
    assert x / 16 == x / 8 / 2;
    assert x / 32 == x / 16 / 2;
    assert x / 64 == x / 32 / 2;
    assert x / 128 == x / 64 / 2;
  }

  lemma WidenInjective(x: byte, y: byte)
    requires Widen(x) == Widen(y)
    ensures x == y
  {
    PackInjective(x % 2 == 1, x / 2 % 2 == 1, x / 4 % 2 == 1, x / 8 % 2 == 1,
                  x / 16 % 2 == 1, x / 32 % 2 == 1, x / 64 % 2 == 1, x / 128 % 2 == 1,
                  y % 2 == 1, y / 2 % 2 == 1, y / 4 % 2 == 1, y / 8 % 2 == 1,
                  y / 16 % 2 == 1, y / 32 % 2 == 1, y / 64 % 2 == 1, y / 128 % 2 == 1);
    BitsDetermine(x, y);
  }

  lemma NarrowInjective(x: bv32, y: bv32)
    requires Narrow(x) == Narrow(y)
    ensures Low(x) == Low(y)
  {
  }

  function Low(x: bv32): bv32 {
    x & 0xff
  }

  lemma ToU32Digits(x: bv32, y: bv32)
    requires ToU32(x) == ToU32(y)
    ensures Narrow(x) == Narrow(y) && Narrow(x >> 8) == Narrow(y >> 8)
    ensures Narrow(x >> 16) == Narrow(y >> 16) && Narrow(x >> 24) == Narrow(y >> 24)
  {
    hide Narrow;
    DigitsDetermine(Narrow(x), Narrow(x >> 8), Narrow(x >> 16), Narrow(x >> 24),
                    Narrow(y), Narrow(y >> 8), Narrow(y >> 16), Narrow(y >> 24));
  }

  lemma ToU32Injective(x: bv32, y: bv32)
    requires ToU32(x) == ToU32(y)
    ensures x == y
  {
    ToU32Digits(x, y);
    FromDigits(x, y, x >> 8, y >> 8, x >> 16, y >> 16, x >> 24, y >> 24);
  }

  lemma FromDigits(x0: bv32, y0: bv32, x1: bv32, y1: bv32, x2: bv32, y2: bv32, x3: bv32, y3: bv32)
    requires Narrow(x0) == Narrow(y0) && Narrow(x1) == Narrow(y1)
    requires Narrow(x2) == Narrow(y2) && Narrow(x3) == Narrow(y3)
    requires x1 == x0 >> 8 && x2 == x0 >> 16 && x3 == x0 >> 24
    requires y1 == y0 >> 8 && y2 == y0 >> 16 && y3 == y0 >> 24
    ensures x0 == y0
  {
    hide *;
    NarrowInjective(x0, y0);
    NarrowInjective(x1, y1);
    NarrowInjective(x2, y2);
    NarrowInjective(x3, y3);
    Reassemble(x0, y0);
  }

  lemma Reassemble(x: bv32, y: bv32)
    requires Low(x) == Low(y) && Low(x >> 8) == Low(y >> 8)
    requires Low(x >> 16) == Low(y >> 16) && Low(x >> 24) == Low(y >> 24)
    ensures x == y
  {
  }

  // ----- the checksum

  /** One bit of the CRC: shift right and fold the polynomial in when a one falls out. */
  function BitStep(crc: bv32): bv32 {
    (crc >> 1) ^ (POLYNOMIAL & (0 - (crc & 1)))
  }

  function BitSteps(crc: bv32, n: nat): bv32 {
    if n == 0 then crc else BitStep(BitSteps(crc, n - 1))
  }

  /** The register after one more byte, already widened. */
  function ByteStep(crc: bv32, w: bv32): bv32 {
    Eight(Xor(crc, w))
  }

  function Xor(x: bv32, y: bv32): bv32 {
    x ^ y
  }

  function Eight(x: bv32): bv32 {
    BitSteps(x, 8)
  }

  /** The register after the bytes of `s`, starting from `crc`. */
  function Register(crc: bv32, s: seq<byte>): bv32 {
    if s == [] then crc else ByteStep(Register(crc, s[..|s| - 1]), Widen(s[|s| - 1]))
  }

  function Finish(crc: bv32): u32 {
    ToU32(!crc)
  }

  function Crc(s: seq<byte>): u32 {
    Finish(Register(0xffff_ffff, s))
  }

  /** The inner loop of `crc32_bytes`. */
  method FoldByte(start: bv32, b: byte) returns (crc: bv32)
    ensures crc == ByteStep(start, Widen(b))
  {
    crc := start ^ Widen(b);
    for bit := 0 to 8
      invariant crc == BitSteps(start ^ Widen(b), bit)
    {
      crc := (crc >> 1) ^ (POLYNOMIAL & (0 - (crc & 1)));
    }
  }

  method Crc32Bytes(buf: array<byte>, len: nat) returns (result: u32)
    requires len <= buf.Length
    ensures result == Crc(buf[..len])
  {
    hide ByteStep, Widen, Finish;
    var crc: bv32 := 0xffff_ffff;
    for i := 0 to len
      invariant crc == Register(0xffff_ffff, buf[..i])
    {
      assert buf[..i + 1][..i] == buf[..i];
      crc := FoldByte(crc, buf[i]);
    }
    result := Finish(crc);
  }

  // ----- injectivity

  lemma BitStepInjective(x: bv32, y: bv32)
    requires BitStep(x) == BitStep(y)
    ensures x == y
  {
  }

  lemma {:induction false} BitStepsInjective(x: bv32, y: bv32, n: nat)
    requires BitSteps(x, n) == BitSteps(y, n)
    ensures x == y
  {
    if n > 0 {
      BitStepInjective(BitSteps(x, n - 1), BitSteps(y, n - 1));
      BitStepsInjective(x, y, n - 1);
    }
  }

  lemma FinishInjective(x: bv32, y: bv32)
    requires Finish(x) == Finish(y)
    ensures x == y
  {
    ToU32Injective(!x, !y);
    NotInjective(x, y);
  }

  lemma NotInjective(x: bv32, y: bv32)
    requires !x == !y
    ensures x == y
  {
  }

  lemma ByteStepInjective(x: bv32, y: bv32, w: bv32)
    requires ByteStep(x, w) == ByteStep(y, w)
    ensures x == y
  {
    hide BitSteps, Xor;
    BitStepsInjective(Xor(x, w), Xor(y, w), 8);
    XorCancels(x, y, w);
  }

  /** Equal bytes after the difference cannot cancel it. */
  lemma {:induction false} SuffixKeepsDifference(x: bv32, y: bv32, s: seq<byte>)
    requires Register(x, s) == Register(y, s)
    ensures x == y
  {
    hide ByteStep, Widen;
    if s != [] {
      var n := |s| - 1;
      ByteStepInjective(Register(x, s[..n]), Register(y, s[..n]), Widen(s[n]));
      SuffixKeepsDifference(x, y, s[..n]);
    }
  }

  lemma XorCancels(x: bv32, y: bv32, w: bv32)
    requires Xor(x, w) == Xor(y, w)
    ensures x == y
  {
  }

  lemma {:induction false} RegisterConcat(x: bv32, s: seq<byte>, t: seq<byte>)
    ensures Register(x, s + t) == Register(Register(x, s), t)
  {
    hide ByteStep, Widen;
    if t == [] {
      assert s + t == s;
    } else {
      var n := |t| - 1;
      RegisterConcat(x, s, t[..n]);
      assert (s + t)[..|s + t| - 1] == s + t[..n];
    }
  }

  // ----- bursts: four consecutive bytes enter the register as one word

  predicate Doubles(z: bv32, w: bv32) {
    z & 0x8000_0000 == 0 && w == z << 1
  }

  lemma ShiftFolds(x: bv32, z: bv32)
    requires z & 0x8000_0000 == 0
    ensures BitStep(x ^ (z << 1)) == BitStep(x) ^ z
  {
  }

  lemma BitStepShift(x: bv32, z: bv32, w: bv32)
    requires Doubles(z, w)
    ensures BitStep(Xor(x, w)) == Xor(BitStep(x), z)
  {
    hide BitStep;
    ShiftFolds(x, z);
  }

  predicate Carried(x: bv32, top: bv32, w: bv32, n: nat) {
    BitSteps(Xor(x, top), n) == Xor(BitSteps(x, n), w)
  }

  lemma CarryOn(x: bv32, top: bv32, z: bv32, w: bv32, n: nat)
    requires Doubles(z, w) && Carried(x, top, w, n)
    ensures Carried(x, top, z, n + 1)
  {
    hide Doubles, BitStep, Xor;
    BitStepShift(BitSteps(x, n), z, w);
  }

  /** Room for one more byte below bit 24. */
  predicate Short(y: bv32) {
    y & 0xff00_0000 == 0
  }

  function Up(y: bv32): bv32 {
    y << 8
  }

  lemma DoubleEight(y: bv32) returns (y1: bv32, y2: bv32, y3: bv32, y4: bv32, y5: bv32, y6: bv32, y7: bv32)
    requires Short(y)
    ensures Doubles(y, y1) && Doubles(y1, y2) && Doubles(y2, y3) && Doubles(y3, y4)
    ensures Doubles(y4, y5) && Doubles(y5, y6) && Doubles(y6, y7) && Doubles(y7, Up(y))
  {
    y1 := y << 1;
    y2 := y << 2;
    y3 := y << 3;
    y4 := y << 4;
    y5 := y << 5;
    y6 := y << 6;
    y7 := y << 7;
    DoublesA(y);
    DoublesB(y);
    DoublesC(y);
    DoublesD(y);
  }

  lemma DoublesA(y: bv32)
    requires Short(y)
    ensures Doubles(y, y << 1) && Doubles(y << 1, y << 2)
  {
  }

  lemma DoublesB(y: bv32)
    requires Short(y)
    ensures Doubles(y << 2, y << 3) && Doubles(y << 3, y << 4)
  {
  }

  lemma DoublesC(y: bv32)
    requires Short(y)
    ensures Doubles(y << 4, y << 5) && Doubles(y << 5, y << 6)
  {
  }

  lemma DoublesD(y: bv32)
    requires Short(y)
    ensures Doubles(y << 6, y << 7) && Doubles(y << 7, Up(y))
  {
  }

  /** A word of at most 24 bits, entered one byte early, comes out unchanged. */
  lemma ByteShift(x: bv32, y: bv32)
    requires Short(y)
    ensures Carried(x, Up(y), y, 8)
  {
    hide *;
    var y1, y2, y3, y4, y5, y6, y7 := DoubleEight(y);
    CarryChain(x, y, y1, y2, y3, y4, y5, y6, y7, Up(y));
  }

  lemma CarryChain(x: bv32, y0: bv32, y1: bv32, y2: bv32, y3: bv32, y4: bv32, y5: bv32, y6: bv32, y7: bv32, y8: bv32)
    requires Doubles(y0, y1) && Doubles(y1, y2) && Doubles(y2, y3) && Doubles(y3, y4)
    requires Doubles(y4, y5) && Doubles(y5, y6) && Doubles(y6, y7) && Doubles(y7, y8)
    ensures Carried(x, y8, y0, 8)
  {
    hide Doubles, Carried;
    CarryNone(x, y8);
    CarryOn(x, y8, y7, y8, 0);
    CarryOn(x, y8, y6, y7, 1);
    CarryOn(x, y8, y5, y6, 2);
    CarryOn(x, y8, y4, y5, 3);
    CarryOn(x, y8, y3, y4, 4);
    CarryOn(x, y8, y2, y3, 5);
    CarryOn(x, y8, y1, y2, 6);
    CarryOn(x, y8, y0, y1, 7);
  }

  lemma CarryNone(x: bv32, top: bv32)
    ensures Carried(x, top, top, 0)
  {
  }

  function Four(x: bv32): bv32 {
    Eight(Eight(Eight(Eight(x))))
  }

  /** Four bytes folded one at a time are one word folded in 32 steps. */
  lemma FourBytes(c: bv32, w0: bv32, w1: bv32, w2: bv32, w3: bv32)
    requires w1 <= 0xff && w2 <= 0xff && w3 <= 0xff
    ensures ByteStep(ByteStep(ByteStep(ByteStep(c, w0), w1), w2), w3) == Four(Word(c, w0, w1, w2, w3))
  {
    hide Eight, Up, Xor;
    var u0 := Xor(c, w0);
    var u1 := Xor(u0, Up(w1));
    var u2 := Xor(u1, Up(Up(w2)));
    Pull1(u0, w1);
    Pull2(u1, w2);
    Pull3(u2, w3);
  }

  function Word(c: bv32, w0: bv32, w1: bv32, w2: bv32, w3: bv32): bv32 {
    Xor(Xor(Xor(Xor(c, w0), Up(w1)), Up(Up(w2))), Up(Up(Up(w3))))
  }

  lemma ByteIsShort(w: bv32)
    requires w <= 0xff
    ensures Short(w) && Short(Up(w)) && Short(Up(Up(w)))
  {
  }

  lemma Pull1(u: bv32, w: bv32)
    requires Short(w)
    ensures Xor(Eight(u), w) == Eight(Xor(u, Up(w)))
  {
    hide BitSteps, Short, Up, Xor;
    ByteShift(u, w);
  }

  lemma Pull2(u: bv32, w: bv32)
    requires w <= 0xff
    ensures Xor(Eight(Eight(u)), w) == Eight(Eight(Xor(u, Up(Up(w)))))
  {
    hide *;
    ByteIsShort(w);
    Pull1(Eight(u), w);
    Pull1(u, Up(w));
  }

  lemma Pull3(u: bv32, w: bv32)
    requires w <= 0xff
    ensures Xor(Eight(Eight(Eight(u))), w) == Eight(Eight(Eight(Xor(u, Up(Up(Up(w)))))))
  {
    hide *;
    ByteIsShort(w);
    Pull2(Eight(u), w);
    Pull1(u, Up(Up(w)));
  }

  lemma FourInjective(x: bv32, y: bv32)
    requires Four(x) == Four(y)
    ensures x == y
  {
    EightInjective(Eight(Eight(Eight(x))), Eight(Eight(Eight(y))));
    EightInjective(Eight(Eight(x)), Eight(Eight(y)));
    EightInjective(Eight(x), Eight(y));
    EightInjective(x, y);
  }

  lemma EightInjective(x: bv32, y: bv32)
    requires Eight(x) == Eight(y)
    ensures x == y
  {
    hide BitSteps;
    BitStepsInjective(x, y, 8);
  }

  lemma WordInjective(c: bv32, v0: bv32, v1: bv32, v2: bv32, v3: bv32, w0: bv32, w1: bv32, w2: bv32, w3: bv32)
    requires v0 <= 0xff && v1 <= 0xff && v2 <= 0xff && v3 <= 0xff
    requires w0 <= 0xff && w1 <= 0xff && w2 <= 0xff && w3 <= 0xff
    requires Word(c, v0, v1, v2, v3) == Word(c, w0, w1, w2, w3)
    ensures v0 == w0 && v1 == w1 && v2 == w2 && v3 == w3
  {
    WordIs(c, v0, v1, v2, v3);
    WordIs(c, w0, w1, w2, w3);
    hide *;
    LanesInjective(c, v0, v1, v2, v3, w0, w1, w2, w3);
  }

  lemma WordIs(c: bv32, w0: bv32, w1: bv32, w2: bv32, w3: bv32)
    ensures Word(c, w0, w1, w2, w3) == c ^ w0 ^ (w1 << 8) ^ (w2 << 16) ^ (w3 << 24)
  {
    hide Up, Xor;
    Ups(w1, w2, w3);
    XorChain(c, w0, w1 << 8, w2 << 16, w3 << 24);
  }

  lemma Ups(w1: bv32, w2: bv32, w3: bv32)
    ensures Up(w1) == w1 << 8 && Up(Up(w2)) == w2 << 16 && Up(Up(Up(w3))) == w3 << 24
  {
  }

  lemma XorChain(c: bv32, w0: bv32, w1: bv32, w2: bv32, w3: bv32)
    ensures Xor(Xor(Xor(Xor(c, w0), w1), w2), w3) == c ^ w0 ^ w1 ^ w2 ^ w3
  {
    hide *;
    var a := Xor(c, w0);
    var b := Xor(a, w1);
    var d := Xor(b, w2);
    var e := Xor(d, w3);
    XorIs(c, w0);
    XorIs(a, w1);
    XorIs(b, w2);
    XorIs(d, w3);
    Chained(c, w0, w1, w2, w3, a, b, d, e);
  }

  lemma Chained(c: bv32, w0: bv32, w1: bv32, w2: bv32, w3: bv32, a: bv32, b: bv32, d: bv32, e: bv32)
    requires a == c ^ w0 && b == a ^ w1 && d == b ^ w2 && e == d ^ w3
    ensures e == c ^ w0 ^ w1 ^ w2 ^ w3
  {
  }

  lemma XorIs(x: bv32, y: bv32)
    ensures Xor(x, y) == x ^ y
  {
  }

  lemma LanesInjective(c: bv32, v0: bv32, v1: bv32, v2: bv32, v3: bv32, w0: bv32, w1: bv32, w2: bv32, w3: bv32)
    requires v0 <= 0xff && v1 <= 0xff && v2 <= 0xff && v3 <= 0xff
    requires w0 <= 0xff && w1 <= 0xff && w2 <= 0xff && w3 <= 0xff
    requires c ^ v0 ^ (v1 << 8) ^ (v2 << 16) ^ (v3 << 24) == c ^ w0 ^ (w1 << 8) ^ (w2 << 16) ^ (w3 << 24)
    ensures v0 == w0 && v1 == w1 && v2 == w2 && v3 == w3
  {
  }

  lemma PackBounded(b: byte)
    ensures Widen(b) <= 0xff
  {
  }

  /** Two different four-byte strings leave different registers. */
  lemma QuadInjective(c: bv32, s: seq<byte>, t: seq<byte>)
    requires |s| == 4 && |t| == 4
    requires Register(c, s) == Register(c, t)
    ensures s == t
  {
    hide Register, Widen, ByteStep;
    RegisterOfFour(c, s);
    RegisterOfFour(c, t);
    QuadWords(c, Widen(s[0]), Widen(s[1]), Widen(s[2]), Widen(s[3]), Widen(t[0]), Widen(t[1]), Widen(t[2]), Widen(t[3])) by {
      PackBounded(s[0]); PackBounded(s[1]); PackBounded(s[2]); PackBounded(s[3]);
      PackBounded(t[0]); PackBounded(t[1]); PackBounded(t[2]); PackBounded(t[3]);
    }
    WidenInjective(s[0], t[0]);
    WidenInjective(s[1], t[1]);
    WidenInjective(s[2], t[2]);
    WidenInjective(s[3], t[3]);
  }

  lemma QuadWords(c: bv32, v0: bv32, v1: bv32, v2: bv32, v3: bv32, w0: bv32, w1: bv32, w2: bv32, w3: bv32)
    requires v0 <= 0xff && v1 <= 0xff && v2 <= 0xff && v3 <= 0xff
    requires w0 <= 0xff && w1 <= 0xff && w2 <= 0xff && w3 <= 0xff
    requires ByteStep(ByteStep(ByteStep(ByteStep(c, v0), v1), v2), v3)
          == ByteStep(ByteStep(ByteStep(ByteStep(c, w0), w1), w2), w3)
    ensures v0 == w0 && v1 == w1 && v2 == w2 && v3 == w3
  {
    hide ByteStep, Four, Word;
    FourBytes(c, v0, v1, v2, v3);
    FourBytes(c, w0, w1, w2, w3);
    FourInjective(Word(c, v0, v1, v2, v3), Word(c, w0, w1, w2, w3));
    WordInjective(c, v0, v1, v2, v3, w0, w1, w2, w3);
  }

  lemma RegisterOfFour(c: bv32, s: seq<byte>)
    requires |s| == 4
    ensures Register(c, s) == ByteStep(ByteStep(ByteStep(ByteStep(c, Widen(s[0])), Widen(s[1])), Widen(s[2])), Widen(s[3]))
  {
    hide ByteStep, Widen;
    assert s[..3][..2] == s[..2] && s[..2][..1] == s[..1] && s[..1][..0] == [];
    assert Register(c, s[..1]) == ByteStep(c, Widen(s[0]));
    assert Register(c, s[..2]) == ByteStep(Register(c, s[..1]), Widen(s[1]));
    assert Register(c, s[..3]) == ByteStep(Register(c, s[..2]), Widen(s[2]));
  }

  /** Strings that differ only inside four consecutive bytes have different checksums. */
  lemma BurstDetected(s: seq<byte>, t: seq<byte>, at: nat)
    requires |s| == |t| && at + 4 <= |s|
    requires forall i :: 0 <= i < |s| && !(at <= i < at + 4) ==> s[i] == t[i]
    requires Crc(s) == Crc(t)
    ensures s == t
  {
    hide ByteStep, Finish;
    FinishInjective(Register(0xffff_ffff, s), Register(0xffff_ffff, t));
    var head, tail := s[..at], s[at + 4..];
    assert head == t[..at] && tail == t[at + 4..];
    assert s == head + s[at..at + 4] + tail && t == head + t[at..at + 4] + tail;
    var c := Register(0xffff_ffff, head);
    RegisterConcat(0xffff_ffff, head + s[at..at + 4], tail);
    RegisterConcat(0xffff_ffff, head, s[at..at + 4]);
    RegisterConcat(0xffff_ffff, head + t[at..at + 4], tail);
    RegisterConcat(0xffff_ffff, head, t[at..at + 4]);
    SuffixKeepsDifference(Register(c, s[at..at + 4]), Register(c, t[at..at + 4]), tail);
    QuadInjective(c, s[at..at + 4], t[at..at + 4]);
  }
}

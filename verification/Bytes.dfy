/** Byte strings, fixed-width integers in both byte orders, and slices that clip
    the way Python slices do. */
module Bytes {

  datatype Option<+T> = None | Some(value: T)

  /** A value, or the reason the program stops. */
  datatype Result<+T> = Ok(value: T) | Err(reason: string)

  type byte = x: int | 0 <= x < 256
  type u32 = x: int | 0 <= x < 0x1_0000_0000
  type u64 = x: int | 0 <= x < 0x1_0000_0000_0000_0000

  /** Addition of two `uint64_t` values: wraps modulo 2^64. */
  function Add64(a: u64, b: u64): u64 {
    (a + b) % 0x1_0000_0000_0000_0000
  }

  function Le32(s: seq<byte>, at: nat): u32
    requires at + 4 <= |s|
  {
    (s[at] as int) + 0x100 * (s[at + 1] as int) + 0x1_0000 * (s[at + 2] as int) + 0x100_0000 * (s[at + 3] as int)
  }

  function Le64(s: seq<byte>, at: nat): u64
    requires at + 8 <= |s|
  {
    Le32(s, at) + 0x1_0000_0000 * Le32(s, at + 4)
  }

  lemma Digits(v: u32)
    ensures v == v % 0x100 + 0x100 * (v / 0x100 % 0x100) + 0x1_0000 * (v / 0x1_0000 % 0x100) + 0x100_0000 * (v / 0x100_0000)
  {
    Nested(v, v / 0x100, v / 0x100 / 0x100, v / 0x100 / 0x100 / 0x100);
    DigitsOf(v, v / 0x100, v / 0x100 / 0x100, v / 0x100 / 0x100 / 0x100);
  }

  lemma Nested(v: nat, a: nat, b: nat, c: nat)
    requires a == v / 0x100 && b == a / 0x100 && c == b / 0x100
    ensures v / 0x1_0000 == b && v / 0x100_0000 == c
  {
  }

  lemma DigitsOf(v: nat, a: nat, b: nat, c: nat)
    requires a == v / 0x100 && b == a / 0x100 && c == b / 0x100
    ensures v == v % 0x100 + 0x100 * (a % 0x100) + 0x1_0000 * (b % 0x100) + 0x100_0000 * c
  {
  }

  function Le32Bytes(v: u32): (b: seq<byte>)
    ensures |b| == 4 && Le32(b, 0) == v
  {
    Digits(v);
    [v % 0x100, v / 0x100 % 0x100, v / 0x1_0000 % 0x100, v / 0x100_0000]
  }

  function Le64Bytes(v: u64): (b: seq<byte>)
    ensures |b| == 8
  {
    Le32Bytes(v % 0x1_0000_0000) + Le32Bytes(v / 0x1_0000_0000)
  }

  /** `s` with the bytes `b` stored at offset `at`. */
  function Splice(s: seq<byte>, at: nat, b: seq<byte>): (r: seq<byte>)
    requires at + |b| <= |s|
    ensures |r| == |s|
    ensures forall i :: 0 <= i < |s| ==> r[i] == if at <= i < at + |b| then b[i - at] else s[i]
  {
    s[..at] + b + s[at + |b|..]
  }

  lemma SpliceWhole(s: seq<byte>, b: seq<byte>)
    requires |b| == |s|
    ensures Splice(s, 0, b) == b
  {
  }

  function PutLe32(s: seq<byte>, at: nat, v: u32): (r: seq<byte>)
    requires at + 4 <= |s|
    ensures |r| == |s| && Le32(r, at) == v
    ensures forall i :: 0 <= i < |s| && !(at <= i < at + 4) ==> r[i] == s[i]
  {
    Splice(s, at, Le32Bytes(v))
  }

  function PutLe64(s: seq<byte>, at: nat, v: u64): (r: seq<byte>)
    requires at + 8 <= |s|
    ensures |r| == |s| && Le64(r, at) == v
    ensures forall i :: 0 <= i < |s| && !(at <= i < at + 8) ==> r[i] == s[i]
  {
    PutLe32(PutLe32(s, at, v % 0x1_0000_0000), at + 4, v / 0x1_0000_0000)
  }

  lemma Le64RoundTrip(v: u64)
    ensures Le64(Le64Bytes(v), 0) == v
  {
    hide Le32Bytes;
    var b, low, high := Le64Bytes(v), Le32Bytes(v % 0x1_0000_0000), Le32Bytes(v / 0x1_0000_0000);
    assert Le32(b, 0) == Le32(low, 0);
    assert Le32(b, 4) == Le32(high, 0);
  }

  /** The bytes of a text in ASCII. */
  function Text(s: string): (b: seq<byte>)
    requires forall i :: 0 <= i < |s| ==> s[i] < 128 as char
    ensures |b| == |s| && forall i :: 0 <= i < |s| ==> b[i] == s[i] as int
  {
    seq(|s|, i requires 0 <= i < |s| => s[i] as int)
  }

  // ----- big-endian

  function Be32(s: seq<byte>, at: nat): u32
    requires at + 4 <= |s|
  {
    (s[at + 3] as int) + 0x100 * (s[at + 2] as int) + 0x1_0000 * (s[at + 1] as int) + 0x100_0000 * (s[at] as int)
  }

  function Be64(s: seq<byte>, at: nat): u64
    requires at + 8 <= |s|
  {
    Be32(s, at + 4) + 0x1_0000_0000 * Be32(s, at)
  }

  function Be32Bytes(v: u32): (b: seq<byte>)
    ensures |b| == 4 && Be32(b, 0) == v
  {
    Digits(v);
    [v / 0x100_0000, v / 0x1_0000 % 0x100, v / 0x100 % 0x100, v % 0x100]
  }

  function PutBe32(s: seq<byte>, at: nat, v: u32): (r: seq<byte>)
    requires at + 4 <= |s|
    ensures |r| == |s| && Be32(r, at) == v
    ensures forall i :: 0 <= i < |s| && !(at <= i < at + 4) ==> r[i] == s[i]
  {
    Splice(s, at, Be32Bytes(v))
  }

  function PutBe64(s: seq<byte>, at: nat, v: u64): (r: seq<byte>)
    requires at + 8 <= |s|
    ensures |r| == |s| && Be64(r, at) == v
    ensures forall i :: 0 <= i < |s| && !(at <= i < at + 8) ==> r[i] == s[i]
  {
    PutBe32(PutBe32(s, at, v / 0x1_0000_0000), at + 4, v % 0x1_0000_0000)
  }

  function Min(a: nat, b: nat): nat {
    if a < b then a else b
  }

  /** `s[lo:hi]` for `lo <= hi` as Python clips it. */
  function Slice(s: seq<byte>, lo: nat, hi: nat): seq<byte>
    requires lo <= hi
  {
    s[Min(lo, |s|)..Min(hi, |s|)]
  }

  /** `align_to(value, 4)` */
  function Align4(value: nat): nat {
    (value + 3) / 4 * 4
  }

  /** `align_to(value, PAGE_SIZE)` */
  function AlignPage(value: nat): nat {
    (value + 4095) / 4096 * 4096
  }

  function Zeros(n: nat): (z: seq<byte>)
    ensures |z| == n && forall i :: 0 <= i < n ==> z[i] == 0
  {
    seq(n, _ => 0)
  }

  /** The bytes `b` occur in `s` at offset `at`. */
  predicate At(s: seq<byte>, at: nat, b: seq<byte>) {
    at + |b| <= |s| && s[at..at + |b|] == b
  }

  lemma AtSplit(s: seq<byte>, at: nat, a: seq<byte>, b: seq<byte>)
    ensures At(s, at, a + b) <==> At(s, at, a) && At(s, at + |a|, b)
  {
    if At(s, at, a + b) {
      assert s[at..at + |a|] == (a + b)[..|a|] == a;
      assert s[at + |a|..at + |a| + |b|] == (a + b)[|a|..] == b;
    }
    if At(s, at, a) && At(s, at + |a|, b) {
      assert s[at..at + |a + b|] == s[at..at + |a|] + s[at + |a|..at + |a| + |b|];
    }
  }

  lemma DigitsDetermine(a0: byte, a1: byte, a2: byte, a3: byte, b0: byte, b1: byte, b2: byte, b3: byte)
    requires a0 + 0x100 * (a1 as int) + 0x1_0000 * (a2 as int) + 0x100_0000 * (a3 as int)
          == b0 + 0x100 * (b1 as int) + 0x1_0000 * (b2 as int) + 0x100_0000 * (b3 as int)
    ensures a0 == b0 && a1 == b1 && a2 == b2 && a3 == b3
  {
    var a, b := a1 + 0x100 * (a2 as int) + 0x1_0000 * (a3 as int), b1 + 0x100 * (b2 as int) + 0x1_0000 * (b3 as int);
    assert a0 + 0x100 * a == b0 + 0x100 * b;
    assert a == b;
    assert a2 + 0x100 * (a3 as int) == b2 + 0x100 * (b3 as int);
  }

  /** Two encodings that decode to the same number are the same four bytes. */
  lemma Le32Injective(s: seq<byte>, t: seq<byte>, at: nat)
    requires at + 4 <= |s| && at + 4 <= |t|
    requires Le32(s, at) == Le32(t, at)
    ensures s[at..at + 4] == t[at..at + 4]
  {
    DigitsDetermine(s[at], s[at + 1], s[at + 2], s[at + 3], t[at], t[at + 1], t[at + 2], t[at + 3]);
  }

  // ----- what the two byte orders mean

  /** The number in `n` bytes, the least significant first. */
  function Little(s: seq<byte>, at: nat, n: nat): nat
    requires at + n <= |s|
    decreases n
  {
    if n == 0 then 0 else s[at] + 256 * Little(s, at + 1, n - 1)
  }

  /** The number in `n` bytes, the most significant first. */
  function Big(s: seq<byte>, at: nat, n: nat): nat
    requires at + n <= |s|
    decreases n
  {
    if n == 0 then 0 else 256 * Big(s, at, n - 1) + s[at + n - 1]
  }

  lemma LittleFour(s: seq<byte>, at: nat)
    requires at + 4 <= |s|
    ensures Le32(s, at) == Little(s, at, 4)
  {
    assert Little(s, at + 3, 1) == s[at + 3];
    assert Little(s, at + 2, 2) == s[at + 2] + 256 * Little(s, at + 3, 1);
    assert Little(s, at + 1, 3) == s[at + 1] + 256 * Little(s, at + 2, 2);
  }

  lemma LittleEight(s: seq<byte>, at: nat)
    requires at + 8 <= |s|
    ensures Le64(s, at) == Little(s, at, 8)
  {
    hide Le32;
    LittleFour(s, at);
    LittleFour(s, at + 4);
    LittleJoins(s, at, 4, 4);
    assert Power256(2) == 0x1_0000;
  }

  function Power256(n: nat): nat {
    if n == 0 then 1 else 256 * Power256(n - 1)
  }

  lemma {:induction false} LittleJoins(s: seq<byte>, at: nat, m: nat, n: nat)
    requires at + m + n <= |s|
    ensures Little(s, at, m + n) == Little(s, at, m) + Power256(m) * Little(s, at + m, n)
    decreases m
  {
    if m > 0 {
      LittleJoins(s, at + 1, m - 1, n);
      Scaled(s[at], Little(s, at + 1, m - 1), Power256(m - 1), Little(s, at + m, n));
    }
  }

  lemma Scaled(b: nat, low: nat, p: nat, high: nat)
    ensures b + 256 * (low + p * high) == b + 256 * low + 256 * p * high
  {
  }

  lemma BigFour(s: seq<byte>, at: nat)
    requires at + 4 <= |s|
    ensures Be32(s, at) == Big(s, at, 4)
  {
    assert Big(s, at, 1) == s[at];
    assert Big(s, at, 2) == 256 * Big(s, at, 1) + s[at + 1];
    assert Big(s, at, 3) == 256 * Big(s, at, 2) + s[at + 2];
  }

  lemma BigEight(s: seq<byte>, at: nat)
    requires at + 8 <= |s|
    ensures Be64(s, at) == Big(s, at, 8)
  {
    hide Be32;
    BigFour(s, at);
    BigFour(s, at + 4);
    BigJoins(s, at, 4, 4);
    assert Power256(2) == 0x1_0000;
  }

  lemma {:induction false} BigJoins(s: seq<byte>, at: nat, m: nat, n: nat)
    requires at + m + n <= |s|
    ensures Big(s, at, m + n) == Power256(n) * Big(s, at, m) + Big(s, at + m, n)
    decreases n
  {
    if n > 0 {
      BigJoins(s, at, m, n - 1);
      Raised(Power256(n - 1), Big(s, at, m), Big(s, at + m, n - 1), s[at + m + n - 1]);
    }
  }

  lemma Raised(p: nat, high: nat, low: nat, b: nat)
    ensures 256 * (p * high + low) + b == 256 * p * high + (256 * low + b)
  {
  }
}

/** The names of archive entries as texts: the decoder's test is that of UTF-8, and its
    count that of code points. */
module Utf8 {
  import opened Bytes
  import opened Cpio

  /** A Unicode scalar value. */
  predicate Scalar(c: nat) {
    c < 0xd800 || 0xe000 <= c < 0x11_0000
  }

  /** RFC 3629, section 3. */
  function Encode(c: nat): (b: seq<byte>)
    requires Scalar(c)
    ensures 1 <= |b| <= 4
  {
    if c < 0x80 then [c]
    else if c < 0x800 then [0xc0 + c / 64, 0x80 + c % 64]
    else if c < 0x1_0000 then [0xe0 + c / 4096, 0x80 + c / 64 % 64, 0x80 + c % 64]
    else [0xf0 + c / 0x4_0000, 0x80 + c / 4096 % 64, 0x80 + c / 64 % 64, 0x80 + c % 64]
  }

  predicate Scalars(text: seq<nat>) {
    forall i :: 0 <= i < |text| ==> Scalar(text[i])
  }

  function EncodeAll(text: seq<nat>): seq<byte>
    requires Scalars(text)
  {
    if text == [] then [] else Encode(text[0]) + EncodeAll(text[1..])
  }

  lemma EncodedFirst(c: nat, rest: seq<byte>)
    requires Scalar(c)
    ensures FirstChar(Encode(c) + rest) == |Encode(c)|
  {
    var s := Encode(c) + rest;
    if 0x80 <= c < 0x800 {
      Two(c / 64, c % 64, c);
    } else if 0x800 <= c < 0x1_0000 {
      Three(c);
    } else if c >= 0x1_0000 {
      FourBytes(c);
    }
  }

  lemma Two(q: nat, r: nat, c: nat)
    requires q == c / 64 && r == c % 64 && 0x80 <= c < 0x800
    ensures 2 <= q < 32 && c == 64 * q + r
  {
  }

  lemma Three(c: nat)
    requires 0x800 <= c < 0x1_0000 && Scalar(c)
    ensures c / 4096 < 16 && (c / 4096 == 0 ==> c / 64 % 64 >= 0x20) && (c / 4096 == 13 ==> c / 64 % 64 < 0x20)
    ensures c == 4096 * (c / 4096) + 64 * (c / 64 % 64) + c % 64
  {
    Digits64(c);
  }

  lemma Digits64(c: nat)
    ensures c / 4096 == c / 64 / 64 && c / 64 == 64 * (c / 4096) + c / 64 % 64 && c == 64 * (c / 64) + c % 64
  {
  }

  lemma FourBytes(c: nat)
    requires 0x1_0000 <= c < 0x11_0000
    ensures c / 0x4_0000 < 5 && (c / 0x4_0000 == 0 ==> c / 4096 % 64 >= 0x10) && (c / 0x4_0000 == 4 ==> c / 4096 % 64 < 0x10)
  {
    Digits64(c);
    assert c / 0x4_0000 == c / 4096 / 64;
    assert c / 4096 == 64 * (c / 0x4_0000) + c / 4096 % 64;
  }

  /** What the first sequence of a byte string stands for. */
  lemma FirstDecodes(s: seq<byte>) returns (c: nat)
    requires s != [] && FirstChar(s) > 0
    ensures Scalar(c) && s[..FirstChar(s)] == Encode(c)
  {
    var n := FirstChar(s);
    if n == 1 {
      c := s[0];
    } else if n == 2 {
      var p: nat, q: nat := s[0] - 0xc0, s[1] - 0x80;
      c := 64 * p + q;
      Back2(p, q, c);
    } else if n == 3 {
      var o: nat, p: nat, q: nat := s[0] - 0xe0, s[1] - 0x80, s[2] - 0x80;
      c := 4096 * o + 64 * p + q;
      Back3(o, p, q, c);
    } else {
      var m: nat, o: nat, p: nat, q: nat := s[0] - 0xf0, s[1] - 0x80, s[2] - 0x80, s[3] - 0x80;
      c := 0x4_0000 * m + 4096 * o + 64 * p + q;
      Back4(m, o, p, q, c);
    }
  }

  lemma Back2(p: nat, q: nat, c: nat)
    requires q < 64 && c == 64 * p + q
    ensures c / 64 == p && c % 64 == q
  {
  }

  lemma Back3(o: nat, p: nat, q: nat, c: nat)
    requires p < 64 && q < 64 && c == 4096 * o + 64 * p + q
    ensures c / 4096 == o && c / 64 % 64 == p && c % 64 == q
  {
    Back2(64 * o + p, q, c);
    Back2(o, p, c / 64);
    Digits64(c);
  }

  lemma Back4(m: nat, o: nat, p: nat, q: nat, c: nat)
    requires o < 64 && p < 64 && q < 64 && c == 0x4_0000 * m + 4096 * o + 64 * p + q
    ensures c / 0x4_0000 == m && c / 4096 % 64 == o && c / 64 % 64 == p && c % 64 == q
  {
    Back3(64 * m + o, p, q, c);
    Back2(m, o, c / 4096);
    assert c / 0x4_0000 == c / 4096 / 64;
  }

  /** The bytes of a text are valid, and are counted as its code points. */
  lemma {:induction false} EncodedIsValid(text: seq<nat>)
    requires Scalars(text)
    ensures ValidUtf8(EncodeAll(text)) && Chars(EncodeAll(text)) == |text|
    decreases |text|
  {
    hide FirstChar, Encode;
    if text != [] {
      var first, rest := Encode(text[0]), EncodeAll(text[1..]);
      EncodedFirst(text[0], rest);
      assert (first + rest)[|first|..] == rest;
      EncodedIsValid(text[1..]);
    }
  }

  /** Only those are. */
  lemma {:induction false} ValidIsEncoded(s: seq<byte>) returns (text: seq<nat>)
    requires ValidUtf8(s)
    ensures Scalars(text) && EncodeAll(text) == s
    decreases |s|
  {
    hide FirstChar, Encode, Scalar;
    if s == [] {
      text := [];
    } else {
      var c := FirstDecodes(s);
      var rest := ValidIsEncoded(s[FirstChar(s)..]);
      text := [c] + rest;
      assert text[1..] == rest;
      assert s == s[..FirstChar(s)] + s[FirstChar(s)..];
    }
  }
}

/** The compressed ramdisk containers of tools/patch-android-boot-ksu.py.  The block
    codec and gzip are parameters; the lz4-legacy framing is concrete. */
module Ramdisk {
  import opened Bytes

  const LZ4_LEGACY_MAGIC: seq<byte> := [0x02, 0x21, 0x4c, 0x18]
  const LZ4_BLOCK_SIZE: nat := 0x80_0000

  datatype Format = Lz4Legacy | Gzip

  datatype Codec = Codec(pack: seq<byte> -> seq<byte>, unpack: seq<byte> -> Option<seq<byte>>,
                         gzip: seq<byte> -> seq<byte>, gunzip: seq<byte> -> Option<seq<byte>>)

  /** What is assumed of the codecs: lossless, blocks that are never empty and whose
      length fits its 32-bit field, gzip members that start with the gzip magic. */
  ghost predicate Lossless(codec: Codec) {
    && (forall b: seq<byte> :: 0 < |b| <= LZ4_BLOCK_SIZE ==>
          codec.unpack(codec.pack(b)) == Some(b) && 0 < |codec.pack(b)| < 0x1_0000_0000)
    && (forall b: seq<byte> :: codec.gunzip(codec.gzip(b)) == Some(b) && IsGzip(codec.gzip(b)))
  }

  function Member(b: seq<byte>): seq<byte> {
    [0x1f, 0x8b] + b
  }

  function Unmember(b: seq<byte>): Option<seq<byte>> {
    if |b| >= 2 then Some(b[2..]) else None
  }

  function Stored(b: seq<byte>): Option<seq<byte>> {
    Some(b)
  }

  function Same(b: seq<byte>): seq<byte> {
    b
  }

  lemma MemberBack(b: seq<byte>)
    ensures Unmember(Member(b)) == Some(b) && IsGzip(Member(b))
  {
  }

  /** Such codecs exist: storing everything as it is makes one. */
  lemma StoringIsLossless()
    ensures Lossless(Codec(Same, Stored, Member, Unmember))
  {
    hide Member, Unmember, IsGzip;
    forall b: seq<byte> ensures Unmember(Member(b)) == Some(b) && IsGzip(Member(b)) {
      MemberBack(b);
    }
  }

  predicate IsLz4(data: seq<byte>) {
    |data| >= 4 && data[..4] == LZ4_LEGACY_MAGIC
  }

  predicate IsGzip(data: seq<byte>) {
    |data| >= 2 && data[0] == 0x1f && (data[1] == 0x8b || data[1] == 0x9e)
  }

  function DetectFormat(data: seq<byte>): Result<Format> {
    if IsLz4(data) then Ok(Lz4Legacy)
    else if IsGzip(data) then Ok(Gzip)
    else Err("unsupported ramdisk compression")
  }

  /** The blocks from `offset` on, appended to `out`; a zero or overlong length ends them. */
  function Blocks(codec: Codec, data: seq<byte>, offset: nat, out: seq<byte>): Result<seq<byte>>
    decreases |data| - offset
  {
    if offset + 4 > |data| then Ok(out)
    else
      var block := Le32(data, offset);
      if block == 0 || offset + 4 + block > |data| then Ok(out)
      else
        match codec.unpack(data[offset + 4..offset + 4 + block])
        case None => Err("corrupt block")
        case Some(plain) => Blocks(codec, data, offset + 4 + block, out + plain)
  }

  function Decompress(codec: Codec, data: seq<byte>, format: Format): Result<seq<byte>> {
    if format == Gzip then
      match codec.gunzip(data)
      case None => Err("corrupt gzip member")
      case Some(plain) => Ok(plain)
    else
      match Blocks(codec, data, 4, [])
      case Err(reason) => Err(reason)
      case Ok(out) => if out == [] then Err("the lz4-legacy ramdisk decompressed to nothing") else Ok(out)
  }

  predicate Block(b: seq<byte>) {
    0 < |b| <= LZ4_BLOCK_SIZE
  }

  lemma PackedBlock(codec: Codec, b: seq<byte>)
    requires Lossless(codec) && Block(b)
    ensures codec.unpack(codec.pack(b)) == Some(b) && 0 < |codec.pack(b)| < 0x1_0000_0000
  {
  }

  /** One block with its length. */
  function Frame(codec: Codec, b: seq<byte>): seq<byte>
    requires Lossless(codec) && Block(b)
  {
    PackedBlock(codec, b);
    Le32Bytes(|codec.pack(b)|) + codec.pack(b)
  }

  function Head(data: seq<byte>): nat {
    Min(LZ4_BLOCK_SIZE, |data|)
  }

  /** The frames of `data` cut into blocks. */
  function Frames(codec: Codec, data: seq<byte>): seq<byte>
    requires Lossless(codec)
  {
    if data == [] then []
    else Frame(codec, data[..Head(data)]) + Frames(codec, data[Head(data)..])
  }

  function Compress(codec: Codec, data: seq<byte>, format: Format): seq<byte>
    requires Lossless(codec)
  {
    if format == Gzip then codec.gzip(data) else LZ4_LEGACY_MAGIC + Frames(codec, data)
  }

  lemma FrameDecodes(codec: Codec, b: seq<byte>, framed: seq<byte>, offset: nat, out: seq<byte>)
    requires Lossless(codec) && Block(b) && At(framed, offset, Frame(codec, b))
    ensures Blocks(codec, framed, offset, out) == Blocks(codec, framed, offset + |Frame(codec, b)|, out + b)
  {
    hide Lossless, Le32Bytes, Le32, Block;
    var p := codec.pack(b);
    PackedBlock(codec, b);
    AtSplit(framed, offset, Le32Bytes(|p|), p);
    Le32At(framed, offset, |p|);
  }

  lemma {:induction false} FramesDecode(codec: Codec, data: seq<byte>, framed: seq<byte>, offset: nat, out: seq<byte>)
    requires Lossless(codec) && offset + |Frames(codec, data)| == |framed| && At(framed, offset, Frames(codec, data))
    ensures Blocks(codec, framed, offset, out) == Ok(out + data)
    decreases |data|
  {
    hide Lossless, Frame, At;
    if data == [] {
      assert out + data == out;
    } else {
      var b, rest := data[..Head(data)], data[Head(data)..];
      AtSplit(framed, offset, Frame(codec, b), Frames(codec, rest));
      FrameDecodes(codec, b, framed, offset, out);
      FramesDecode(codec, rest, framed, offset + |Frame(codec, b)|, out + b);
      assert out + b + rest == out + data;
    }
  }

  lemma Le32At(s: seq<byte>, at: nat, v: u32)
    requires At(s, at, Le32Bytes(v))
    ensures Le32(s, at) == v
  {
    var t := s[at..at + 4];
    assert s[at] == t[0] && s[at + 1] == t[1] && s[at + 2] == t[2] && s[at + 3] == t[3];
  }

  lemma Lz4RoundTrip(codec: Codec, data: seq<byte>)
    requires Lossless(codec)
    ensures IsLz4(Compress(codec, data, Lz4Legacy))
    ensures Blocks(codec, Compress(codec, data, Lz4Legacy), 4, []) == Ok(data)
  {
    hide Lossless, Frames, Blocks;
    var framed := Compress(codec, data, Lz4Legacy);
    assert framed[..4] == LZ4_LEGACY_MAGIC;
    assert framed[4..] == Frames(codec, data);
    FramesDecode(codec, data, framed, 4, []);
    assert [] + data == data;
  }

  lemma GzipBack(codec: Codec, data: seq<byte>)
    requires Lossless(codec)
    ensures codec.gunzip(codec.gzip(data)) == Some(data) && IsGzip(codec.gzip(data))
  {
  }

  /** Decompressing restores the data, except that an empty lz4 ramdisk is refused. */
  lemma CompressionRoundTrip(codec: Codec, data: seq<byte>, format: Format)
    requires Lossless(codec)
    ensures DetectFormat(Compress(codec, data, format)) == Ok(format)
    ensures Decompress(codec, Compress(codec, data, format), format) == Ok(data) <==> format == Gzip || data != []
    ensures Decompress(codec, Compress(codec, data, format), format).Ok? <==> format == Gzip || data != []
  {
    hide Lossless, Frames, Blocks;
    GzipBack(codec, data);
    if format == Lz4Legacy {
      Lz4RoundTrip(codec, data);
    }
  }

  /** `decompress`, as its loop runs. */
  method DecompressLz4(codec: Codec, data: seq<byte>) returns (r: Result<seq<byte>>)
    ensures r == Decompress(codec, data, Lz4Legacy)
  {
    var out: seq<byte> := [];
    var offset := 4;
    while offset + 4 <= |data|
      invariant Blocks(codec, data, 4, []) == Blocks(codec, data, offset, out)
      decreases |data| - offset
    {
      var block := Le32(data, offset);
      offset := offset + 4;
      if block == 0 || offset + block > |data| {
        return if out == [] then Err("the lz4-legacy ramdisk decompressed to nothing") else Ok(out);
      }
      var plain := codec.unpack(data[offset..offset + block]);
      if plain == None {
        return Err("corrupt block");
      }
      out := out + plain.value;
      offset := offset + block;
    }
    r := if out == [] then Err("the lz4-legacy ramdisk decompressed to nothing") else Ok(out);
  }

  /** `compress`, as its loop runs. */
  method CompressLz4(codec: Codec, data: seq<byte>) returns (out: seq<byte>)
    requires Lossless(codec)
    ensures out == Compress(codec, data, Lz4Legacy)
  {
    hide Lossless, Frame;
    out := LZ4_LEGACY_MAGIC;
    var start := 0;
    assert data[0..] == data;
    while start < |data|
      invariant start <= |data|
      invariant out + Frames(codec, data[start..]) == LZ4_LEGACY_MAGIC + Frames(codec, data)
    {
      var end := Min(start + LZ4_BLOCK_SIZE, |data|);
      var block := codec.pack(data[start..end]);
      ghost var rest := data[start..];
      assert rest[..Head(rest)] == data[start..end] && rest[Head(rest)..] == data[end..];
      out := AppendFrame(codec, data[start..end], block, out, Frames(codec, data[end..]));
      start := end;
    }
  }

  method AppendFrame(codec: Codec, plain: seq<byte>, block: seq<byte>, start: seq<byte>, ghost rest: seq<byte>)
    returns (out: seq<byte>)
    requires Lossless(codec) && Block(plain) && block == codec.pack(plain)
    ensures out + rest == start + (Frame(codec, plain) + rest)
  {
    hide Lossless, Le32Bytes;
    PackedBlock(codec, plain);
    out := start + Le32Bytes(|block|) + block;
  }

  // ----- the containers, byte by byte

  /** What tells the formats apart: the little-endian word 0x184c2102, or a gzip byte
      pair. */
  lemma FormatIs(data: seq<byte>)
    ensures DetectFormat(data) ==
      if |data| >= 4 && Little(data, 0, 4) == 0x184c_2102 then Ok(Lz4Legacy)
      else if |data| >= 2 && Little(data, 0, 2) == 0x8b1f then Ok(Gzip)
      else if |data| >= 2 && Little(data, 0, 2) == 0x9e1f then Ok(Gzip)
      else Err("unsupported ramdisk compression")
  {
    if |data| >= 2 {
      assert Little(data, 1, 1) == data[1];
    }
    if |data| >= 4 {
      LittleFour(data, 0);
      MagicWord(data);
    }
  }

  lemma MagicWord(data: seq<byte>)
    requires |data| >= 4
    ensures data[..4] == LZ4_LEGACY_MAGIC <==> Le32(data, 0) == 0x184c_2102
  {
    if Le32(data, 0) == 0x184c_2102 {
      DigitsDetermine(data[0], data[1], data[2], data[3], 0x02, 0x21, 0x4c, 0x18);
    }
  }

  /** An lz4-legacy ramdisk is the word and then, for every 8 MiB of data and what is
      left, a little-endian length and so many bytes of a packed block. */
  predicate Framed(codec: Codec, out: seq<byte>, at: nat, data: seq<byte>)
    decreases |data|
  {
    if data == [] then at == |out|
    else
      var n := if |data| < 8388608 then |data| else 8388608;
      var block := codec.pack(data[..n]);
      && at + 4 + |block| <= |out| && Little(out, at, 4) == |block| && out[at + 4..at + 4 + |block|] == block
      && Framed(codec, out, at + 4 + |block|, data[n..])
  }

  lemma {:induction false} FramesFramed(codec: Codec, out: seq<byte>, at: nat, data: seq<byte>)
    requires Lossless(codec) && At(out, at, Frames(codec, data)) && |out| == at + |Frames(codec, data)|
    ensures Framed(codec, out, at, data)
    decreases |data|
  {
    hide Lossless, At, Le32Bytes, Little;
    if data != [] {
      var b, rest := data[..Head(data)], data[Head(data)..];
      var p := codec.pack(b);
      PackedBlock(codec, b);
      AtSplit(out, at, Frame(codec, b), Frames(codec, rest));
      AtSplit(out, at, Le32Bytes(|p|), p);
      Le32At(out, at, |p|);
      LittleFour(out, at);
      AtIs(out, at + 4, p);
      FramesFramed(codec, out, at + 4 + |p|, rest);
    }
  }

  lemma AtIs(s: seq<byte>, at: nat, b: seq<byte>)
    requires At(s, at, b)
    ensures at + |b| <= |s| && s[at..at + |b|] == b
  {
  }

  lemma CompressedFramed(codec: Codec, data: seq<byte>)
    requires Lossless(codec)
    ensures var out := Compress(codec, data, Lz4Legacy);
            |out| >= 4 && Little(out, 0, 4) == 0x184c_2102 && Framed(codec, out, 4, data)
  {
    hide Lossless, Frames;
    var out := Compress(codec, data, Lz4Legacy);
    LittleFour(out, 0);
    assert out[4..] == Frames(codec, data);
    FramesFramed(codec, out, 4, data);
  }
}

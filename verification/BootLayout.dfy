/** Boot images byte by byte: where a written image keeps what, and where the parser
    looks for it. */
module BootLayout {
  import opened Bytes
  import opened BootImage

  /** The least multiple of 4096 that is no smaller. */
  function Pages(n: nat): nat {
    if n % 4096 == 0 then n else n + 4096 - n % 4096
  }

  lemma PagesAre(n: nat)
    ensures Pages(n) == AlignPage(n)
  {
    var q, r := n / 4096, n % 4096;
    assert n == 4096 * q + r;
    if r == 0 {
      assert (n + 4095) / 4096 == q;
    } else {
      assert (n + 4095) / 4096 == q + 1;
    }
  }

  predicate ZeroBetween(data: seq<byte>, from: nat, to: nat) {
    from <= to <= |data| && forall i :: from <= i < to ==> data[i] == 0
  }

  /** `b` at byte `at`, and zeros up to byte `to`. */
  predicate Holds(data: seq<byte>, at: nat, b: seq<byte>, to: nat) {
    at + |b| <= to <= |data| && data[at..at + |b|] == b && ZeroBetween(data, at + |b|, to)
  }

  /** An image of these blocks: their sizes in the header, each block on a page boundary
      with zeros up to the next, and the rest from `end` on. */
  predicate BlockBytes(data: seq<byte>, version: nat, kernel: seq<byte>, ramdisk: seq<byte>, signature: seq<byte>, end: nat) {
    && |data| >= 4096 && data[..8] == Text("ANDROID!")
    && Little(data, 40, 4) == version && Little(data, 8, 4) == |kernel| && Little(data, 12, 4) == |ramdisk|
    && (version == 4 ==> Little(data, 1580, 4) == |signature|)
    && var atRamdisk := 4096 + Pages(|kernel|);
       var atSignature := atRamdisk + Pages(|ramdisk|);
       && end == atSignature + Pages(|signature|)
       && Holds(data, 4096, kernel, atRamdisk) && Holds(data, atRamdisk, ramdisk, atSignature) && Holds(data, atSignature, signature, end)
  }

  /** After byte `end`: the bytes between payload and vbmeta block, the block at a page
      boundary `at`, zeros, and a 64-byte footer that is the old one but for the two
      big-endian numbers `at` in it. */
  predicate AvbBytes(data: seq<byte>, end: nat, tail: seq<byte>, header: seq<byte>, footer: seq<byte>) {
    var at := end + Pages(|tail|);
    && |footer| == 64 && at + |header| + 64 <= |data|
    && Holds(data, end, tail, at) && Holds(data, at, header, |data| - 64)
    && Big(data, |data| - 52, 8) == at && Big(data, |data| - 44, 8) == at
    && data[|data| - 64..|data| - 52] == footer[..12] && data[|data| - 36..] == footer[28..]
  }

  lemma HoldsPadded(data: seq<byte>, at: nat, s: seq<byte>)
    requires At(data, at, PadPage(s))
    ensures Holds(data, at, s, at + Pages(|s|)) && |PadPage(s)| == Pages(|s|)
  {
    hide AlignPage, Pages;
    PagesAre(|s|);
    PadLength(s);
    AtSplit(data, at, s, Zeros(PageGap(|s|)));
    var z := Zeros(PageGap(|s|));
    forall i | at + |s| <= i < at + Pages(|s|) ensures data[i] == 0 {
      assert data[at + |s|..at + |s| + |z|][i - at - |s|] == z[i - at - |s|];
    }
  }

  lemma PageBytes(data: seq<byte>, page: seq<byte>, version: u32, kernel: seq<byte>, ramdisk: seq<byte>, signature: seq<byte>)
    requires Describes(page, version, kernel, ramdisk, signature) && At(data, 0, page)
    ensures |data| >= 4096 && data[..8] == Text("ANDROID!")
    ensures Little(data, 40, 4) == version && Little(data, 8, 4) == |kernel| && Little(data, 12, 4) == |ramdisk|
    ensures version == 4 ==> Little(data, 1580, 4) == |signature|
  {
    hide Le32, Little, At;
    PageFields(data, page);
    LittleFour(data, 8);
    LittleFour(data, 12);
    LittleFour(data, 40);
    LittleFour(data, 1580);
    assert BOOT_MAGIC == Text("ANDROID!");
  }

  /** Where a written image keeps its blocks. */
  lemma WrittenBlocks(image: Image, ramdisk: seq<byte>, out: seq<byte>)
    requires WellFormed(image) && Rebuild(image, ramdisk) == Ok(out)
    ensures |out| == |image.data| && BlockBytes(out, image.version, image.kernel, ramdisk, image.signature, EndOf(image.kernel, ramdisk, image.signature))
  {
    hide WellFormed, Rebuild, AlignPage, Pages, PadPage, At, FirstPage, Rest, Little, Holds;
    RebuildShape(image, ramdisk);
    var page, rest := FirstPage(image, ramdisk), Rest(image, EndOf(image.kernel, ramdisk, image.signature));
    ComposedAt(page, image.kernel, ramdisk, image.signature, rest);
    FirstPageDescribes(image, ramdisk);
    PageBytes(out, page, image.version, image.kernel, ramdisk, image.signature);
    HoldsPadded(out, 4096, image.kernel);
    PagesAre(|image.kernel|);
    HoldsPadded(out, 4096 + Pages(|image.kernel|), ramdisk);
    PagesAre(|ramdisk|);
    HoldsPadded(out, 4096 + Pages(|image.kernel|) + Pages(|ramdisk|), image.signature);
    PagesAre(|image.signature|);
  }

  /** In the first page nothing but the sizes differs from the stock image. */
  lemma WrittenPage(image: Image, ramdisk: seq<byte>, out: seq<byte>)
    requires WellFormed(image) && Rebuild(image, ramdisk) == Ok(out)
    ensures |image.data| >= 4096 && |out| >= 4096
    ensures forall i :: 0 <= i < 4096 && !(8 <= i < 16) && !(image.version == 4 && 1580 <= i < 1584) ==> out[i] == image.data[i]
  {
    hide WellFormed, Rebuild, AlignPage, PadPage, FirstPage, Rest;
    RebuildShape(image, ramdisk);
    var page := FirstPage(image, ramdisk);
    ComposedAt(page, image.kernel, ramdisk, image.signature, Rest(image, EndOf(image.kernel, ramdisk, image.signature)));
    FirstPageDescribes(image, ramdisk);
    forall i | 0 <= i < 4096 ensures out[i] == page[i] {
      assert out[0..0 + |page|][i] == page[i];
    }
  }

  lemma RelocatedBytes(footer: seq<byte>, size: u64)
    requires |footer| == 64
    ensures var r := Relocated(footer, size);
            && Big(r, 12, 8) == size && Big(r, 20, 8) == size && r[..12] == footer[..12] && r[28..] == footer[28..]
  {
    hide Be64, Big;
    RelocatedFields(footer, size);
    BigEight(Relocated(footer, size), 12);
    BigEight(Relocated(footer, size), 20);
  }

  lemma {:induction false} BigSlice(data: seq<byte>, at: nat, b: seq<byte>, k: nat, n: nat)
    requires At(data, at, b) && k + n <= |b|
    ensures Big(data, at + k, n) == Big(b, k, n)
    decreases n
  {
    if n > 0 {
      BigSlice(data, at, b, k, n - 1);
      assert data[at..at + |b|][k + n - 1] == data[at + k + n - 1];
    }
  }

  /** Behind the blocks: zeros, or the AVB structures. */
  predicate EndBytes(data: seq<byte>, avb: Option<Avb>, end: nat) {
    match avb
    case None => ZeroBetween(data, end, |data|)
    case Some(a) => AvbBytes(data, end, a.tail, a.header, a.footer)
  }

  lemma WrittenAvb(image: Image, ramdisk: seq<byte>, out: seq<byte>)
    requires WellFormed(image) && Rebuild(image, ramdisk) == Ok(out)
    ensures EndBytes(out, image.avb, EndOf(image.kernel, ramdisk, image.signature))
  {
    hide WellFormed, Rebuild, AlignPage, Pages, FirstPage, Holds, At, PadPage, Relocated, AvbBytes, ZeroBetween, FooterFormed, StartsWith;
    RebuildShape(image, ramdisk);
    var end := EndOf(image.kernel, ramdisk, image.signature);
    ComposedAt(FirstPage(image, ramdisk), image.kernel, ramdisk, image.signature, Rest(image, end));
    match image.avb {
      case None => ZerosAt(out, end, |out| - end);
      case Some(avb) =>
        WellFormedAvb(image);
        var at := end + AlignPage(|avb.tail|);
        PadLength(avb.tail);
        AvbAt(out, end, avb, at, |image.data| - FOOTER_SIZE - (at + |avb.header|));
    }
  }

  lemma ZerosAt(data: seq<byte>, at: nat, n: nat)
    requires At(data, at, Zeros(n))
    ensures ZeroBetween(data, at, at + n)
  {
    forall i | at <= i < at + n ensures data[i] == 0 {
      assert data[at..at + |Zeros(n)|][i - at] == 0;
    }
  }

  lemma AvbAt(out: seq<byte>, end: nat, avb: Avb, at: nat, gap: nat)
    requires FooterFormed(avb) && at == end + AlignPage(|avb.tail|) && at < U64
    requires |out| == at + |avb.header| + gap + FOOTER_SIZE
    requires At(out, end, PadPage(avb.tail) + avb.header + Zeros(gap) + Relocated(avb.footer, at))
    ensures AvbBytes(out, end, avb.tail, avb.header, avb.footer)
  {
    hide AlignPage, Pages, At, Relocated, PadPage, Big, Holds, StartsWith, VbmetaSize;
    var footer := Relocated(avb.footer, at);
    PagesAre(|avb.tail|);
    PadLength(avb.tail);
    AtSplit(out, end, PadPage(avb.tail) + avb.header + Zeros(gap), footer);
    AtSplit(out, end, PadPage(avb.tail) + avb.header, Zeros(gap));
    AtSplit(out, end, PadPage(avb.tail), avb.header);
    HoldsPadded(out, end, avb.tail);
    HoldsZeros(out, at, avb.header, gap);
    RelocatedBytes(avb.footer, at);
    FooterBytes(out, footer, avb.footer, at);
  }

  lemma HoldsZeros(out: seq<byte>, at: nat, b: seq<byte>, gap: nat)
    requires At(out, at, b) && At(out, at + |b|, Zeros(gap))
    ensures Holds(out, at, b, at + |b| + gap)
  {
    forall i | at + |b| <= i < at + |b| + gap ensures out[i] == 0 {
      assert out[at + |b|..at + |b| + |Zeros(gap)|][i - at - |b|] == 0;
    }
  }

  lemma FooterBytes(out: seq<byte>, r: seq<byte>, footer: seq<byte>, size: nat)
    requires |r| == 64 && |footer| == 64 && |out| >= 64 && At(out, |out| - 64, r)
    requires Big(r, 12, 8) == size && Big(r, 20, 8) == size && r[..12] == footer[..12] && r[28..] == footer[28..]
    ensures Big(out, |out| - 52, 8) == size && Big(out, |out| - 44, 8) == size
    ensures out[|out| - 64..|out| - 52] == footer[..12] && out[|out| - 36..] == footer[28..]
  {
    hide Big, At;
    BigSlice(out, |out| - 64, r, 12, 8);
    BigSlice(out, |out| - 64, r, 20, 8);
    Piece(out, |out| - 64, r, 0, 12);
    Piece(out, |out| - 64, r, 28, 64);
  }

  lemma Piece(data: seq<byte>, at: nat, b: seq<byte>, lo: nat, hi: nat)
    requires At(data, at, b) && lo <= hi <= |b|
    ensures data[at + lo..at + hi] == b[lo..hi]
  {
    var d, e := data[at + lo..at + hi], b[lo..hi];
    forall k | 0 <= k < |d| ensures d[k] == e[k] {
      assert b[lo + k] == data[at..at + |b|][lo + k] == data[at + lo + k];
    }
  }

  // ----- where the parser looks

  /** Bytes from `lo`, as many of `n` as there are. */
  function Cut(data: seq<byte>, lo: nat, n: nat): seq<byte> {
    if lo >= |data| then [] else if lo + n <= |data| then data[lo..lo + n] else data[lo..]
  }

  lemma CutIs(data: seq<byte>, lo: nat, n: nat)
    ensures Slice(data, lo, lo + n) == Cut(data, lo, n)
  {
  }

  /** What an image takes from where: magic, version and sizes from the header, each
      block from its page on. */
  predicate BlocksFrom(image: Image, data: seq<byte>) {
    && |data| >= 44 && data[..8] == Text("ANDROID!") && image.version == Little(data, 40, 4)
    && (image.version == 3 || (image.version == 4 && |data| >= 1584))
    && var kernel, ramdisk, signature := Little(data, 8, 4), Little(data, 12, 4), if image.version == 4 then Little(data, 1580, 4) else 0;
       && image.kernel == Cut(data, 4096, kernel)
       && image.ramdisk == Cut(data, 4096 + Pages(kernel), ramdisk)
       && image.signature == Cut(data, 4096 + Pages(kernel) + Pages(ramdisk), signature)
       && image.payloadEnd == 4096 + Pages(kernel) + Pages(ramdisk) + Pages(signature)
  }

  /** A footer is the last 64 bytes if they start with `AVBf`; it says in big-endian
      numbers where the payload with its tail ends, and where the vbmeta block is and
      how long. */
  predicate AvbFrom(image: Image, data: seq<byte>) {
    if |data| >= 64 && data[|data| - 64..|data| - 60] == Text("AVBf") then
      image.avb.Some? && FooterFrom(image.avb.value, data, image.payloadEnd)
    else image.avb.None?
  }

  predicate FooterFrom(avb: Avb, data: seq<byte>, end: nat)
    requires |data| >= 64
  {
    var original, offset, size := Big(data, |data| - 52, 8), Big(data, |data| - 44, 8), Big(data, |data| - 36, 8);
    && avb.footer == data[|data| - 64..] && avb.header == Cut(data, offset, size)
    && |avb.header| >= 4 && avb.header[..4] == Text("AVB0")
    && original >= end && avb.tail == Cut(data, end, original - end)
  }

  lemma ParseIs(data: seq<byte>, image: Image)
    requires Parse(data) == Ok(image)
    ensures var kernel, ramdisk, signature := Le32(data, 8), Le32(data, 12), SignatureSize(data);
            && StartsWith(data, BOOT_MAGIC) && |data| >= 44 && image.version == Le32(data, 40)
            && (image.version == 3 || (image.version == 4 && |data| >= 1584))
            && image.kernel == Slice(data, PAGE, PAGE + kernel)
            && image.ramdisk == Slice(data, PAGE + AlignPage(kernel), PAGE + AlignPage(kernel) + ramdisk)
            && image.signature == Slice(data, PAGE + AlignPage(kernel) + AlignPage(ramdisk), PAGE + AlignPage(kernel) + AlignPage(ramdisk) + signature)
            && image.payloadEnd == PAGE + AlignPage(kernel) + AlignPage(ramdisk) + AlignPage(signature)
            && ReadAvb(data, image.payloadEnd) == Ok(image.avb)
  {
    hide ReadAvb, AlignPage, Slice, Le32, SignatureSize, StartsWith;
  }

  lemma ParsedBlocks(data: seq<byte>, image: Image)
    requires Parse(data) == Ok(image)
    ensures BlocksFrom(image, data)
  {
    hide Parse, ReadAvb, AlignPage, Pages, Slice, Cut, Le32, Little;
    ParseIs(data, image);
    var kernel, ramdisk, signature := Le32(data, 8), Le32(data, 12), SignatureSize(data);
    LittleFour(data, 8);
    LittleFour(data, 12);
    LittleFour(data, 40);
    if image.version == 4 {
      LittleFour(data, 1580);
    }
    PagesAre(kernel);
    PagesAre(ramdisk);
    PagesAre(signature);
    CutIs(data, PAGE, kernel);
    CutIs(data, PAGE + AlignPage(kernel), ramdisk);
    CutIs(data, PAGE + AlignPage(kernel) + AlignPage(ramdisk), signature);
    assert BOOT_MAGIC == Text("ANDROID!");
  }

  lemma ParsedAvb(data: seq<byte>, image: Image)
    requires Parse(data) == Ok(image)
    ensures AvbFrom(image, data)
  {
    hide Parse, AlignPage, Slice, Cut, Le32, SignatureSize, FooterFrom, ReadAvb;
    ParseIs(data, image);
    if |data| >= 64 {
      assert data[|data| - 64..][..4] == data[|data| - 64..|data| - 60];
    }
    assert AVB_FOOTER_MAGIC == Text("AVBf");
    FooterRead(data, image.payloadEnd, image.avb);
  }

  lemma FooterRead(data: seq<byte>, end: nat, avb: Option<Avb>)
    requires ReadAvb(data, end) == Ok(avb)
    ensures LooksLikeFooter(data) <==> avb.Some?
    ensures avb.Some? ==> |data| >= 64 && FooterFrom(avb.value, data, end)
  {
    hide Slice, Cut, Be64, Big;
    if LooksLikeFooter(data) {
      var footer := data[|data| - 64..];
      FooterNumbers(data, footer);
      CutIs(data, VbmetaOffset(footer), VbmetaSize(footer));
      CutIs(data, end, OriginalSize(footer) - end);
      assert AVB_MAGIC == Text("AVB0");
    }
  }

  lemma FooterNumbers(data: seq<byte>, footer: seq<byte>)
    requires |data| >= 64 && footer == data[|data| - 64..]
    ensures OriginalSize(footer) == Big(data, |data| - 52, 8)
    ensures VbmetaOffset(footer) == Big(data, |data| - 44, 8) && VbmetaSize(footer) == Big(data, |data| - 36, 8)
  {
    hide Be64, Big;
    assert data[|data| - 64..|data| - 64 + |footer|] == footer;
    BigEight(footer, 12);
    BigEight(footer, 20);
    BigEight(footer, 28);
    BigSlice(data, |data| - 64, footer, 12, 8);
    BigSlice(data, |data| - 64, footer, 20, 8);
    BigSlice(data, |data| - 64, footer, 28, 8);
  }
}

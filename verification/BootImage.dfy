/** Boot images with header version 3 or 4: parsing, and writing one back with
    another ramdisk. */
module BootImage {
  import opened Bytes

  const PAGE: nat := 4096
  const BOOT_MAGIC: seq<byte> := [0x41, 0x4e, 0x44, 0x52, 0x4f, 0x49, 0x44, 0x21]
  const AVB_FOOTER_MAGIC: seq<byte> := [0x41, 0x56, 0x42, 0x66]
  const AVB_MAGIC: seq<byte> := [0x41, 0x56, 0x42, 0x30]
  const FOOTER_SIZE: nat := 64
  const U32: nat := 0x1_0000_0000
  const U64: nat := 0x1_0000_0000_0000_0000

  datatype Avb = Avb(footer: seq<byte>, header: seq<byte>, tail: seq<byte>)

  datatype Image = Image(data: seq<byte>, version: u32, kernel: seq<byte>, ramdisk: seq<byte>,
                         signature: seq<byte>, payloadEnd: nat, avb: Option<Avb>)

  // ----- parsing

  predicate StartsWith(s: seq<byte>, prefix: seq<byte>) {
    |s| >= |prefix| && s[..|prefix|] == prefix
  }

  /** The last 64 bytes claim to be an AVB footer. */
  predicate LooksLikeFooter(data: seq<byte>) {
    |data| >= FOOTER_SIZE && StartsWith(data[|data| - FOOTER_SIZE..], AVB_FOOTER_MAGIC)
  }

  function OriginalSize(footer: seq<byte>): u64
    requires |footer| == FOOTER_SIZE
  {
    Be64(footer, 12)
  }

  function VbmetaOffset(footer: seq<byte>): u64
    requires |footer| == FOOTER_SIZE
  {
    Be64(footer, 20)
  }

  function VbmetaSize(footer: seq<byte>): u64
    requires |footer| == FOOTER_SIZE
  {
    Be64(footer, 28)
  }

  /** `_read_avb` */
  function ReadAvb(data: seq<byte>, payloadEnd: nat): Result<Option<Avb>> {
    if !LooksLikeFooter(data) then Ok(None)
    else
      var footer := data[|data| - FOOTER_SIZE..];
      var header := Slice(data, VbmetaOffset(footer), VbmetaOffset(footer) + VbmetaSize(footer));
      if !StartsWith(header, AVB_MAGIC) then Err("the AVB footer does not point at a vbmeta block")
      else if OriginalSize(footer) < payloadEnd then Err("the AVB footer claims an image shorter than the boot payload")
      else Ok(Some(Avb(footer, header, Slice(data, payloadEnd, OriginalSize(footer)))))
  }

  function SignatureSize(data: seq<byte>): u32 {
    if |data| >= 1584 && Le32(data, 40) == 4 then Le32(data, 1580) else 0
  }

  /** `BootImage.__init__` */
  function Parse(data: seq<byte>): Result<Image> {
    if !StartsWith(data, BOOT_MAGIC) then Err("not an Android boot image: the ANDROID! magic is missing")
    else if |data| < 44 then Err("truncated header")
    else if Le32(data, 40) != 3 && Le32(data, 40) != 4 then Err("only boot header versions 3 and 4 are supported")
    else if Le32(data, 40) == 4 && |data| < 1584 then Err("truncated header")
    else
      var atRamdisk := PAGE + AlignPage(Le32(data, 8));
      var atSignature := atRamdisk + AlignPage(Le32(data, 12));
      var end := atSignature + AlignPage(SignatureSize(data));
      match ReadAvb(data, end)
      case Err(reason) => Err(reason)
      case Ok(avb) =>
        Ok(Image(data, Le32(data, 40), Slice(data, PAGE, PAGE + Le32(data, 8)),
                 Slice(data, atRamdisk, atRamdisk + Le32(data, 12)),
                 Slice(data, atSignature, atSignature + SignatureSize(data)), end, avb))
  }

  /** What parsing guarantees about an image. */
  predicate WellFormed(image: Image) {
    && |image.data| >= 44 && StartsWith(image.data, BOOT_MAGIC)
    && image.version == Le32(image.data, 40) && (image.version == 3 || image.version == 4)
    && (image.version == 3 ==> image.signature == [])
    && |image.kernel| < U32 && |image.signature| < U32
    && (|image.data| <= PAGE ==> image.kernel == [])
    && (image.avb.Some? ==> FooterFormed(image.avb.value))
  }

  predicate FooterFormed(avb: Avb) {
    && |avb.footer| == FOOTER_SIZE && StartsWith(avb.footer, AVB_FOOTER_MAGIC)
    && StartsWith(avb.header, AVB_MAGIC) && |avb.header| <= VbmetaSize(avb.footer)
  }

  lemma SliceLength(s: seq<byte>, lo: nat, n: nat)
    ensures |Slice(s, lo, lo + n)| <= n
    ensures |s| <= lo ==> Slice(s, lo, lo + n) == []
    ensures n == 0 ==> Slice(s, lo, lo + n) == []
    ensures lo + n <= |s| ==> |Slice(s, lo, lo + n)| == n
    ensures |Slice(s, lo, lo + n)| < n && |s| > lo ==> |Slice(s, lo, lo + n)| == |s| - lo
  {
  }

  lemma AvbFormed(data: seq<byte>, payloadEnd: nat)
    requires ReadAvb(data, payloadEnd).Ok? && ReadAvb(data, payloadEnd).value.Some?
    ensures FooterFormed(ReadAvb(data, payloadEnd).value.value)
  {
    hide Be64, StartsWith, Slice;
    var footer := data[|data| - FOOTER_SIZE..];
    SliceLength(data, VbmetaOffset(footer), VbmetaSize(footer));
  }

  lemma ParsedIsFormed(data: seq<byte>)
    requires Parse(data).Ok?
    ensures WellFormed(Parse(data).value) && Parse(data).value.data == data
  {
    hide ReadAvb, FooterFormed, Slice, AlignPage, Le32;
    var atRamdisk := PAGE + AlignPage(Le32(data, 8));
    var atSignature := atRamdisk + AlignPage(Le32(data, 12));
    var end := atSignature + AlignPage(SignatureSize(data));
    SliceLength(data, PAGE, Le32(data, 8));
    SliceLength(data, atSignature, SignatureSize(data));
    if ReadAvb(data, end).value.Some? {
      AvbFormed(data, end);
    }
  }

  // ----- writing

  function PadPage(s: seq<byte>): seq<byte> {
    s + Zeros(PageGap(|s|))
  }

  function PageGap(n: nat): nat {
    AlignPage(n) - n
  }

  /** The first page with the block sizes written into it. */
  function Sized(page: seq<byte>, version: u32, kernel: nat, ramdisk: nat, signature: nat): (r: seq<byte>)
    requires |page| >= 1584 && kernel < U32 && ramdisk < U32 && signature < U32
    ensures |r| == |page|
  {
    var p := PutLe32(PutLe32(page, 8, kernel), 12, ramdisk);
    if version >= 4 then PutLe32(p, 1580, signature) else p
  }

  /** Everything before the AVB structures, before the sizes are patched in. */
  function Body(image: Image, ramdisk: seq<byte>): seq<byte> {
    PadPage(Slice(image.data, 0, PAGE) + image.kernel) + PadPage(ramdisk) + PadPage(image.signature)
  }

  lemma AlignPageFacts(n: nat)
    ensures n <= AlignPage(n) < n + PAGE && AlignPage(n) % PAGE == 0
    ensures n > 0 ==> AlignPage(n) >= PAGE
    ensures n % PAGE == 0 ==> AlignPage(n) == n
  {
  }

  lemma AlignPageShift(base: nat, n: nat)
    requires base % PAGE == 0
    ensures AlignPage(base + n) == base + AlignPage(n)
  {
  }

  lemma BodyLength(image: Image, ramdisk: seq<byte>)
    requires WellFormed(image)
    ensures |Body(image, ramdisk)| >= PAGE
  {
    hide AlignPage, StartsWith, FooterFormed;
    AlignPageFacts(|Slice(image.data, 0, PAGE) + image.kernel|);
  }

  /** The footer for an image whose payload and vbmeta block both end up at `size`. */
  function Relocated(footer: seq<byte>, size: u64): (r: seq<byte>)
    requires |footer| == FOOTER_SIZE
    ensures |r| == FOOTER_SIZE
  {
    PutBe64(PutBe64(footer, 12, size), 20, size)
  }

  /** `rebuild` */
  function Rebuild(image: Image, ramdisk: seq<byte>): Result<seq<byte>>
    requires WellFormed(image)
  {
    if |ramdisk| >= U32 then Err("a size does not fit its field")
    else
      BodyLength(image, ramdisk);
      var payload := Sized(Body(image, ramdisk), image.version, |image.kernel|, |ramdisk|, |image.signature|);
      match image.avb
      case None =>
        if |payload| > |image.data| then Err("the patched image is larger than the stock image")
        else Ok(payload + Zeros(|image.data| - |payload|))
      case Some(avb) =>
        var out := payload + PadPage(avb.tail);
        var size := |out|;
        if |out + avb.header| + FOOTER_SIZE > |image.data| then Err("no room left for the AVB structures")
        else if size >= U64 then Err("a size does not fit its field")
        else Ok(out + avb.header + Zeros(|image.data| - FOOTER_SIZE - |out + avb.header|) + Relocated(avb.footer, size))
  }

  // ----- the layout of a written image

  /** First page, kernel, ramdisk and signature on page boundaries, then the rest. */
  function Compose(page: seq<byte>, kernel: seq<byte>, ramdisk: seq<byte>, signature: seq<byte>, rest: seq<byte>): seq<byte> {
    page + PadPage(kernel) + PadPage(ramdisk) + PadPage(signature) + rest
  }

  /** The first page describes these blocks. */
  predicate Describes(page: seq<byte>, version: u32, kernel: seq<byte>, ramdisk: seq<byte>, signature: seq<byte>) {
    && |page| == PAGE && StartsWith(page, BOOT_MAGIC)
    && Le32(page, 40) == version && (version == 3 || version == 4)
    && Le32(page, 8) == |kernel| && Le32(page, 12) == |ramdisk|
    && (version == 4 ==> Le32(page, 1580) == |signature|)
    && (version == 3 ==> signature == [])
  }

  function EndOf(kernel: seq<byte>, ramdisk: seq<byte>, signature: seq<byte>): nat {
    PAGE + AlignPage(|kernel|) + AlignPage(|ramdisk|) + AlignPage(|signature|)
  }

  lemma PadLength(s: seq<byte>)
    ensures |PadPage(s)| == AlignPage(|s|)
  {
    AlignPageFacts(|s|);
  }

  lemma PadAt(data: seq<byte>, at: nat, s: seq<byte>)
    requires At(data, at, PadPage(s))
    ensures Slice(data, at, at + |s|) == s
  {
    hide AlignPage;
    AtSplit(data, at, s, Zeros(PageGap(|s|)));
  }

  /** Where the blocks of a composed image are. */
  lemma ComposedAt(page: seq<byte>, kernel: seq<byte>, ramdisk: seq<byte>, signature: seq<byte>, rest: seq<byte>)
    requires |page| == PAGE
    ensures var data := Compose(page, kernel, ramdisk, signature, rest);
            && At(data, 0, page) && At(data, PAGE, PadPage(kernel))
            && At(data, PAGE + AlignPage(|kernel|), PadPage(ramdisk))
            && At(data, PAGE + AlignPage(|kernel|) + AlignPage(|ramdisk|), PadPage(signature))
            && At(data, EndOf(kernel, ramdisk, signature), rest)
            && |data| == EndOf(kernel, ramdisk, signature) + |rest|
  {
    hide AlignPage, PadPage, At;
    PadLength(kernel);
    PadLength(ramdisk);
    PadLength(signature);
    var data := Compose(page, kernel, ramdisk, signature, rest);
    assert At(data, 0, data) by { AtWhole(data); }
    AtSplit(data, 0, page + PadPage(kernel) + PadPage(ramdisk) + PadPage(signature), rest);
    AtSplit(data, 0, page + PadPage(kernel) + PadPage(ramdisk), PadPage(signature));
    AtSplit(data, 0, page + PadPage(kernel), PadPage(ramdisk));
    AtSplit(data, 0, page, PadPage(kernel));
  }

  lemma AtWhole(s: seq<byte>)
    ensures At(s, 0, s)
  {
  }

  lemma PageFields(data: seq<byte>, page: seq<byte>)
    requires |page| == PAGE && At(data, 0, page)
    ensures |data| >= PAGE && StartsWith(data, BOOT_MAGIC) == StartsWith(page, BOOT_MAGIC)
    ensures Le32(data, 8) == Le32(page, 8) && Le32(data, 12) == Le32(page, 12)
    ensures Le32(data, 40) == Le32(page, 40) && Le32(data, 1580) == Le32(page, 1580)
  {
    assert forall i :: 0 <= i < PAGE ==> data[i] == page[i] by {
      assert forall i :: 0 <= i < PAGE ==> data[i] == data[0..PAGE][i];
    }
    assert data[..8] == page[..8];
  }

  /** Parsing a composed image finds the blocks it was composed of. */
  lemma ParseComposed(page: seq<byte>, version: u32, kernel: seq<byte>, ramdisk: seq<byte>, signature: seq<byte>, rest: seq<byte>)
    requires Describes(page, version, kernel, ramdisk, signature)
    ensures var data := Compose(page, kernel, ramdisk, signature, rest);
            var end := EndOf(kernel, ramdisk, signature);
            Parse(data) == match ReadAvb(data, end) {
                             case Err(reason) => Err(reason)
                             case Ok(avb) => Ok(Image(data, version, kernel, ramdisk, signature, end, avb))
                           }
  {
    hide AlignPage, PadPage, At, StartsWith, ReadAvb, Le32, Slice, Compose;
    var data := Compose(page, kernel, ramdisk, signature, rest);
    ComposedAt(page, kernel, ramdisk, signature, rest);
    PageFields(data, page);
    PadAt(data, PAGE, kernel);
    PadAt(data, PAGE + AlignPage(|kernel|), ramdisk);
    PadAt(data, PAGE + AlignPage(|kernel|) + AlignPage(|ramdisk|), signature);
  }

  // ----- what rebuild writes

  function FirstPage(image: Image, ramdisk: seq<byte>): (page: seq<byte>)
    requires WellFormed(image) && |image.data| >= PAGE && |ramdisk| < U32
    ensures |page| == PAGE
  {
    Sized(image.data[..PAGE], image.version, |image.kernel|, |ramdisk|, |image.signature|)
  }

  /** The bytes after the payload: padding, or the relocated AVB structures. */
  function Rest(image: Image, end: nat): seq<byte>
    requires WellFormed(image)
  {
    match image.avb
    case None => if end <= |image.data| then Zeros(|image.data| - end) else []
    case Some(avb) =>
      var size := end + AlignPage(|avb.tail|);
      if size + |avb.header| + FOOTER_SIZE <= |image.data| && size < U64 then
        PadPage(avb.tail) + avb.header + Zeros(|image.data| - FOOTER_SIZE - (size + |avb.header|)) + Relocated(avb.footer, size)
      else []
  }

  /** The payload and the AVB structures fit into the original length. */
  predicate Fits(image: Image, ramdisk: seq<byte>) {
    && |image.data| >= PAGE && |ramdisk| < U32
    && var end := EndOf(image.kernel, ramdisk, image.signature);
       match image.avb
       case None => end <= |image.data|
       case Some(avb) =>
         && end + AlignPage(|avb.tail|) + |avb.header| + FOOTER_SIZE <= |image.data|
         && end + AlignPage(|avb.tail|) < U64
  }

  lemma SizedHead(page: seq<byte>, more: seq<byte>, version: u32, kernel: nat, ramdisk: nat, signature: nat)
    requires |page| == PAGE && kernel < U32 && ramdisk < U32 && signature < U32
    ensures Sized(page + more, version, kernel, ramdisk, signature) == Sized(page, version, kernel, ramdisk, signature) + more
  {
    PutHead(page, more, 8, kernel);
    PutHead(PutLe32(page, 8, kernel), more, 12, ramdisk);
    PutHead(PutLe32(PutLe32(page, 8, kernel), 12, ramdisk), more, 1580, signature);
  }

  lemma PutHead(page: seq<byte>, more: seq<byte>, at: nat, v: u32)
    requires at + 4 <= |page|
    ensures PutLe32(page + more, at, v) == PutLe32(page, at, v) + more
  {
  }

  lemma PadPrefixed(page: seq<byte>, s: seq<byte>)
    requires |page| == PAGE
    ensures PadPage(page + s) == page + PadPage(s)
  {
    AlignPageShift(|page|, |s|);
  }

  lemma BodyComposed(image: Image, ramdisk: seq<byte>)
    requires |image.data| >= PAGE
    ensures Body(image, ramdisk)
         == image.data[..PAGE] + (PadPage(image.kernel) + PadPage(ramdisk) + PadPage(image.signature))
    ensures |Body(image, ramdisk)| == EndOf(image.kernel, ramdisk, image.signature)
  {
    hide PadPage, AlignPage;
    PadPrefixed(image.data[..PAGE], image.kernel);
    PadLength(image.kernel);
    PadLength(ramdisk);
    PadLength(image.signature);
  }

  /** A file shorter than one page has no room for a second one. */
  lemma ShortImage(image: Image, ramdisk: seq<byte>)
    requires WellFormed(image) && |image.data| < PAGE
    ensures Rebuild(image, ramdisk).Err?
  {
    hide StartsWith, FooterFormed, Sized, Relocated, Le32, Zeros, Body;
    if |ramdisk| < U32 {
      BodyLength(image, ramdisk);
    }
  }

  /** `rebuild` succeeds exactly when everything fits, and then writes the layout. */
  lemma RebuildShape(image: Image, ramdisk: seq<byte>)
    requires WellFormed(image)
    ensures Rebuild(image, ramdisk).Ok? <==> Fits(image, ramdisk)
    ensures Fits(image, ramdisk) ==>
              Rebuild(image, ramdisk).value
              == Compose(FirstPage(image, ramdisk), image.kernel, ramdisk, image.signature,
                         Rest(image, EndOf(image.kernel, ramdisk, image.signature)))
    ensures Fits(image, ramdisk) ==> |Rebuild(image, ramdisk).value| == |image.data|
  {
    hide StartsWith, FooterFormed, Sized, Relocated, Le32, Body, PadPage, AlignPage;
    if |image.data| < PAGE {
      ShortImage(image, ramdisk);
    } else if |ramdisk| < U32 {
      BodyComposed(image, ramdisk);
      var blocks := PadPage(image.kernel) + PadPage(ramdisk) + PadPage(image.signature);
      SizedHead(image.data[..PAGE], blocks, image.version, |image.kernel|, |ramdisk|, |image.signature|);
      var payload := Sized(Body(image, ramdisk), image.version, |image.kernel|, |ramdisk|, |image.signature|);
      assert payload == FirstPage(image, ramdisk) + blocks;
      if image.avb.Some? { PadLength(image.avb.value.tail); }
    }
  }

  // ----- lens laws

  lemma FirstPageDescribes(image: Image, ramdisk: seq<byte>)
    requires WellFormed(image) && |image.data| >= PAGE && |ramdisk| < U32
    ensures Describes(FirstPage(image, ramdisk), image.version, image.kernel, ramdisk, image.signature)
    ensures var page := FirstPage(image, ramdisk);
            forall i :: 0 <= i < PAGE && !(8 <= i < 16) && !(image.version == 4 && 1580 <= i < 1584) ==> page[i] == image.data[i]
  {
    hide FooterFormed;
    var page := FirstPage(image, ramdisk);
    assert page[..8] == image.data[..8];
    assert image.data[..PAGE][..8] == image.data[..8];
  }

  /** The vbmeta block was not cut off by the end of the file. */
  predicate Unclipped(avb: Avb)
    requires |avb.footer| == FOOTER_SIZE
  {
    |avb.header| == VbmetaSize(avb.footer)
  }

  lemma RelocatedFields(footer: seq<byte>, size: u64)
    requires |footer| == FOOTER_SIZE
    ensures var r := Relocated(footer, size);
            && OriginalSize(r) == size && VbmetaOffset(r) == size && VbmetaSize(r) == VbmetaSize(footer)
            && StartsWith(r, AVB_FOOTER_MAGIC) == StartsWith(footer, AVB_FOOTER_MAGIC)
            && forall other: u64 :: Relocated(r, other) == Relocated(footer, other)
  {
    var r := Relocated(footer, size);
    assert r[..4] == footer[..4];
    forall other: u64
      ensures Relocated(r, other) == Relocated(footer, other)
    {
      RelocateTwice(footer, size, other);
    }
  }

  lemma RelocateTwice(footer: seq<byte>, size: u64, other: u64)
    requires |footer| == FOOTER_SIZE
    ensures Relocated(Relocated(footer, size), other) == Relocated(footer, other)
  {
    Be64Determines(Relocated(Relocated(footer, size), other), Relocated(footer, other), 12);
    Be64Determines(Relocated(Relocated(footer, size), other), Relocated(footer, other), 20);
  }

  lemma Be64Determines(s: seq<byte>, t: seq<byte>, at: nat)
    requires |s| == |t| && at + 8 <= |s| && Be64(s, at) == Be64(t, at)
    ensures forall i :: at <= i < at + 8 ==> s[i] == t[i]
  {
    assert Be32(s, at) == Be32(t, at) && Be32(s, at + 4) == Be32(t, at + 4);
    DigitsDetermine(s[at + 3], s[at + 2], s[at + 1], s[at], t[at + 3], t[at + 2], t[at + 1], t[at]);
    DigitsDetermine(s[at + 7], s[at + 6], s[at + 5], s[at + 4], t[at + 7], t[at + 6], t[at + 5], t[at + 4]);
  }

  /** The AVB structures of a written image, read back. */
  lemma AvbReadBack(data: seq<byte>, end: nat, avb: Avb, gap: nat)
    requires FooterFormed(avb) && end + AlignPage(|avb.tail|) < U64
    requires |data| == end + AlignPage(|avb.tail|) + |avb.header| + gap + FOOTER_SIZE
    requires At(data, end, PadPage(avb.tail) + avb.header + Zeros(gap) + Relocated(avb.footer, end + AlignPage(|avb.tail|)))
    ensures ReadAvb(data, end).Ok? && ReadAvb(data, end).value.Some?
    ensures var b := ReadAvb(data, end).value.value;
            && b.footer == Relocated(avb.footer, end + AlignPage(|avb.tail|))
            && b.tail == PadPage(avb.tail)
            && b.header == Slice(data, end + AlignPage(|avb.tail|), end + AlignPage(|avb.tail|) + VbmetaSize(avb.footer))
  {
    hide Relocated, VbmetaSize, VbmetaOffset, OriginalSize, PadPage, At, Slice, StartsWith, AlignPage;
    var size := end + AlignPage(|avb.tail|);
    var footer := Relocated(avb.footer, size);
    PadLength(avb.tail);
    AtSplit(data, end, PadPage(avb.tail) + avb.header + Zeros(gap), footer);
    AtSplit(data, end, PadPage(avb.tail) + avb.header, Zeros(gap));
    AtSplit(data, end, PadPage(avb.tail), avb.header);
    RelocatedFields(avb.footer, size);
    FooterAtEnd(data, footer);
    SliceIs(data, end, PadPage(avb.tail));
    SlicePrefix(data, size, avb.header, VbmetaSize(avb.footer), AVB_MAGIC);
  }

  lemma FooterAtEnd(data: seq<byte>, footer: seq<byte>)
    requires |footer| == FOOTER_SIZE && |data| >= FOOTER_SIZE && At(data, |data| - FOOTER_SIZE, footer)
    ensures data[|data| - FOOTER_SIZE..] == footer
    ensures LooksLikeFooter(data) == StartsWith(footer, AVB_FOOTER_MAGIC)
  {
  }

  lemma SliceIs(data: seq<byte>, at: nat, b: seq<byte>)
    requires At(data, at, b)
    ensures Slice(data, at, at + |b|) == b
  {
  }

  lemma SlicePrefix(data: seq<byte>, at: nat, b: seq<byte>, n: nat, magic: seq<byte>)
    requires At(data, at, b) && |b| <= n && StartsWith(b, magic)
    ensures StartsWith(Slice(data, at, at + n), magic)
    ensures n == |b| ==> Slice(data, at, at + n) == b
  {
    var s := Slice(data, at, at + n);
    assert s[..|b|] == b;
    assert s[..|magic|] == s[..|b|][..|magic|];
  }

  /** How the AVB structures of an image come back after it was written as `out`. */
  predicate AvbBack(image: Image, out: seq<byte>, end: nat)
    requires WellFormed(image)
  {
    match image.avb
    case None => ReadAvb(out, end) == Ok(None) <==> !LooksLikeFooter(out)
    case Some(a) =>
      match ReadAvb(out, end)
      case Ok(Some(b)) => Moved(a, b, end + AlignPage(|a.tail|), out)
      case _ => false
  }

  predicate Moved(a: Avb, b: Avb, size: nat, out: seq<byte>)
    requires |a.footer| == FOOTER_SIZE
  {
    && size < U64 && b.footer == Relocated(a.footer, size) && b.tail == PadPage(a.tail)
    && b.header == Slice(out, size, size + VbmetaSize(a.footer))
  }

  /** Parsing a written image: all its blocks come back, and its AVB structures
      come back moved to where they were put. */
  lemma Reparse(image: Image, ramdisk: seq<byte>, out: seq<byte>)
    requires WellFormed(image) && Rebuild(image, ramdisk) == Ok(out)
    ensures Fits(image, ramdisk) && |out| == |image.data| && out[..PAGE] == FirstPage(image, ramdisk)
    ensures var end := EndOf(image.kernel, ramdisk, image.signature);
            && AvbBack(image, out, end)
            && Parse(out) == match ReadAvb(out, end) {
                               case Err(reason) => Err(reason)
                               case Ok(avb) => Ok(Image(out, image.version, image.kernel, ramdisk, image.signature, end, avb))
                             }
  {
    hide StartsWith, FooterFormed, Sized, Relocated, Le32, PadPage, AlignPage, Parse, Rebuild, Compose, At, FirstPage, Unclipped,
         LooksLikeFooter, Slice, VbmetaSize, VbmetaOffset, OriginalSize;
    RebuildShape(image, ramdisk);
    var page := FirstPage(image, ramdisk);
    var end := EndOf(image.kernel, ramdisk, image.signature);
    var rest := Rest(image, end);
    FirstPageDescribes(image, ramdisk);
    ParseComposed(page, image.version, image.kernel, ramdisk, image.signature, rest);
    ComposedAt(page, image.kernel, ramdisk, image.signature, rest);
    FirstBytes(out, page);
    if image.avb.Some? {
      var avb := image.avb.value;
      AvbReadBack(out, end, avb, |image.data| - FOOTER_SIZE - (end + AlignPage(|avb.tail|) + |avb.header|));
    }
  }

  lemma FirstBytes(data: seq<byte>, page: seq<byte>)
    requires At(data, 0, page)
    ensures |data| >= |page| && data[..|page|] == page
  {
  }

  /** What `_read_avb` demands of a footer it finds. */
  predicate FooterHolds(data: seq<byte>, payloadEnd: nat)
    requires |data| >= FOOTER_SIZE
  {
    var footer := data[|data| - FOOTER_SIZE..];
    && StartsWith(Slice(data, VbmetaOffset(footer), VbmetaOffset(footer) + VbmetaSize(footer)), AVB_MAGIC)
    && OriginalSize(footer) >= payloadEnd
  }

  /** Nothing at the end is taken for a footer, or it is one that holds. */
  predicate Readable(image: Image, ramdisk: seq<byte>, out: seq<byte>) {
    LooksLikeFooter(out) ==> FooterHolds(out, EndOf(image.kernel, ramdisk, image.signature))
  }

  lemma ReadableMeans(image: Image, ramdisk: seq<byte>, out: seq<byte>)
    ensures ReadAvb(out, EndOf(image.kernel, ramdisk, image.signature)).Ok? <==> Readable(image, ramdisk, out)
  {
  }

  /** Put-get: whatever ramdisk is written is the ramdisk read back. An image with AVB
      structures always parses again, its vbmeta block coming back exactly if it was
      not cut off; one without parses exactly if its end holds no false footer, and
      comes back without exactly if its end does not look like one. */
  lemma PutGet(image: Image, ramdisk: seq<byte>, out: seq<byte>)
    requires WellFormed(image) && Rebuild(image, ramdisk) == Ok(out)
    ensures Parse(out).Ok? ==> var again := Parse(out).value;
                               again.ramdisk == ramdisk && again.kernel == image.kernel && again.signature == image.signature
    ensures Parse(out).Ok? <==> Readable(image, ramdisk, out)
    ensures image.avb.Some? ==>
              && Parse(out).Ok? && Parse(out).value.avb.Some?
              && (Parse(out).value.avb.value.header == image.avb.value.header <==> Unclipped(image.avb.value))
    ensures image.avb.None? ==> (Parse(out).Ok? && Parse(out).value.avb.None? <==> !LooksLikeFooter(out))
  {
    hide AlignPage, Parse, Rebuild, LooksLikeFooter, Fits, FirstPage, ReadAvb, Readable, Slice, VbmetaSize, StartsWith, Relocated;
    Reparse(image, ramdisk, out);
    ReadableMeans(image, ramdisk, out);
    if image.avb.Some? {
      HeaderBack(image, ramdisk, out, image.avb.value, Parse(out).value.avb.value.header);
    }
  }

  /** The vbmeta block at its declared size fits where it is put. */
  predicate Roomy(image: Image, ramdisk: seq<byte>) {
    && image.avb.Some? && |image.avb.value.footer| == FOOTER_SIZE
    && AvbAt(image, ramdisk) + VbmetaSize(image.avb.value.footer) + FOOTER_SIZE <= |image.data|
  }

  /** Where the vbmeta block is put. */
  function AvbAt(image: Image, ramdisk: seq<byte>): nat
    requires image.avb.Some?
  {
    EndOf(image.kernel, ramdisk, image.signature) + AlignPage(|image.avb.value.tail|)
  }

  /** The vbmeta block read back: filled up with zeros to its declared size, or run
      into the footer. */
  lemma HeaderBack(image: Image, ramdisk: seq<byte>, out: seq<byte>, avb: Avb, back: seq<byte>)
    requires WellFormed(image) && Rebuild(image, ramdisk) == Ok(out) && image.avb == Some(avb) && |avb.footer| == FOOTER_SIZE
    requires back == Slice(out, AvbAt(image, ramdisk), AvbAt(image, ramdisk) + VbmetaSize(avb.footer))
    ensures |back| >= |avb.header| && back[..|avb.header|] == avb.header && (|back| == |avb.header| <==> Unclipped(avb))
    ensures Roomy(image, ramdisk) ==> |back| == VbmetaSize(avb.footer) && back == avb.header + Zeros(|back| - |avb.header|)
    ensures !Roomy(image, ramdisk) ==> exists k :: |avb.header| <= k < |back| && back[k] == 0x41
  {
    hide AlignPage, Parse, Rebuild, Relocated, PadPage, FirstPage, At, Compose, VbmetaSize, Slice, EndOf;
    RebuildShape(image, ramdisk);
    WellFormedAvb(image);
    var end, size := EndOf(image.kernel, ramdisk, image.signature), AvbAt(image, ramdisk);
    var gap := |image.data| - FOOTER_SIZE - (size + |avb.header|);
    var footer := Relocated(avb.footer, size);
    ComposedAt(FirstPage(image, ramdisk), image.kernel, ramdisk, image.signature, Rest(image, end));
    PadLength(avb.tail);
    assert PadPage(avb.tail) + avb.header + Zeros(gap) + footer == PadPage(avb.tail) + (avb.header + Zeros(gap) + footer);
    AtSplit(out, end, PadPage(avb.tail), avb.header + Zeros(gap) + footer);
    RelocatedMagic(avb.footer, size);
    SliceOfThree(out, size, avb.header, gap, footer, VbmetaSize(avb.footer));
  }

  lemma RelocatedMagic(footer: seq<byte>, size: u64)
    requires |footer| == FOOTER_SIZE && StartsWith(footer, AVB_FOOTER_MAGIC)
    ensures Relocated(footer, size)[0] == 0x41
  {
    RelocatedFields(footer, size);
    assert Relocated(footer, size)[..4][0] == AVB_FOOTER_MAGIC[0];
  }

  lemma SliceOfThree(data: seq<byte>, at: nat, header: seq<byte>, gap: nat, footer: seq<byte>, n: nat)
    requires |footer| == FOOTER_SIZE && footer[0] == 0x41 && |header| <= n && |data| == at + |header| + gap + FOOTER_SIZE
    requires At(data, at, header + Zeros(gap) + footer)
    ensures var back := Slice(data, at, at + n);
            && |back| >= |header| && back[..|header|] == header && (|back| == |header| <==> |header| == n)
            && (n <= |header| + gap ==> back == header + Zeros(n - |header|))
            && (n > |header| + gap ==> |back| > |header| + gap && back[|header| + gap] == 0x41)
  {
    var whole := header + Zeros(gap) + footer;
    assert data[at..] == whole;
    var back := Slice(data, at, at + n);
    assert forall i :: 0 <= i < |back| ==> back[i] == whole[i];
  }

  lemma PadTwice(s: seq<byte>)
    ensures PadPage(PadPage(s)) == PadPage(s) && AlignPage(|PadPage(s)|) == AlignPage(|s|)
  {
    PadLength(s);
    AlignPageFacts(|s|);
    AlignPageFacts(AlignPage(|s|));
  }

  lemma SizedTwice(page: seq<byte>, version: u32, kernel: nat, first: nat, second: nat, signature: nat)
    requires |page| == PAGE && kernel < U32 && first < U32 && second < U32 && signature < U32
    ensures Sized(Sized(page, version, kernel, first, signature), version, kernel, second, signature)
         == Sized(page, version, kernel, second, signature)
  {
    var s := Sized(Sized(page, version, kernel, first, signature), version, kernel, second, signature);
    var t := Sized(page, version, kernel, second, signature);
    SizedFields(Sized(page, version, kernel, first, signature), version, kernel, second, signature);
    SizedFields(page, version, kernel, second, signature);
    SizedFields(page, version, kernel, first, signature);
    Le32Determines(s, t, 8);
    Le32Determines(s, t, 12);
    if version >= 4 {
      Le32Determines(s, t, 1580);
    }
  }

  lemma SizedFields(page: seq<byte>, version: u32, kernel: nat, ramdisk: nat, signature: nat)
    requires |page| == PAGE && kernel < U32 && ramdisk < U32 && signature < U32
    ensures var s := Sized(page, version, kernel, ramdisk, signature);
            && Le32(s, 8) == kernel && Le32(s, 12) == ramdisk && (version >= 4 ==> Le32(s, 1580) == signature)
            && forall i :: 0 <= i < PAGE && !(8 <= i < 16) && !(version >= 4 && 1580 <= i < 1584) ==> s[i] == page[i]
  {
  }

  lemma Le32Determines(s: seq<byte>, t: seq<byte>, at: nat)
    requires |s| == |t| && at + 4 <= |s| && Le32(s, at) == Le32(t, at)
    ensures forall i :: at <= i < at + 4 ==> s[i] == t[i]
  {
    DigitsDetermine(s[at], s[at + 1], s[at + 2], s[at + 3], t[at], t[at + 1], t[at + 2], t[at + 3]);
  }

  /** Parse an image and write it back with another ramdisk. */
  function Rewrite(data: seq<byte>, ramdisk: seq<byte>): Result<seq<byte>> {
    match Parse(data)
    case Err(reason) => Err(reason)
    case Ok(image) =>
      ParsedIsFormed(data);
      Rebuild(image, ramdisk)
  }

  /** When a second write may go through the first image. */
  predicate Restorable(image: Image, first: seq<byte>, out: seq<byte>, second: seq<byte>) {
    if image.avb.None? then !LooksLikeFooter(out) else Roomy(image, first) && Roomy(image, second)
  }

  /** Put-put: writing one ramdisk, reparsing, and writing another is the same, byte
      for byte, as writing the other at once, exactly if both writes leave the vbmeta
      block its declared size and a footerless image did not come to look as if it
      had a footer. */
  lemma PutPut(image: Image, first: seq<byte>, out: seq<byte>, second: seq<byte>, both: seq<byte>)
    requires WellFormed(image) && Rebuild(image, first) == Ok(out) && Rebuild(image, second) == Ok(both)
    ensures Rewrite(out, second) == Ok(both) <==> Restorable(image, first, out, second)
    ensures image.avb.Some? && Rewrite(out, second).Ok? ==> (Rewrite(out, second) == Ok(both) <==> Roomy(image, first))
  {
    hide WellFormed, AlignPage, Parse, Rebuild, LooksLikeFooter, FirstPage, Compose, ReadAvb, Fits, Roomy, Moved;
    RebuildShape(image, second);
    WrittenAgain(image, first, out);
    if Parse(out).Ok? {
      var again := Parse(out).value;
      RebuildShape(again, second);
      if image.avb.Some? {
        PutPutAvb(image, first, out, again, second);
      } else if again.avb.Some? {
        PutPutForged(image, first, again, second);
      } else {
        PutPutPlain(image, first, again, second);
      }
    }
  }

  /** What cannot be written at once cannot be written through the first image. */
  lemma PutPutRefused(image: Image, first: seq<byte>, out: seq<byte>, second: seq<byte>)
    requires WellFormed(image) && Rebuild(image, first) == Ok(out) && Rebuild(image, second).Err?
    ensures Rewrite(out, second).Err?
  {
    hide WellFormed, AlignPage, Parse, Rebuild, LooksLikeFooter, FirstPage, Compose, ReadAvb, Fits, Roomy, Moved;
    RebuildShape(image, second);
    WrittenAgain(image, first, out);
    if Parse(out).Ok? {
      var again := Parse(out).value;
      RebuildShape(again, second);
      if image.avb.Some? {
        PutPutAvb(image, first, out, again, second);
      } else if again.avb.Some? {
        PutPutForged(image, first, again, second);
      } else {
        PutPutPlain(image, first, again, second);
      }
    }
  }

  lemma WrittenAgain(image: Image, first: seq<byte>, out: seq<byte>)
    requires WellFormed(image) && Rebuild(image, first) == Ok(out)
    ensures Parse(out).Ok? ==> Rewritten(image, first, Parse(out).value) && Parse(out).value.data == out
    ensures image.avb.Some? ==>
              && Parse(out).Ok? && Parse(out).value.avb.Some? && |image.avb.value.footer| == FOOTER_SIZE
              && Moved(image.avb.value, Parse(out).value.avb.value, AvbAt(image, first), out)
    ensures image.avb.None? ==> (Parse(out).Ok? && Parse(out).value.avb.None? <==> !LooksLikeFooter(out))
  {
    hide AlignPage, Parse, Rebuild, LooksLikeFooter, FirstPage, Compose, ReadAvb, Moved, StartsWith;
    Reparse(image, first, out);
    if Parse(out).Ok? {
      ParsedIsFormed(out);
    }
  }

  /** `again` is `image` after a write: the same blocks and length. */
  predicate Rewritten(image: Image, first: seq<byte>, again: Image) {
    && |again.data| == |image.data| && |image.data| >= PAGE && |first| < U32
    && WellFormed(image) && WellFormed(again) && again.data[..PAGE] == FirstPage(image, first)
    && again.version == image.version && again.kernel == image.kernel && again.signature == image.signature
  }

  lemma PutPutPlain(image: Image, first: seq<byte>, again: Image, second: seq<byte>)
    requires Rewritten(image, first, again) && image.avb.None? && again.avb.None?
    ensures Fits(again, second) == Fits(image, second)
    ensures Fits(image, second) ==> Rebuild(again, second) == Rebuild(image, second)
  {
    hide WellFormed, AlignPage, Rebuild, FirstPage, Compose;
    RebuildShape(image, second);
    RebuildShape(again, second);
    if Fits(image, second) {
      SameFirstPage(image, first, again, second);
    }
  }

  /** A false footer that holds is relocated by the second write, where the image
      itself would have zeros. */
  lemma PutPutForged(image: Image, first: seq<byte>, again: Image, second: seq<byte>)
    requires Rewritten(image, first, again) && image.avb.None? && again.avb.Some?
    ensures Fits(again, second) ==> Fits(image, second) && Rebuild(again, second) != Rebuild(image, second)
  {
    hide AlignPage, Rebuild, FirstPage, Compose, Relocated, StartsWith, VbmetaSize, PadPage, At;
    RebuildShape(image, second);
    RebuildShape(again, second);
    if Fits(again, second) {
      var end, a := EndOf(image.kernel, second, image.signature), again.avb.value;
      var size := end + AlignPage(|a.tail|);
      var gap := |image.data| - FOOTER_SIZE - (size + |a.header|);
      PadLength(a.tail);
      RelocatedMagic(a.footer, size);
      var rest, zeros := Rest(again, end), Rest(image, end);
      ComposedAt(FirstPage(again, second), image.kernel, second, image.signature, rest);
      ComposedAt(FirstPage(image, second), image.kernel, second, image.signature, zeros);
      var k := |image.data| - FOOTER_SIZE - end;
      assert rest[k] == Relocated(a.footer, size)[0];
      assert zeros[k] == 0;
      RestDiffers(Rebuild(again, second).value, Rebuild(image, second).value, end, rest, zeros, k);
    }
  }

  lemma RestDiffers(x: seq<byte>, y: seq<byte>, end: nat, a: seq<byte>, b: seq<byte>, k: nat)
    requires At(x, end, a) && At(y, end, b) && k < |a| && k < |b| && a[k] != b[k]
    ensures x != y
  {
    assert x[end..end + |a|][k] == x[end + k];
    assert y[end..end + |b|][k] == y[end + k];
  }

  lemma PutPutAvb(image: Image, first: seq<byte>, out: seq<byte>, again: Image, second: seq<byte>)
    requires Rewritten(image, first, again) && image.avb.Some? && again.avb.Some? && Rebuild(image, first) == Ok(out)
    requires |image.avb.value.footer| == FOOTER_SIZE && Moved(image.avb.value, again.avb.value, AvbAt(image, first), out)
    ensures Fits(again, second) ==> Fits(image, second)
    ensures Fits(image, second) && Roomy(image, first) ==> (Fits(again, second) <==> Roomy(image, second))
    ensures Fits(again, second) ==> (Rebuild(again, second) == Rebuild(image, second) <==> Roomy(image, first))
    ensures Fits(again, second) && Roomy(image, first) ==> Roomy(image, second)
  {
    hide WellFormed, AlignPage, Rebuild, FirstPage, Compose, Relocated, PadPage, VbmetaSize, Slice, StartsWith;
    HeaderBack(image, first, out, image.avb.value, again.avb.value.header);
    PadTwice(image.avb.value.tail);
    WellFormedAvb(image);
    if Fits(again, second) {
      if Roomy(image, first) {
        SameWithZeros(image, first, out, again, second);
      } else {
        FooterInHeader(image, first, out, again, second);
      }
    }
  }

  lemma WellFormedAvb(image: Image)
    requires WellFormed(image) && image.avb.Some?
    ensures FooterFormed(image.avb.value)
  {
  }

  lemma SameWithZeros(image: Image, first: seq<byte>, out: seq<byte>, again: Image, second: seq<byte>)
    requires Rewritten(image, first, again) && image.avb.Some? && again.avb.Some? && Fits(image, second) && Fits(again, second)
    requires var a, b := image.avb.value, again.avb.value;
             && |a.header| <= |b.header| && b.header == a.header + Zeros(|b.header| - |a.header|)
             && |a.footer| == FOOTER_SIZE && Moved(a, b, AvbAt(image, first), out)
    ensures Rebuild(again, second) == Rebuild(image, second)
  {
    hide WellFormed, AlignPage, Rebuild, FirstPage, Compose, Relocated, PadPage, VbmetaSize, Slice;
    RebuildShape(image, second);
    RebuildShape(again, second);
    SameFirstPage(image, first, again, second);
    var a, b := image.avb.value, again.avb.value;
    var end := EndOf(image.kernel, second, image.signature);
    var size := end + AlignPage(|a.tail|);
    PadTwice(a.tail);
    WellFormedAvb(image);
    RelocateTwice(a.footer, AvbAt(image, first), size);
    var more := |b.header| - |a.header|;
    var gap := |image.data| - FOOTER_SIZE - (size + |b.header|);
    assert Zeros(more) + Zeros(gap) == Zeros(more + gap);
    assert PadPage(a.tail) + (a.header + Zeros(more)) + Zeros(gap) == PadPage(a.tail) + a.header + (Zeros(more) + Zeros(gap));
    assert Rest(again, end) == Rest(image, end);
  }

  lemma FooterInHeader(image: Image, first: seq<byte>, out: seq<byte>, again: Image, second: seq<byte>)
    requires Rewritten(image, first, again) && image.avb.Some? && again.avb.Some? && Fits(image, second) && Fits(again, second)
    requires var a, b := image.avb.value, again.avb.value;
             && b.tail == PadPage(a.tail) && AlignPage(|b.tail|) == AlignPage(|a.tail|)
             && exists k :: |a.header| <= k < |b.header| && b.header[k] == 0x41
    ensures Rebuild(again, second) != Rebuild(image, second)
  {
    hide AlignPage, Rebuild, FirstPage, Compose, Relocated, PadPage, VbmetaSize, Slice, StartsWith, At;
    RebuildShape(image, second);
    RebuildShape(again, second);
    var a, b := image.avb.value, again.avb.value;
    var end := EndOf(image.kernel, second, image.signature);
    PadTwice(a.tail);
    PadLength(a.tail);
    PadLength(b.tail);
    var rest, other := Rest(again, end), Rest(image, end);
    ComposedAt(FirstPage(again, second), image.kernel, second, image.signature, rest);
    ComposedAt(FirstPage(image, second), image.kernel, second, image.signature, other);
    var k :| |a.header| <= k < |b.header| && b.header[k] == 0x41;
    var at := AlignPage(|a.tail|) + k;
    assert rest[at] == b.header[k];
    assert other[at] == 0;
    RestDiffers(Rebuild(again, second).value, Rebuild(image, second).value, end, rest, other, at);
  }

  lemma SameFirstPage(image: Image, first: seq<byte>, again: Image, second: seq<byte>)
    requires WellFormed(image) && WellFormed(again) && |image.data| >= PAGE && |again.data| >= PAGE
    requires |first| < U32 && |second| < U32 && again.data[..PAGE] == FirstPage(image, first)
    requires again.version == image.version && again.kernel == image.kernel && again.signature == image.signature
    ensures FirstPage(again, second) == FirstPage(image, second)
  {
    hide Sized, WellFormed;
    assert WellFormed(image);
    SizesFit(image);
    SizedTwice(image.data[..PAGE], image.version, |image.kernel|, |first|, |second|, |image.signature|);
  }

  lemma SizesFit(image: Image)
    requires WellFormed(image)
    ensures |image.kernel| < U32 && |image.signature| < U32
  {
  }

  /** Writing the same ramdisk again changes nothing, exactly if the vbmeta block has
      its declared room and nothing was taken for a footer. */
  lemma RebuildIdempotent(image: Image, ramdisk: seq<byte>, out: seq<byte>)
    requires WellFormed(image) && Rebuild(image, ramdisk) == Ok(out)
    ensures Rewrite(out, ramdisk) == Ok(out) <==> if image.avb.None? then !LooksLikeFooter(out) else Roomy(image, ramdisk)
  {
    hide Rewrite, Rebuild, WellFormed, Roomy, LooksLikeFooter;
    PutPut(image, ramdisk, out, ramdisk, out);
  }

  // ----- what the round-trip gate gives

  /** The tool's gate: writing the image back untouched reproduces it. */
  predicate Gate(image: Image)
    requires WellFormed(image)
  {
    Rebuild(image, image.ramdisk) == Ok(image.data)
  }

  lemma SameFooter(data: seq<byte>, payloadEnd: nat, footer: seq<byte>)
    requires |footer| == FOOTER_SIZE && ReadAvb(data, payloadEnd).Ok? && ReadAvb(data, payloadEnd).value.Some?
    requires |data| >= FOOTER_SIZE && At(data, |data| - FOOTER_SIZE, footer)
    ensures ReadAvb(data, payloadEnd).value.value.footer == footer
    ensures ReadAvb(data, payloadEnd).value.value.header
         == Slice(data, VbmetaOffset(footer), VbmetaOffset(footer) + VbmetaSize(footer))
  {
    hide VbmetaOffset, VbmetaSize, OriginalSize, StartsWith, Slice;
    FooterAtEnd(data, footer);
  }

  /** An image that passes the gate has its whole vbmeta block, or no footer. */
  lemma GateIsStable(stock: seq<byte>, image: Image)
    requires Parse(stock) == Ok(image) && WellFormed(image) && image.data == stock && Gate(image)
    ensures image.avb.Some? ==> Unclipped(image.avb.value)
    ensures image.avb.None? ==> !LooksLikeFooter(stock)
  {
    hide WellFormed, AlignPage, Parse, Rebuild, FirstPage, ReadAvb, StartsWith, Relocated, PadPage;
    ParsedAvb(stock, image);
    RebuildShape(image, image.ramdisk);
    if image.avb.Some? {
      GateUnclipped(stock, image);
    } else {
      NoFooter(stock, image.payloadEnd);
    }
  }

  /** So it can be rewritten any number of times with ramdisks that fit. */
  lemma GatedPutPut(stock: seq<byte>, image: Image, first: seq<byte>, out: seq<byte>, second: seq<byte>, both: seq<byte>)
    requires Parse(stock) == Ok(image) && WellFormed(image) && image.data == stock && Gate(image)
    requires Rebuild(image, first) == Ok(out) && Rebuild(image, second) == Ok(both) && (image.avb.Some? || !LooksLikeFooter(out))
    ensures Rewrite(out, second) == Ok(both)
  {
    hide AlignPage, Parse, Rebuild, FirstPage, ReadAvb, StartsWith, LooksLikeFooter, Rewrite, VbmetaSize, EndOf;
    GateIsStable(stock, image);
    PutPut(image, first, out, second, both);
    RebuildShape(image, first);
    RebuildShape(image, second);
  }

  lemma ParsedAvb(stock: seq<byte>, image: Image)
    requires Parse(stock) == Ok(image)
    ensures ReadAvb(stock, image.payloadEnd) == Ok(image.avb)
  {
    hide ReadAvb, Slice, AlignPage, StartsWith, Le32;
  }

  lemma NoFooter(stock: seq<byte>, payloadEnd: nat)
    requires ReadAvb(stock, payloadEnd) == Ok(None)
    ensures !LooksLikeFooter(stock)
  {
  }

  lemma GateUnclipped(stock: seq<byte>, image: Image)
    requires ReadAvb(stock, image.payloadEnd) == Ok(image.avb) && WellFormed(image) && image.data == stock && Gate(image)
    requires image.avb.Some?
    ensures Unclipped(image.avb.value)
  {
    hide AlignPage, Rebuild, ReadAvb, StartsWith, Relocated, PadPage, Slice, VbmetaOffset, VbmetaSize, OriginalSize, FirstPage, Compose, At;
    var avb := image.avb.value;
    var end := EndOf(image.kernel, image.ramdisk, image.signature);
    var size := end + AlignPage(|avb.tail|);
    RebuildShape(image, image.ramdisk);
    var gap := |stock| - FOOTER_SIZE - (size + |avb.header|);
    var footer := Relocated(avb.footer, size);
    ComposedAt(FirstPage(image, image.ramdisk), image.kernel, image.ramdisk, image.signature, Rest(image, end));
    PadLength(avb.tail);
    AtSplit(stock, end, PadPage(avb.tail) + avb.header + Zeros(gap), footer);
    SameFooter(stock, image.payloadEnd, footer);
    RelocatedFields(avb.footer, size);
    SliceLength(stock, size, VbmetaSize(footer));
  }

  // ----- header fields

  /** `header_fields`, in the order of `FIELDS`. */
  function HeaderFields(image: Image): seq<u32>
    requires WellFormed(image) && |image.data| >= PAGE
  {
    var d := image.data;
    [Le32(d, 8), Le32(d, 12), Le32(d, 16), Le32(d, 20), Le32(d, 40)] + if image.version < 4 then [] else [Le32(d, 1580)]
  }

  function CommandLine(image: Image): seq<byte> {
    Slice(image.data, 44, 1580)
  }

  /** Behind the gate the size fields are the block lengths. */
  lemma GateSizes(image: Image)
    requires WellFormed(image) && Gate(image)
    ensures |image.data| >= PAGE && |image.ramdisk| < U32
    ensures image.data[..PAGE] == FirstPage(image, image.ramdisk)
  {
    hide WellFormed, AlignPage, Parse, Rebuild, FirstPage, ReadAvb, AvbBack;
    Reparse(image, image.ramdisk, image.data);
  }

  /** A rewritten image differs from the gated stock image in no header field but the
      ramdisk size, and keeps its length, kernel, signature and command line. */
  lemma OnlyRamdiskSizeChanges(image: Image, ramdisk: seq<byte>, out: seq<byte>, again: Image)
    requires WellFormed(image) && Gate(image) && Rebuild(image, ramdisk) == Ok(out) && Parse(out) == Ok(again)
    ensures WellFormed(again) && |image.data| >= PAGE && |out| == |image.data| && again.data == out
    ensures again.ramdisk == ramdisk && again.kernel == image.kernel && again.signature == image.signature
    ensures again.version == image.version && CommandLine(again) == CommandLine(image)
    ensures HeaderFields(again) == HeaderFields(image)[1 := |ramdisk|]
  {
    hide WellFormed, AlignPage, Parse, Rebuild, FirstPage, ReadAvb, AvbBack, HeaderFields, CommandLine, LooksLikeFooter;
    GateSizes(image);
    Reparse(image, ramdisk, out);
    ParsedIsFormed(out);
    PutGet(image, ramdisk, out);
    PagesCompared(image, ramdisk, again);
  }

  lemma PagesCompared(image: Image, ramdisk: seq<byte>, again: Image)
    requires WellFormed(image) && WellFormed(again) && |image.data| >= PAGE && |again.data| >= PAGE
    requires |ramdisk| < U32 && |image.ramdisk| < U32 && again.version == image.version
    requires image.data[..PAGE] == FirstPage(image, image.ramdisk) && again.data[..PAGE] == FirstPage(image, ramdisk)
    ensures HeaderFields(again) == HeaderFields(image)[1 := |ramdisk|] && CommandLine(again) == CommandLine(image)
  {
    hide Sized, StartsWith, FooterFormed, Le32;
    var page, was := again.data[..PAGE], image.data[..PAGE];
    SizedFields(was, image.version, |image.kernel|, |ramdisk|, |image.signature|);
    SizedFields(was, image.version, |image.kernel|, |image.ramdisk|, |image.signature|);
    PageField(image.data, was);
    PageField(again.data, page);
    KeptField(page, was, 16);
    KeptField(page, was, 20);
    KeptField(page, was, 40);
    assert CommandLine(again) == page[44..1580] && CommandLine(image) == was[44..1580];
    assert forall i :: 44 <= i < 1580 ==> page[i] == was[i];
  }

  lemma PageField(data: seq<byte>, page: seq<byte>)
    requires |data| >= PAGE && page == data[..PAGE]
    ensures Le32(data, 8) == Le32(page, 8) && Le32(data, 12) == Le32(page, 12) && Le32(data, 16) == Le32(page, 16)
    ensures Le32(data, 20) == Le32(page, 20) && Le32(data, 40) == Le32(page, 40) && Le32(data, 1580) == Le32(page, 1580)
  {
  }

  lemma KeptField(page: seq<byte>, was: seq<byte>, at: nat)
    requires |page| == PAGE && |was| == PAGE && at + 4 <= PAGE
    requires forall i :: at <= i < at + 4 ==> page[i] == was[i]
    ensures Le32(page, at) == Le32(was, at)
  {
  }

  // ----- rebuild, as it runs

  lemma PadStep(start: seq<byte>, part: seq<byte>)
    requires |start| % PAGE == 0
    ensures PadPage(start + part) == start + PadPage(part) && |start + PadPage(part)| % PAGE == 0
  {
    hide AlignPage;
    AlignPageShift(|start|, |part|);
    AlignPageFacts(|part|);
    PadLength(part);
    PagesAdd(|start|, AlignPage(|part|));
  }

  lemma PagesAdd(a: nat, b: nat)
    requires a % PAGE == 0 && b % PAGE == 0
    ensures (a + b) % PAGE == 0
  {
  }

  /** Append one block and pad to the page boundary of the whole. */
  method Append(start: seq<byte>, part: seq<byte>) returns (out: seq<byte>)
    requires |start| % PAGE == 0
    ensures out == start + PadPage(part) && |out| % PAGE == 0
  {
    hide PadPage, AlignPage;
    out := start + part;
    PadStep(start, part);
    out := PadPage(out);
  }

  lemma PadAligned(s: seq<byte>)
    ensures |PadPage(s)| % PAGE == 0
  {
    AlignPageFacts(|s|);
  }

  /** `rebuild` on its growing buffer. */
  method RebuildBytes(image: Image, ramdisk: seq<byte>) returns (r: Result<seq<byte>>)
    requires WellFormed(image)
    ensures r == Rebuild(image, ramdisk)
  {
    hide PadPage, AlignPage, Relocated, StartsWith, Sized;
    var out := Slice(image.data, 0, PAGE);
    out := out + image.kernel;
    out := PadPage(out);
    PadAligned(Slice(image.data, 0, PAGE) + image.kernel);
    out := Append(out, ramdisk);
    out := Append(out, image.signature);
    assert out == Body(image, ramdisk);
    BodyLength(image, ramdisk);
    if |ramdisk| >= U32 {
      return Err("a size does not fit its field");
    }
    out := Sized(out, image.version, |image.kernel|, |ramdisk|, |image.signature|);
    if image.avb == None {
      if |out| > |image.data| {
        return Err("the patched image is larger than the stock image");
      }
      return Ok(out + Zeros(|image.data| - |out|));
    }
    var avb := image.avb.value;
    out := Append(out, avb.tail);
    var size := |out|;
    out := out + avb.header;
    if |out| + FOOTER_SIZE > |image.data| {
      return Err("no room left for the AVB structures");
    }
    if size >= U64 {
      return Err("a size does not fit its field");
    }
    out := out + Zeros(|image.data| - FOOTER_SIZE - |out|);
    out := out + Relocated(avb.footer, size);
    r := Ok(out);
  }

  // ----- an image the law does not hold for

  function PlainPage(): (page: seq<byte>)
    ensures |page| == PAGE
  {
    PutLe32(Splice(Zeros(PAGE), 0, BOOT_MAGIC), 40, 3)
  }

  lemma PlainStock() returns (stock: seq<byte>)
    ensures stock == Compose(PlainPage(), [], [], [], Zeros(PAGE)) && |stock| == 2 * PAGE && stock[..PAGE] == PlainPage()
    ensures Parse(stock) == Ok(Image(stock, 3, [], [], [], PAGE, None))
  {
    hide Compose, PadPage, ReadAvb, At, PutLe32;
    PlainFields();
    var page := PlainPage();
    stock := Compose(page, [], [], [], Zeros(PAGE));
    ComposedAt(page, [], [], [], Zeros(PAGE));
    ParseComposed(page, 3, [], [], [], Zeros(PAGE));
    FirstBytes(stock, page);
    ZerosNoFooter(stock);
  }

  lemma PlainFields()
    ensures Describes(PlainPage(), 3, [], [], [])
    ensures Sized(PlainPage(), 3, 0, 0, 0) == PlainPage()
  {
    var page := PlainPage();
    assert page[..8] == BOOT_MAGIC;
    assert Le32(page, 8) == 0 && Le32(page, 12) == 0;
    PutSame(page, 8, 0);
    PutSame(page, 12, 0);
  }

  lemma PutSame(page: seq<byte>, at: nat, v: u32)
    requires at + 4 <= |page| && Le32(page, at) == v
    ensures PutLe32(page, at, v) == page
  {
    Le32Determines(PutLe32(page, at, v), page, at);
  }

  lemma ZerosNoFooter(data: seq<byte>)
    requires |data| == 2 * PAGE && At(data, PAGE, Zeros(PAGE))
    ensures ReadAvb(data, PAGE) == Ok(None)
  {
    assert data[|data| - FOOTER_SIZE] == data[PAGE..2 * PAGE][PAGE - FOOTER_SIZE] == 0;
  }

  lemma ForgedFooter(data: seq<byte>, end: nat)
    requires |data| >= FOOTER_SIZE && data[|data| - FOOTER_SIZE..] == AVB_FOOTER_MAGIC + Zeros(60)
    ensures ReadAvb(data, end).Err?
  {
    var footer := data[|data| - FOOTER_SIZE..];
    assert forall i :: 4 <= i < 64 ==> footer[i] == 0;
    assert VbmetaSize(footer) == 0;
  }

  /** A stock image without AVB structures and a ramdisk whose last bytes spell a
      footer: the image that is written cannot be parsed. */
  lemma FooterlessCanFail() returns (stock: seq<byte>, image: Image, ramdisk: seq<byte>, out: seq<byte>)
    ensures Parse(stock) == Ok(image) && WellFormed(image) && Gate(image)
    ensures Rebuild(image, ramdisk) == Ok(out) && Parse(out).Err?
  {
    hide Parse, ReadAvb, LooksLikeFooter, StartsWith, Sized, PlainPage, Compose;
    stock := PlainStock();
    PlainFields();
    image := Image(stock, 3, [], [], [], PAGE, None);
    ParsedIsFormed(stock);
    RebuildShape(image, []);
    ramdisk := Zeros(PAGE - FOOTER_SIZE) + (AVB_FOOTER_MAGIC + Zeros(60));
    RebuildShape(image, ramdisk);
    out := Rebuild(image, ramdisk).value;
    Reparse(image, ramdisk, out);
    EndsForged(FirstPage(image, ramdisk), ramdisk);
    ForgedFooter(out, 2 * PAGE);
  }

  lemma EndsForged(page: seq<byte>, ramdisk: seq<byte>)
    requires |page| == PAGE && ramdisk == Zeros(PAGE - FOOTER_SIZE) + (AVB_FOOTER_MAGIC + Zeros(60))
    ensures var out := Compose(page, [], ramdisk, [], Zeros(0));
            |out| == 2 * PAGE && out[2 * PAGE - FOOTER_SIZE..] == AVB_FOOTER_MAGIC + Zeros(60)
  {
    hide PadPage, AlignPage;
    PadWhole([]);
    PadWhole(ramdisk);
    assert Compose(page, [], ramdisk, [], Zeros(0)) == page + ramdisk;
  }

  lemma PadWhole(s: seq<byte>)
    requires |s| % PAGE == 0
    ensures PadPage(s) == s
  {
    hide AlignPage;
    AlignPageFacts(|s|);
  }

  // ----- images with a footer made to measure

  function FooterOf(original: u64, offset: u64, size: u64): (footer: seq<byte>)
    ensures |footer| == FOOTER_SIZE
  {
    PutBe64(PutBe64(PutBe64(AVB_FOOTER_MAGIC + Zeros(60), 28, size), 20, offset), 12, original)
  }

  lemma FooterOfFields(original: u64, offset: u64, size: u64)
    ensures var f := FooterOf(original, offset, size);
            && OriginalSize(f) == original && VbmetaOffset(f) == offset && VbmetaSize(f) == size
            && StartsWith(f, AVB_FOOTER_MAGIC) && f[0] == 0x41
  {
    hide PutBe64;
    var f0 := AVB_FOOTER_MAGIC + Zeros(60);
    var f1 := PutBe64(f0, 28, size);
    var f2 := PutBe64(f1, 20, offset);
    var f3 := PutBe64(f2, 12, original);
    Be64Same(f1, f2, 28);
    Be64Same(f2, f3, 28);
    Be64Same(f2, f3, 20);
    assert f3[..4] == AVB_FOOTER_MAGIC;
  }

  lemma Be64Same(s: seq<byte>, t: seq<byte>, at: nat)
    requires |s| == |t| && at + 8 <= |s| && forall i :: at <= i < at + 8 ==> s[i] == t[i]
    ensures Be64(s, at) == Be64(t, at)
  {
  }

  lemma ReadMade(data: seq<byte>, end: nat, footer: seq<byte>, header: seq<byte>)
    requires |data| >= FOOTER_SIZE && |footer| == FOOTER_SIZE && data[|data| - FOOTER_SIZE..] == footer && StartsWith(footer, AVB_FOOTER_MAGIC)
    requires header == Slice(data, VbmetaOffset(footer), VbmetaOffset(footer) + VbmetaSize(footer)) && StartsWith(header, AVB_MAGIC)
    requires OriginalSize(footer) == end
    ensures ReadAvb(data, end) == Ok(Some(Avb(footer, header, [])))
  {
    hide VbmetaOffset, VbmetaSize, OriginalSize, StartsWith;
    assert Slice(data, end, end) == [];
  }

  /** A page whose end is cut off: its vbmeta block claims two pages and has one. */
  function ClippedBlock(): seq<byte> {
    AVB_MAGIC + Zeros(PAGE - 68) + FooterOf(PAGE, 2 * PAGE, 2 * PAGE)
  }

  lemma ClippedStock() returns (stock: seq<byte>)
    ensures Parse(stock) == Ok(Image(stock, 3, [], [], [], PAGE, Some(Avb(FooterOf(PAGE, 2 * PAGE, 2 * PAGE), ClippedBlock(), []))))
    ensures |stock| == 3 * PAGE
  {
    hide Compose, PadPage, ReadAvb, At, PutLe32, PlainPage, FooterOf, StartsWith, Parse;
    PlainFields();
    var footer, block := FooterOf(PAGE, 2 * PAGE, 2 * PAGE), ClippedBlock();
    var rest := Zeros(PAGE) + block;
    stock := Compose(PlainPage(), [], [], [], rest);
    ComposedAt(PlainPage(), [], [], [], rest);
    ParseComposed(PlainPage(), 3, [], [], [], rest);
    AtSplit(stock, PAGE, Zeros(PAGE), block);
    FooterOfFields(PAGE, 2 * PAGE, 2 * PAGE);
    BlockAtEnd(stock, block, footer);
    ReadMade(stock, PAGE, footer, block);
  }

  lemma BlockAtEnd(stock: seq<byte>, block: seq<byte>, footer: seq<byte>)
    requires |stock| == 3 * PAGE && |footer| == FOOTER_SIZE && block == AVB_MAGIC + Zeros(PAGE - 68) + footer && At(stock, 2 * PAGE, block)
    ensures stock[|stock| - FOOTER_SIZE..] == footer
    ensures Slice(stock, 2 * PAGE, 2 * PAGE + 2 * PAGE) == block && StartsWith(block, AVB_MAGIC)
  {
    assert stock[2 * PAGE..] == block;
    assert block[PAGE - FOOTER_SIZE..] == footer;
    assert stock[|stock| - FOOTER_SIZE..] == block[PAGE - FOOTER_SIZE..];
    assert block[..4] == AVB_MAGIC;
  }

  /** An image with a cut-off vbmeta block whose rewritten form parses, but is not
      reproduced by writing the same ramdisk once more. */
  lemma ClippedCanFail() returns (stock: seq<byte>, image: Image, out: seq<byte>)
    ensures Parse(stock) == Ok(image) && WellFormed(image)
    ensures Rebuild(image, image.ramdisk) == Ok(out) && Parse(out).Ok? && Rewrite(out, image.ramdisk) != Ok(out)
  {
    hide Parse, ReadAvb, LooksLikeFooter, StartsWith, Rewrite, FooterOf, Rebuild, FirstPage, Compose, WellFormed, VbmetaSize;
    stock := ClippedStock();
    FooterOfFields(PAGE, 2 * PAGE, 2 * PAGE);
    image := Parse(stock).value;
    ParsedIsFormed(stock);
    RebuildShape(image, []);
    out := Rebuild(image, []).value;
    PutGet(image, [], out);
    RebuildIdempotent(image, [], out);
  }

  /** A ramdisk that ends in a footer pointing back at its own first bytes. */
  function ForgedRamdisk(): seq<byte> {
    AVB_MAGIC + Zeros(PAGE - 68) + FooterOf(2 * PAGE, PAGE, 4)
  }

  /** A gated footerless image that comes back with a footer: it parses and gives its
      ramdisk back, but a second write goes elsewhere. */
  lemma FooterCanBeForged() returns (stock: seq<byte>, image: Image, ramdisk: seq<byte>, out: seq<byte>)
    ensures Parse(stock) == Ok(image) && WellFormed(image) && Gate(image) && image.avb.None?
    ensures Rebuild(image, ramdisk) == Ok(out) && Parse(out).Ok? && Parse(out).value.avb.Some? && Parse(out).value.ramdisk == ramdisk
    ensures Rewrite(out, ramdisk) != Ok(out)
  {
    hide Parse, ReadAvb, LooksLikeFooter, StartsWith, Sized, PlainPage, Compose, Rewrite, FooterOf;
    stock := PlainStock();
    PlainFields();
    image := Image(stock, 3, [], [], [], PAGE, None);
    ParsedIsFormed(stock);
    RebuildShape(image, []);
    ramdisk := ForgedRamdisk();
    RebuildShape(image, ramdisk);
    out := Rebuild(image, ramdisk).value;
    FooterOfFields(2 * PAGE, PAGE, 4);
    ForgedHolds(FirstPage(image, ramdisk), ramdisk, FooterOf(2 * PAGE, PAGE, 4));
    PutGet(image, ramdisk, out);
    RebuildIdempotent(image, ramdisk, out);
  }

  lemma ForgedHolds(page: seq<byte>, ramdisk: seq<byte>, footer: seq<byte>)
    requires |page| == PAGE && |footer| == FOOTER_SIZE && ramdisk == AVB_MAGIC + Zeros(PAGE - 68) + footer
    requires OriginalSize(footer) == 2 * PAGE && VbmetaOffset(footer) == PAGE && VbmetaSize(footer) == 4 && StartsWith(footer, AVB_FOOTER_MAGIC)
    ensures var out := Compose(page, [], ramdisk, [], Zeros(0));
            LooksLikeFooter(out) && |out| == 2 * PAGE && FooterHolds(out, 2 * PAGE)
  {
    hide PadPage, AlignPage, OriginalSize, VbmetaOffset, VbmetaSize;
    PadWhole([]);
    PadWhole(ramdisk);
    var out := Compose(page, [], ramdisk, [], Zeros(0));
    assert out == page + ramdisk;
    assert out[|out| - FOOTER_SIZE..] == footer;
    assert Slice(out, PAGE, PAGE + 4) == AVB_MAGIC;
  }

  // ----- footerless images with room to spare

  function PlainImage(ramdisk: seq<byte>, room: nat): (image: Image)
    requires |ramdisk| < U32
  {
    Image(Compose(Sized(PlainPage(), 3, 0, |ramdisk|, 0), [], ramdisk, [], Zeros(room)), 3, [], ramdisk, [],
          EndOf([], ramdisk, []), None)
  }

  lemma PlainSized(ramdisk: nat)
    requires ramdisk < U32
    ensures var page := Sized(PlainPage(), 3, 0, ramdisk, 0);
            |page| == PAGE && Sized(page, 3, 0, ramdisk, 0) == page
            && StartsWith(page, BOOT_MAGIC) && Le32(page, 40) == 3 && Le32(page, 8) == 0 && Le32(page, 12) == ramdisk
  {
    hide StartsWith;
    var page := Sized(PlainPage(), 3, 0, ramdisk, 0);
    SizedFields(PlainPage(), 3, 0, ramdisk, 0);
    PutSame(page, 8, 0);
    PutSame(page, 12, ramdisk);
    PlainFields();
    PlainStarts(page);
  }

  lemma PlainStarts(page: seq<byte>)
    requires |page| == PAGE && forall i :: 0 <= i < PAGE && !(8 <= i < 16) ==> page[i] == PlainPage()[i]
    ensures StartsWith(page, BOOT_MAGIC) && Le32(page, 40) == 3
  {
    assert page[..8] == BOOT_MAGIC;
    assert Le32(page, 40) == Le32(PlainPage(), 40);
  }

  /** Such an image parses, passes the gate, takes any ramdisk that leaves it 64 bytes,
      and can then be parsed again. */
  lemma PlainImageWorks(ramdisk: seq<byte>, room: nat, other: seq<byte>)
    requires |ramdisk| < U32 && |other| < U32 && room >= PAGE && AlignPage(|other|) + FOOTER_SIZE <= AlignPage(|ramdisk|) + room
    ensures var image := PlainImage(ramdisk, room);
            && Parse(image.data) == Ok(image) && WellFormed(image) && Rebuild(image, ramdisk) == Ok(image.data)
            && Fits(image, other) && Rebuild(image, other).Ok? && Readable(image, other, Rebuild(image, other).value)
  {
    hide Compose, PadPage, AlignPage, ReadAvb, Parse, Rebuild, PlainPage, Sized, StartsWith, WellFormed, LooksLikeFooter, Zeros, Fits, FirstPage;
    var image := PlainImage(ramdisk, room);
    PlainParses(ramdisk, room);
    ParsedIsFormed(image.data);
    PlainGate(ramdisk, room);
    PlainTakes(ramdisk, room, other);
  }

  lemma PlainParses(ramdisk: seq<byte>, room: nat)
    requires |ramdisk| < U32 && room >= FOOTER_SIZE
    ensures Parse(PlainImage(ramdisk, room).data) == Ok(PlainImage(ramdisk, room))
  {
    hide Compose, PadPage, AlignPage, ReadAvb, Parse, PlainPage, Sized, StartsWith, EndOf;
    var page := Sized(PlainPage(), 3, 0, |ramdisk|, 0);
    PlainSized(|ramdisk|);
    ComposedAt(page, [], ramdisk, [], Zeros(room));
    ParseComposed(page, 3, [], ramdisk, [], Zeros(room));
    ZerosAtEnd(PlainImage(ramdisk, room).data, EndOf([], ramdisk, []), room);
    NotAFooter(PlainImage(ramdisk, room).data, EndOf([], ramdisk, []));
  }

  lemma ZerosAtEnd(data: seq<byte>, end: nat, room: nat)
    requires |data| == end + room && room >= FOOTER_SIZE && At(data, end, Zeros(room))
    ensures !LooksLikeFooter(data)
  {
    var zeros := data[end..end + |Zeros(room)|];
    assert zeros == Zeros(room) && zeros[room - FOOTER_SIZE] == 0;
    assert data[|data| - FOOTER_SIZE] == zeros[room - FOOTER_SIZE];
    FirstOfFooter(data);
  }

  lemma FirstOfFooter(data: seq<byte>)
    requires |data| >= FOOTER_SIZE && data[|data| - FOOTER_SIZE] != 0x41
    ensures !LooksLikeFooter(data)
  {
    var footer := data[|data| - FOOTER_SIZE..];
    assert footer[..4][0] == footer[0] == data[|data| - FOOTER_SIZE];
    assert AVB_FOOTER_MAGIC[0] == 0x41;
  }

  lemma NotAFooter(data: seq<byte>, end: nat)
    requires !LooksLikeFooter(data)
    ensures ReadAvb(data, end) == Ok(None)
  {
  }

  lemma PlainGate(ramdisk: seq<byte>, room: nat)
    requires |ramdisk| < U32 && WellFormed(PlainImage(ramdisk, room))
    ensures Rebuild(PlainImage(ramdisk, room), ramdisk) == Ok(PlainImage(ramdisk, room).data)
  {
    hide Compose, PadPage, AlignPage, Rebuild, PlainPage, Sized, WellFormed, At;
    var image, page := PlainImage(ramdisk, room), Sized(PlainPage(), 3, 0, |ramdisk|, 0);
    PlainSized(|ramdisk|);
    ComposedAt(page, [], ramdisk, [], Zeros(room));
    FirstBytes(image.data, page);
    RebuildShape(image, ramdisk);
  }

  lemma PlainTakes(ramdisk: seq<byte>, room: nat, other: seq<byte>)
    requires |ramdisk| < U32 && |other| < U32 && WellFormed(PlainImage(ramdisk, room))
    requires AlignPage(|other|) + FOOTER_SIZE <= AlignPage(|ramdisk|) + room
    ensures var image := PlainImage(ramdisk, room);
            Fits(image, other) && Rebuild(image, other).Ok? && Readable(image, other, Rebuild(image, other).value)
  {
    hide Compose, PadPage, AlignPage, Rebuild, PlainPage, Sized, WellFormed, At, FirstPage, LooksLikeFooter;
    var image, page := PlainImage(ramdisk, room), Sized(PlainPage(), 3, 0, |ramdisk|, 0);
    PlainSized(|ramdisk|);
    NoPages();
    ComposedAt(page, [], ramdisk, [], Zeros(room));
    RebuildShape(image, other);
    var end := EndOf([], other, []);
    ComposedAt(FirstPage(image, other), [], other, [], Rest(image, end));
    ZerosAtEnd(Rebuild(image, other).value, end, |image.data| - end);
  }

  lemma NoPages()
    ensures AlignPage(0) == 0
  {
  }
}

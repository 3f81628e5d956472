/** `patch` of tools/patch-android-boot-ksu.py: from the stock image to the image
    with the KernelSU loader in its ramdisk. */
module Patch {
  import opened Bytes
  import Cpio
  import opened CpioArchive
  import Ramdisk
  import Boot = BootImage

  const INIT: Cpio.Name := [0x69, 0x6e, 0x69, 0x74]
  const INIT_REAL: Cpio.Name := INIT + [0x2e, 0x72, 0x65, 0x61, 0x6c]
  const KERNELSU: Cpio.Name := [0x6b, 0x65, 0x72, 0x6e, 0x65, 0x6c, 0x73, 0x75, 0x2e, 0x6b, 0x6f]
  /** `0o755 | TYPE_REGULAR` */
  const EXECUTABLE: u32 := 0x81ed

  function Executable(data: seq<byte>): Cpio.Entry {
    Cpio.Entry(EXECUTABLE, 0, 0, 0, 0, data)
  }

  /** The three changes to the ramdisk. */
  function Changed(entries: Cpio.Entries, ksuinit: seq<byte>, lkm: seq<byte>): Cpio.Entries {
    var moved := if INIT in entries then (entries - {INIT})[INIT_REAL := entries[INIT]] else entries;
    moved[INIT := Executable(ksuinit)][KERNELSU := Executable(lkm)]
  }

  /** What the tool has established about the stock image when it starts to change it. */
  datatype Unpacked = Unpacked(image: Boot.Image, format: Ramdisk.Format, entries: Cpio.Entries)

  /** Everything up to the first change: parse, gate, decompress, load. */
  function Unpack(codec: Ramdisk.Codec, stock: seq<byte>): (r: Result<Unpacked>)
    ensures r.Ok? ==> Boot.WellFormed(r.value.image) && Boot.Parse(stock) == Ok(r.value.image)
  {
    match Boot.Parse(stock)
    case Err(reason) => Err(reason)
    case Ok(image) =>
      Boot.ParsedIsFormed(stock);
      if Boot.Rebuild(image, image.ramdisk) != Ok(stock) then
        Err("the unpatched round trip is not byte-identical to the stock image")
      else
        match Ramdisk.DetectFormat(image.ramdisk)
        case Err(reason) => Err(reason)
        case Ok(format) =>
          match Ramdisk.Decompress(codec, image.ramdisk, format)
          case Err(reason) => Err(reason)
          case Ok(plain) =>
            match Cpio.Load(plain)
            case Err(reason) => Err(reason)
            case Ok(entries) =>
              if KERNELSU in entries then Err("this boot image already carries kernelsu.ko")
              else Ok(Unpacked(image, format, entries))
  }

  /** Only the ramdisk size may differ. */
  predicate SameFields(before: seq<u32>, after: seq<u32>) {
    |before| == |after| && forall i :: 0 <= i < |before| && i != 1 ==> before[i] == after[i]
  }

  /** The tool's verification of the image it is about to return. */
  function Verify(codec: Ramdisk.Codec, image: Boot.Image, changed: Cpio.Entries, ksuinit: seq<byte>, lkm: seq<byte>,
                  out: seq<byte>): Result<seq<byte>>
    requires Boot.WellFormed(image) && |image.data| >= Boot.PAGE && |out| >= Boot.PAGE
  {
    match Boot.Parse(out)
    case Err(reason) => Err(reason)
    case Ok(result) =>
      Boot.ParsedIsFormed(out);
      match Ramdisk.DetectFormat(result.ramdisk)
      case Err(reason) => Err(reason)
      case Ok(format) =>
        match Ramdisk.Decompress(codec, result.ramdisk, format)
        case Err(reason) => Err(reason)
        case Ok(plain) =>
          match Cpio.Load(plain)
          case Err(reason) => Err(reason)
          case Ok(entries) =>
            if INIT !in entries || INIT_REAL !in entries || INIT_REAL !in changed || KERNELSU !in entries then Err("KeyError")
            else if !SameFields(Boot.HeaderFields(image), Boot.HeaderFields(result)) || result.kernel != image.kernel
                 || Boot.CommandLine(result) != Boot.CommandLine(image) || |out| != |image.data|
                 || entries[INIT].data != ksuinit || entries[KERNELSU].data != lkm
            then Err("the patched image failed its own verification")
            else Ok(out)
  }

  ghost function Packed(codec: Ramdisk.Codec, u: Unpacked, ksuinit: seq<byte>, lkm: seq<byte>): seq<byte>
    requires Ramdisk.Lossless(codec)
  {
    Ramdisk.Compress(codec, Cpio.Dump(Changed(u.entries, ksuinit, lkm)), u.format)
  }

  /** `patch` */
  ghost function Patch(codec: Ramdisk.Codec, stock: seq<byte>, ksuinit: seq<byte>, lkm: seq<byte>): Result<seq<byte>>
    requires Ramdisk.Lossless(codec)
  {
    match Unpack(codec, stock)
    case Err(reason) => Err(reason)
    case Ok(u) =>
      match Boot.Rebuild(u.image, Packed(codec, u, ksuinit, lkm))
      case Err(reason) => Err(reason)
      case Ok(out) =>
        Boot.RebuildShape(u.image, Packed(codec, u, ksuinit, lkm));
        Verify(codec, u.image, Changed(u.entries, ksuinit, lkm), ksuinit, lkm, out)
  }

  // ----- what is assumed of the inputs

  /** Asset sizes and entry counts that newc's eight-digit fields can hold, and names
      without NUL bytes. */
  predicate Reasonable(entries: Cpio.Entries, ksuinit: seq<byte>, lkm: seq<byte>) {
    && |ksuinit| < Cpio.U32 && |lkm| < Cpio.U32
    && Cpio.FIRST_INODE + |entries| + 2 < Cpio.U32
    && forall n :: n in entries ==> Cpio.NulFree(n)
  }

  predicate AllAscii(entries: Cpio.Entries) {
    forall n :: n in entries ==> Cpio.Ascii(n)
  }

  predicate Plain(name: Cpio.Name) {
    Cpio.Ascii(name) && Cpio.Regular(name) && Cpio.NulFree(name) && Cpio.ValidUtf8(name)
  }

  lemma PlainName(name: Cpio.Name)
    requires |name| > 2 && name[0] != 0x54 && forall i :: 0 <= i < |name| ==> 0 < name[i] < 0x80
    ensures Plain(name)
  {
    assert Cpio.TRAILER[0] == 0x54;
    Cpio.AsciiIsValid(name);
  }

  lemma NamesDiffer()
    ensures INIT != INIT_REAL && INIT != KERNELSU && INIT_REAL != KERNELSU
  {
    assert INIT[0] != KERNELSU[0] && INIT_REAL[0] != KERNELSU[0] && |INIT| != |INIT_REAL|;
  }

  lemma ConstantNames()
    ensures Plain(INIT) && Plain(INIT_REAL) && Plain(KERNELSU)
  {
    hide Plain;
    PlainName(INIT);
    PlainName(INIT_REAL);
    PlainName(KERNELSU);
  }

  predicate AllKept(entries: Cpio.Entries) {
    forall n :: n in entries ==> Cpio.Kept(n, entries[n])
  }

  lemma UnpackedKept(codec: Ramdisk.Codec, stock: seq<byte>)
    requires Unpack(codec, stock).Ok?
    ensures var u := Unpack(codec, stock).value;
            AllKept(u.entries) && u.image.data == stock && Boot.Gate(u.image) && KERNELSU !in u.entries
  {
    hide Boot.WellFormed, Boot.Parse, Boot.Rebuild, Cpio.LoadFrom, Ramdisk.Decompress, Ramdisk.DetectFormat, Cpio.Kept;
    Boot.ParsedIsFormed(stock);
    var u := Unpack(codec, stock).value;
    Cpio.LoadedKept(Ramdisk.Decompress(codec, u.image.ramdisk, u.format).value, 0, map[]);
  }

  lemma SmallerMap(entries: Cpio.Entries, n: Cpio.Name)
    requires n in entries
    ensures |entries - {n}| == |entries| - 1
  {
    assert (entries - {n}).Keys == entries.Keys - {n};
  }

  lemma GrownMap(entries: Cpio.Entries, n: Cpio.Name, e: Cpio.Entry)
    ensures |entries[n := e]| <= |entries| + 1
  {
    assert entries[n := e].Keys == entries.Keys + {n};
  }

  /** The changed entries can be dumped, and are readable exactly if all names are ASCII. */
  lemma ChangedRoundTrips(entries: Cpio.Entries, ksuinit: seq<byte>, lkm: seq<byte>)
    requires AllKept(entries) && Reasonable(entries, ksuinit, lkm)
    ensures AllAscii(entries) ==> Cpio.Load(Cpio.Dump(Changed(entries, ksuinit, lkm))) == Ok(Changed(entries, ksuinit, lkm))
    ensures Cpio.Load(Cpio.Dump(Changed(entries, ksuinit, lkm))).Ok? ==> AllAscii(entries)
  {
    hide Cpio.LoadFrom, Cpio.Dump, Cpio.ValidUtf8, Cpio.Ascii, Cpio.NulFree, Cpio.Regular;
    ConstantNames();
    var changed := Changed(entries, ksuinit, lkm);
    if INIT in entries {
      SmallerMap(entries, INIT);
      GrownMap(entries - {INIT}, INIT_REAL, entries[INIT]);
    }
    var moved := if INIT in entries then (entries - {INIT})[INIT_REAL := entries[INIT]] else entries;
    GrownMap(moved, INIT, Executable(ksuinit));
    GrownMap(moved[INIT := Executable(ksuinit)], KERNELSU, Executable(lkm));
    assert forall n :: n in changed ==> n == INIT || n == INIT_REAL || n == KERNELSU || n in entries;
    assert forall n :: n in entries ==> n in changed;
    Cpio.RoundTripIff(changed);
  }

  // ----- the theorem

  /** The image `patch` computes before it verifies it. */
  ghost function Written(codec: Ramdisk.Codec, u: Unpacked, ksuinit: seq<byte>, lkm: seq<byte>): Result<seq<byte>>
    requires Ramdisk.Lossless(codec) && Boot.WellFormed(u.image)
  {
    Boot.Rebuild(u.image, Packed(codec, u, ksuinit, lkm))
  }

  /** Everything a later boot, or the tool itself, reads from the written image. */
  predicate Delivers(codec: Ramdisk.Codec, u: Unpacked, changed: Cpio.Entries, packed: seq<byte>, out: seq<byte>)
    requires Boot.WellFormed(u.image) && |u.image.data| >= Boot.PAGE
  {
    match Boot.Parse(out)
    case Err(_) => false
    case Ok(again) =>
      && |out| == |u.image.data|
      && again.kernel == u.image.kernel && again.signature == u.image.signature
      && Boot.CommandLine(again) == Boot.CommandLine(u.image)
      && Boot.WellFormed(again) && |again.data| >= Boot.PAGE
      && Boot.HeaderFields(again) == Boot.HeaderFields(u.image)[1 := |again.ramdisk|]
      && again.ramdisk == packed
      && Ramdisk.DetectFormat(again.ramdisk) == Ok(u.format)
      && match Ramdisk.Decompress(codec, again.ramdisk, u.format) {
           case Err(_) => false
           case Ok(plain) => Cpio.Load(plain) == Ok(changed)
         }
  }

  lemma PackedReadsBack(codec: Ramdisk.Codec, u: Unpacked, ksuinit: seq<byte>, lkm: seq<byte>)
    requires Ramdisk.Lossless(codec)
    ensures var packed := Packed(codec, u, ksuinit, lkm);
            && Ramdisk.DetectFormat(packed) == Ok(u.format)
            && Ramdisk.Decompress(codec, packed, u.format) == Ok(Cpio.Dump(Changed(u.entries, ksuinit, lkm)))
  {
    hide Ramdisk.Lossless, Ramdisk.Compress, Ramdisk.Decompress, Ramdisk.DetectFormat, Changed, Cpio.Dump;
    var changed := Changed(u.entries, ksuinit, lkm);
    Cpio.DumpStarts(changed);
    Ramdisk.CompressionRoundTrip(codec, Cpio.Dump(changed), u.format);
  }

  lemma WrittenParses(u: Unpacked, packed: seq<byte>, out: seq<byte>)
    requires Boot.WellFormed(u.image) && Boot.Gate(u.image) && Boot.Rebuild(u.image, packed) == Ok(out)
    requires Boot.Readable(u.image, packed, out)
    ensures Boot.Parse(out).Ok? && |u.image.data| >= Boot.PAGE && |out| == |u.image.data|
    ensures var again := Boot.Parse(out).value;
            && Boot.WellFormed(again) && again.data == out && again.ramdisk == packed
            && again.kernel == u.image.kernel && again.signature == u.image.signature
            && Boot.CommandLine(again) == Boot.CommandLine(u.image)
            && Boot.HeaderFields(again) == Boot.HeaderFields(u.image)[1 := |packed|]
  {
    hide Boot.WellFormed, Boot.Parse, Boot.Rebuild, Boot.Gate, Boot.Readable, Boot.HeaderFields, Boot.CommandLine;
    Boot.PutGet(u.image, packed, out);
    Boot.OnlyRamdiskSizeChanges(u.image, packed, out, Boot.Parse(out).value);
  }

  lemma DeliveredIfAscii(codec: Ramdisk.Codec, u: Unpacked, ksuinit: seq<byte>, lkm: seq<byte>, out: seq<byte>)
    requires Ramdisk.Lossless(codec) && Boot.WellFormed(u.image) && Boot.Gate(u.image)
    requires AllKept(u.entries) && Reasonable(u.entries, ksuinit, lkm)
    requires Written(codec, u, ksuinit, lkm) == Ok(out) && Boot.Readable(u.image, Packed(codec, u, ksuinit, lkm), out) && AllAscii(u.entries)
    ensures |u.image.data| >= Boot.PAGE && |out| == |u.image.data|
    ensures Delivers(codec, u, Changed(u.entries, ksuinit, lkm), Packed(codec, u, ksuinit, lkm), out)
  {
    hide Boot.WellFormed, Boot.Parse, Boot.Rebuild, Boot.Gate, Boot.Readable, Boot.HeaderFields, Boot.CommandLine,
         Cpio.LoadFrom, Cpio.Dump, Ramdisk.Lossless, Ramdisk.Compress, Ramdisk.Decompress, Ramdisk.DetectFormat, AllAscii,
         Packed, Reasonable, AllKept, Changed;
    WrittenParses(u, Packed(codec, u, ksuinit, lkm), out);
    PackedReadsBack(codec, u, ksuinit, lkm);
    ChangedRoundTrips(u.entries, ksuinit, lkm);
  }

  lemma ChangedHolds(entries: Cpio.Entries, ksuinit: seq<byte>, lkm: seq<byte>)
    ensures var changed := Changed(entries, ksuinit, lkm);
            && INIT in changed && KERNELSU in changed
            && changed[INIT].data == ksuinit && changed[KERNELSU].data == lkm
            && (INIT_REAL in changed <==> INIT in entries || INIT_REAL in entries)
  {
    NamesDiffer();
  }

  /** On an image that delivers, every check the tool makes passes, except that it
      stops when there is no `init.real`. */
  lemma VerifyPasses(codec: Ramdisk.Codec, u: Unpacked, changed: Cpio.Entries, ksuinit: seq<byte>, lkm: seq<byte>,
                     packed: seq<byte>, out: seq<byte>)
    requires Boot.WellFormed(u.image) && |u.image.data| >= Boot.PAGE && |out| >= Boot.PAGE
    requires Delivers(codec, u, changed, packed, out)
    requires INIT in changed && KERNELSU in changed && changed[INIT].data == ksuinit && changed[KERNELSU].data == lkm
    ensures Verify(codec, u.image, changed, ksuinit, lkm, out).Ok? <==> INIT_REAL in changed
    ensures INIT_REAL in changed ==> Verify(codec, u.image, changed, ksuinit, lkm, out) == Ok(out)
  {
    hide Boot.WellFormed, Boot.Parse, Boot.CommandLine, Boot.HeaderFields, Cpio.LoadFrom, Ramdisk.Decompress, Ramdisk.DetectFormat;
    Boot.ParsedIsFormed(out);
    FieldsCounted(u.image);
  }

  lemma FieldsCounted(image: Boot.Image)
    requires Boot.WellFormed(image) && |image.data| >= Boot.PAGE
    ensures |Boot.HeaderFields(image)| >= 2
  {
  }

  lemma VerifyRefuses(codec: Ramdisk.Codec, u: Unpacked, ksuinit: seq<byte>, lkm: seq<byte>, out: seq<byte>)
    requires Ramdisk.Lossless(codec) && Boot.WellFormed(u.image) && Boot.Gate(u.image)
    requires AllKept(u.entries) && Reasonable(u.entries, ksuinit, lkm)
    requires Written(codec, u, ksuinit, lkm) == Ok(out) && Boot.Readable(u.image, Packed(codec, u, ksuinit, lkm), out) && !AllAscii(u.entries)
    ensures |u.image.data| >= Boot.PAGE && |out| >= Boot.PAGE
    ensures Verify(codec, u.image, Changed(u.entries, ksuinit, lkm), ksuinit, lkm, out).Err?
  {
    hide Boot.WellFormed, Boot.Parse, Boot.Rebuild, Boot.Gate, Boot.Readable, Boot.HeaderFields, Boot.CommandLine,
         Cpio.LoadFrom, Cpio.Dump, Ramdisk.Lossless, Ramdisk.Compress, Ramdisk.Decompress, Ramdisk.DetectFormat, AllAscii,
         Packed, Reasonable, AllKept, Changed;
    WrittenParses(u, Packed(codec, u, ksuinit, lkm), out);
    PackedReadsBack(codec, u, ksuinit, lkm);
    ChangedRoundTrips(u.entries, ksuinit, lkm);
  }

  /** The image is written and its end, if it looks like a footer, holds as one. */
  ghost predicate Settles(codec: Ramdisk.Codec, u: Unpacked, ksuinit: seq<byte>, lkm: seq<byte>)
    requires Ramdisk.Lossless(codec) && Boot.WellFormed(u.image)
  {
    && Written(codec, u, ksuinit, lkm).Ok?
    && Boot.Readable(u.image, Packed(codec, u, ksuinit, lkm), Written(codec, u, ksuinit, lkm).value)
  }

  /** End to end: once the stock image has passed the gate and been unpacked, `patch`
      succeeds exactly when the result can be written and its end read back, every name is
      ASCII and the ramdisk has an `init` or an `init.real`. The image it returns then
      is the stock image with exactly the three changes to its ramdisk. */
  lemma PatchExact(codec: Ramdisk.Codec, stock: seq<byte>, ksuinit: seq<byte>, lkm: seq<byte>, u: Unpacked)
    requires Ramdisk.Lossless(codec) && Unpack(codec, stock) == Ok(u) && Reasonable(u.entries, ksuinit, lkm)
    ensures Written(codec, u, ksuinit, lkm).Ok? <==> Boot.Fits(u.image, Packed(codec, u, ksuinit, lkm))
    ensures Patch(codec, stock, ksuinit, lkm).Ok?
            <==> Settles(codec, u, ksuinit, lkm) && AllAscii(u.entries) && (INIT in u.entries || INIT_REAL in u.entries)
    ensures Patch(codec, stock, ksuinit, lkm).Ok? ==>
              && u.image.data == stock && |stock| >= Boot.PAGE
              && Delivers(codec, u, Changed(u.entries, ksuinit, lkm), Packed(codec, u, ksuinit, lkm),
                          Patch(codec, stock, ksuinit, lkm).value)
  {
    hide Boot.WellFormed, Boot.Parse, Boot.Rebuild, Boot.Gate, Boot.Fits, Unpack, Verify, Delivers, Ramdisk.Lossless, Packed, AllAscii,
         Reasonable, AllKept, Boot.Readable;
    UnpackedKept(codec, stock);
    Boot.RebuildShape(u.image, Packed(codec, u, ksuinit, lkm));
    if Written(codec, u, ksuinit, lkm).Ok? {
      var out := Written(codec, u, ksuinit, lkm).value;
      if !Boot.Readable(u.image, Packed(codec, u, ksuinit, lkm), out) {
        UnreadableRefused(codec, u, ksuinit, lkm, out);
      } else if AllAscii(u.entries) {
        DeliveredIfAscii(codec, u, ksuinit, lkm, out);
        ChangedHolds(u.entries, ksuinit, lkm);
        VerifyPasses(codec, u, Changed(u.entries, ksuinit, lkm), ksuinit, lkm, Packed(codec, u, ksuinit, lkm), out);
      } else {
        VerifyRefuses(codec, u, ksuinit, lkm, out);
      }
    }
  }

  lemma UnreadableRefused(codec: Ramdisk.Codec, u: Unpacked, ksuinit: seq<byte>, lkm: seq<byte>, out: seq<byte>)
    requires Ramdisk.Lossless(codec) && Boot.WellFormed(u.image)
    requires Written(codec, u, ksuinit, lkm) == Ok(out) && !Boot.Readable(u.image, Packed(codec, u, ksuinit, lkm), out)
    ensures |u.image.data| >= Boot.PAGE && |out| >= Boot.PAGE
    ensures Verify(codec, u.image, Changed(u.entries, ksuinit, lkm), ksuinit, lkm, out).Err?
  {
    hide Boot.WellFormed, Boot.Parse, Boot.Rebuild, Boot.Readable, Ramdisk.Lossless, Packed, Changed, Boot.FirstPage;
    Boot.PutGet(u.image, Packed(codec, u, ksuinit, lkm), out);
    Boot.RebuildShape(u.image, Packed(codec, u, ksuinit, lkm));
  }

  // ----- a ramdisk without an init

  /** Codecs that store everything as it is. */
  function Storing(): (codec: Ramdisk.Codec)
    ensures Ramdisk.Lossless(codec)
  {
    Ramdisk.StoringIsLossless();
    Ramdisk.Codec(Ramdisk.Same, Ramdisk.Stored, Ramdisk.Member, Ramdisk.Unmember)
  }

  lemma NoNames()
    ensures Cpio.Dumpable(map[]) && Cpio.AllAsciiRegular(map[]) && |Cpio.Dump(map[])| <= 200
  {
    hide Cpio.DumpNames;
    Cpio.SortedEmpty();
    Cpio.ShortDump([], map[], Cpio.FIRST_INODE);
  }

  lemma TwoNames()
    ensures |Cpio.Dump(Changed(map[], [], []))| <= 600
  {
    hide Cpio.DumpNames, Cpio.Sorted, Cpio.ValidUtf8;
    var changed := Changed(map[], [], []);
    ConstantNames();
    GrownMap(map[], INIT, Executable([]));
    GrownMap(map[INIT := Executable([])], KERNELSU, Executable([]));
    Cpio.ShortDump(Cpio.Sorted(changed.Keys), changed, Cpio.FIRST_INODE);
  }

  /** A stock image that passes every test up to the first change, and whose patched
      form fits and could be parsed, but whose ramdisk has neither `init` nor
      `init.real`: the tool stops. */
  lemma NoInitRefused() returns (stock: seq<byte>, u: Unpacked)
    ensures Unpack(Storing(), stock) == Ok(u) && u.entries == map[] && Reasonable(u.entries, [], []) && Boot.WellFormed(u.image)
    ensures Settles(Storing(), u, [], []) && AllAscii(u.entries)
    ensures Patch(Storing(), stock, [], []).Err?
  {
    hide Ramdisk.Lossless, Boot.Parse, Boot.Rebuild, Boot.WellFormed, Boot.Fits, Boot.Readable, Boot.PlainImage, Cpio.Dump, Cpio.LoadFrom, Patch, Changed;
    var plain := Cpio.Dump(map[]);
    NoNames();
    TwoNames();
    Cpio.RoundTrip(map[]);
    var ramdisk := Ramdisk.Member(plain);
    var packed := Ramdisk.Member(Cpio.Dump(Changed(map[], [], [])));
    var image := Boot.PlainImage(ramdisk, 2 * Boot.PAGE);
    PlainFor(ramdisk, packed);
    stock := image.data;
    Ramdisk.MemberBack(plain);
    u := Unpacked(image, Ramdisk.Gzip, map[]);
    assert Unpack(Storing(), stock) == Ok(u) by {
      PlainUnpacks(stock, image, plain);
    }
    assert Packed(Storing(), u, [], []) == packed;
    PatchExact(Storing(), stock, [], [], u);
  }

  lemma PlainFor(ramdisk: seq<byte>, packed: seq<byte>)
    requires |ramdisk| <= 1000 && |packed| <= 1000
    ensures var image := Boot.PlainImage(ramdisk, 2 * Boot.PAGE);
            && image.ramdisk == ramdisk
            && Boot.Parse(image.data) == Ok(image) && Boot.WellFormed(image) && Boot.Rebuild(image, ramdisk) == Ok(image.data)
            && Boot.Fits(image, packed) && Boot.Rebuild(image, packed).Ok?
            && Boot.Readable(image, packed, Boot.Rebuild(image, packed).value)
  {
    hide Boot.Parse, Boot.Rebuild, Boot.WellFormed, Boot.Fits, Boot.Readable;
    Boot.PlainImageWorks(ramdisk, 2 * Boot.PAGE, packed);
  }

  lemma PlainUnpacks(stock: seq<byte>, image: Boot.Image, plain: seq<byte>)
    requires Boot.Parse(stock) == Ok(image) && Boot.WellFormed(image) && Boot.Rebuild(image, image.ramdisk) == Ok(stock)
    requires image.ramdisk == Ramdisk.Member(plain) && Cpio.Load(plain) == Ok(map[])
    ensures Unpack(Storing(), stock) == Ok(Unpacked(image, Ramdisk.Gzip, map[]))
  {
    hide Boot.Parse, Boot.Rebuild, Boot.WellFormed, Cpio.Load, Ramdisk.DetectFormat, Ramdisk.Decompress, Ramdisk.Member, Storing;
    MemberUnpacks(plain);
  }

  lemma MemberUnpacks(plain: seq<byte>)
    ensures Ramdisk.DetectFormat(Ramdisk.Member(plain)) == Ok(Ramdisk.Gzip)
    ensures Ramdisk.Decompress(Storing(), Ramdisk.Member(plain), Ramdisk.Gzip) == Ok(plain)
  {
    hide Ramdisk.Lossless;
    Ramdisk.MemberBack(plain);
  }

  /** What the changes amount to, file by file: `init` moves to `init.real`, two regular
      files of root's arrive that anyone may execute, nothing else moves. */
  lemma ChangedMeans(entries: Cpio.Entries, ksuinit: seq<byte>, lkm: seq<byte>)
    ensures var changed := Changed(entries, ksuinit, lkm);
            var init, moved, module_ := Text("init"), Text("init.real"), Text("kernelsu.ko");
            && init in changed && changed[init] == Cpio.Entry(mode := 0x81ed, uid := 0, gid := 0, rdevMajor := 0, rdevMinor := 0, data := ksuinit)
            && module_ in changed && changed[module_] == Cpio.Entry(mode := 0x81ed, uid := 0, gid := 0, rdevMajor := 0, rdevMinor := 0, data := lkm)
            && (moved in changed <==> init in entries || moved in entries)
            && (moved in changed ==> changed[moved] == entries[if init in entries then init else moved])
            && (forall n :: n != init && n != moved && n != module_ ==> (n in changed <==> n in entries) && (n in entries ==> changed[n] == entries[n]))
  {
    NamesDiffer();
    NamesAre();
  }

  lemma NamesAre()
    ensures INIT == Text("init") && INIT_REAL == Text("init.real") && KERNELSU == Text("kernelsu.ko")
  {
  }

  // ----- patch, as it runs on its archive object

  lemma NormalNames()
    ensures NormPath(INIT) == INIT && NormPath(INIT_REAL) == INIT_REAL && NormPath(KERNELSU) == KERNELSU
  {
    ComponentIsNormal(INIT);
    ComponentIsNormal(INIT_REAL);
    ComponentIsNormal(KERNELSU);
  }

  method DecompressRamdisk(codec: Ramdisk.Codec, data: seq<byte>, format: Ramdisk.Format) returns (r: Result<seq<byte>>)
    ensures r == Ramdisk.Decompress(codec, data, format)
  {
    if format == Ramdisk.Gzip {
      r := Ramdisk.Decompress(codec, data, format);
    } else {
      r := Ramdisk.DecompressLz4(codec, data);
    }
  }

  method CompressRamdisk(codec: Ramdisk.Codec, data: seq<byte>, format: Ramdisk.Format) returns (out: seq<byte>)
    requires Ramdisk.Lossless(codec)
    ensures out == Ramdisk.Compress(codec, data, format)
  {
    if format == Ramdisk.Gzip {
      out := codec.gzip(data);
    } else {
      out := Ramdisk.CompressLz4(codec, data);
    }
  }

  /** The changes `patch` makes to the archive. */
  method ChangeArchive(cpio: Archive, ksuinit: seq<byte>, lkm: seq<byte>)
    requires KERNELSU !in cpio.entries
    modifies cpio
    ensures cpio.entries == Changed(old(cpio.entries), ksuinit, lkm)
  {
    NormalNames();
    hide NormPath;
    var present := cpio.Exists(INIT);
    if present {
      var moved := cpio.Move(INIT, INIT_REAL);
    }
    cpio.Add(INIT, Executable(ksuinit));
    cpio.Add(KERNELSU, Executable(lkm));
  }

  /** Parse, gate, decompress and load, with the entries left in `cpio`. */
  method UnpackInto(codec: Ramdisk.Codec, stock: seq<byte>, cpio: Archive) returns (r: Result<Unpacked>)
    requires cpio.entries == map[]
    modifies cpio
    ensures r.Ok? == Unpack(codec, stock).Ok?
    ensures r.Ok? ==> r == Unpack(codec, stock) && cpio.entries == r.value.entries
  {
    NormalNames();
    hide NormPath, Boot.WellFormed, Boot.Parse, Boot.Rebuild, Cpio.LoadFrom, Ramdisk.Decompress, Ramdisk.DetectFormat;
    var parsed := Boot.Parse(stock);
    if parsed.Err? {
      return Err(parsed.reason);
    }
    var image := parsed.value;
    Boot.ParsedIsFormed(stock);
    var untouched := Boot.RebuildBytes(image, image.ramdisk);
    if untouched != Ok(stock) {
      return Err("the unpatched round trip is not byte-identical to the stock image");
    }
    var format := Ramdisk.DetectFormat(image.ramdisk);
    if format.Err? {
      return Err(format.reason);
    }
    var plain := DecompressRamdisk(codec, image.ramdisk, format.value);
    if plain.Err? {
      return Err(plain.reason);
    }
    var error := cpio.LoadBytes(plain.value);
    if error.Some? {
      return Err(error.value);
    }
    var patched := cpio.Exists(KERNELSU);
    if patched {
      return Err("this boot image already carries kernelsu.ko");
    }
    r := Ok(Unpacked(image, format.value, cpio.entries));
  }

  method PatchImage(codec: Ramdisk.Codec, stock: seq<byte>, ksuinit: seq<byte>, lkm: seq<byte>) returns (r: Result<seq<byte>>)
    requires Ramdisk.Lossless(codec)
    ensures r.Ok? == Patch(codec, stock, ksuinit, lkm).Ok?
    ensures r.Ok? ==> r == Patch(codec, stock, ksuinit, lkm)
  {
    hide Boot.WellFormed, Boot.Parse, Boot.Rebuild, Boot.Fits, Unpack, Verify, Ramdisk.Lossless, Changed, Cpio.Dump, Ramdisk.Compress;
    var cpio := new Archive();
    var unpacked := UnpackInto(codec, stock, cpio);
    if unpacked.Err? {
      return Err(unpacked.reason);
    }
    var u := unpacked.value;
    UnpackedKept(codec, stock);
    ChangeArchive(cpio, ksuinit, lkm);
    var plain := cpio.DumpBytes();
    var packed := CompressRamdisk(codec, plain, u.format);
    var out := Boot.RebuildBytes(u.image, packed);
    if out.Err? {
      return Err(out.reason);
    }
    Boot.RebuildShape(u.image, packed);
    FitsPage(u.image, packed);
    r := Verify(codec, u.image, cpio.entries, ksuinit, lkm, out.value);
  }

  lemma FitsPage(image: Boot.Image, packed: seq<byte>)
    requires Boot.WellFormed(image) && Boot.Fits(image, packed)
    ensures |image.data| >= Boot.PAGE
  {
  }
}

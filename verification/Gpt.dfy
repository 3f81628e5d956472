/** The two GPT copies of the boot LUN as values: what `load_gpt_copy` accepts,
    which entry a slot is, and what marking it changes. */
module Gpt {
  import opened Bytes
  import opened Crc32

  const SECTOR: nat := 4096
  const DISK_BYTES: nat := 2923429888
  const DISK_SECTORS: nat := 713728
  const ENTRY_COUNT: nat := 96
  const ENTRY_SIZE: nat := 128
  const ARRAY_SIZE: nat := 12288
  const HEADER_SIZE: nat := 92
  const ENTRIES_SECTORS: nat := 3
  const FIRST_USABLE: nat := 6
  const BOOT_A_FIRST: nat := 75014
  const BOOT_A_LAST: nat := 124165
  const BOOT_B_FIRST: nat := 344107
  const BOOT_B_LAST: nat := 393258
  const SIGNATURE: seq<byte> := [0x45, 0x46, 0x49, 0x20, 0x50, 0x41, 0x52, 0x54]

  datatype Copy = Copy(header: seq<byte>, entries: seq<byte>, headerLba: nat, entriesLba: u64) {
    predicate Sized() {
      |header| == SECTOR && |entries| == ARRAY_SIZE
    }
  }

  // ----- accepting one copy

  function FirstUsable(header: seq<byte>): u64
    requires |header| == SECTOR
  {
    Le64(header, 40)
  }

  function LastUsable(header: seq<byte>): u64
    requires |header| == SECTOR
  {
    Le64(header, 48)
  }

  function EntriesLba(header: seq<byte>): u64
    requires |header| == SECTOR
  {
    Le64(header, 72)
  }

  /** The field tests, with the `uint64_t` sum that can wrap. */
  predicate FieldsOk(header: seq<byte>, diskLbas: nat, headerLba: nat)
    requires |header| == SECTOR
  {
    && header[..8] == SIGNATURE
    && Le32(header, 12) == HEADER_SIZE
    && Le64(header, 24) == headerLba
    && Le64(header, 32) == (if headerLba == 1 then diskLbas - 1 else 1)
    && FirstUsable(header) == FIRST_USABLE
    && LastUsable(header) >= BOOT_B_LAST
    && Add64(LastUsable(header), ENTRIES_SECTORS + 1) < diskLbas
    && Le32(header, 80) == ENTRY_COUNT
    && Le32(header, 84) == ENTRY_SIZE
  }

  predicate HeaderCrcOk(header: seq<byte>)
    requires |header| == SECTOR
  {
    Crc(PutLe32(header, 16, 0)[..HEADER_SIZE]) == Le32(header, 16)
  }

  predicate EntriesPlaced(header: seq<byte>, headerLba: nat)
    requires |header| == SECTOR
  {
    if headerLba == 1 then
      2 <= EntriesLba(header) <= FirstUsable(header) - ENTRIES_SECTORS
    else
      LastUsable(header) < EntriesLba(header) <= headerLba - ENTRIES_SECTORS
  }

  predicate HeaderOk(header: seq<byte>, diskLbas: nat, headerLba: nat)
    requires |header| == SECTOR
  {
    FieldsOk(header, diskLbas, headerLba) && HeaderCrcOk(header) && EntriesPlaced(header, headerLba)
  }

  predicate HeaderAt(diskLbas: nat, headerLba: nat) {
    diskLbas >= 2 * (1 + ENTRIES_SECTORS) + FIRST_USABLE && (headerLba == 1 || headerLba == diskLbas - 1)
  }

  function Sectors(disk: seq<byte>): nat {
    |disk| / SECTOR
  }

  /** The backup header's sector: the last one. */
  function BackupLba(disk: seq<byte>): nat {
    if Sectors(disk) == 0 then 0 else Sectors(disk) - 1
  }

  function HeaderOf(disk: seq<byte>, headerLba: nat): (h: seq<byte>)
    requires (headerLba + 1) * SECTOR <= |disk|
    ensures |h| == SECTOR
  {
    disk[headerLba * SECTOR..(headerLba + 1) * SECTOR]
  }

  function EntriesOf(disk: seq<byte>, entriesLba: nat): (e: seq<byte>)
    requires entriesLba * SECTOR + ARRAY_SIZE <= |disk|
    ensures |e| == ARRAY_SIZE
  {
    disk[entriesLba * SECTOR..entriesLba * SECTOR + ARRAY_SIZE]
  }

  /** `load_gpt_copy` on a disk whose reads succeed. */
  function Load(disk: seq<byte>, headerLba: nat, allowStale: bool): (g: Option<Copy>)
    ensures g.Some? ==> g.value.Sized()
  {
    if !HeaderAt(Sectors(disk), headerLba) then None
    else
      var header := HeaderOf(disk, headerLba);
      if !HeaderOk(header, Sectors(disk), headerLba) then None
      else
        var entries := EntriesOf(disk, EntriesLba(header));
        if Crc(entries) != Le32(header, 88) && !allowStale then None
        else Some(Copy(header, entries, headerLba, EntriesLba(header)))
  }

  // ----- geometry

  lemma EntriesInside(disk: seq<byte>, headerLba: nat)
    requires HeaderAt(Sectors(disk), headerLba)
    requires HeaderOk(HeaderOf(disk, headerLba), Sectors(disk), headerLba)
    ensures EntriesLba(HeaderOf(disk, headerLba)) * SECTOR + ARRAY_SIZE <= |disk|
  {
    hide HeaderCrcOk;
  }

  /** Both copies of a disk that `main` goes on with. */
  predicate Pair(disk: seq<byte>, p: Copy, b: Copy) {
    && Load(disk, 1, false) == Some(p)
    && Load(disk, BackupLba(disk), true) == Some(b)
    && p.header[56..72] == b.header[56..72]
    && p.header[40..56] == b.header[40..56]
  }

  lemma SharedRange(p: seq<byte>, b: seq<byte>)
    requires |p| == SECTOR && |b| == SECTOR && p[40..56] == b[40..56]
    ensures FirstUsable(p) == FirstUsable(b) && LastUsable(p) == LastUsable(b)
  {
    assert forall i :: 40 <= i < 56 ==> p[i] == p[40..56][i - 40] && b[i] == b[40..56][i - 40];
  }

  /** Everything the tool pins or writes lies inside the disk, in this order and
      without overlap: primary header, primary array, usable area holding boot_a
      and then boot_b, backup array, backup header. */
  lemma GeometrySound(disk: seq<byte>, p: Copy, b: Copy)
    requires Pair(disk, p, b)
    ensures var last := LastUsable(p.header);
            && 1 < p.entriesLba && p.entriesLba + ENTRIES_SECTORS <= FIRST_USABLE
            && FIRST_USABLE <= BOOT_A_FIRST <= BOOT_A_LAST < BOOT_B_FIRST <= BOOT_B_LAST <= last
            && last < b.entriesLba && b.entriesLba + ENTRIES_SECTORS <= b.headerLba
            && b.headerLba == BackupLba(disk) == Sectors(disk) - 1
  {
    SharedRange(p.header, b.header);
  }

  /** The primary's own upper bound on the usable area holds exactly when the
      sum it is tested with does not wrap. */
  lemma PrimaryBoundIffNoWrap(header: seq<byte>, diskLbas: nat)
    requires |header| == SECTOR && diskLbas < 0x10_0000_0000_0000
    requires FieldsOk(header, diskLbas, 1)
    ensures LastUsable(header) + ENTRIES_SECTORS + 1 < diskLbas
            <==> LastUsable(header) + ENTRIES_SECTORS + 1 < 0x1_0000_0000_0000_0000
  {
  }

  // ----- entries

  function Name(slot: nat): (n: seq<byte>)
    ensures |n| == 6
  {
    [0x62, 0x6f, 0x6f, 0x74, 0x5f, if slot == 0 then 0x61 else 0x62]
  }

  function First(slot: nat): nat {
    if slot == 0 then BOOT_A_FIRST else BOOT_B_FIRST
  }

  function Last(slot: nat): nat {
    if slot == 0 then BOOT_A_LAST else BOOT_B_LAST
  }

  /** `name_is` on entry `i`: UTF-16LE text followed by a zero code unit. */
  predicate NameIs(entries: seq<byte>, i: nat, name: seq<byte>)
    requires |entries| == ARRAY_SIZE && i < ENTRY_COUNT && |name| <= 35
  {
    var at := i * ENTRY_SIZE + 56;
    && (forall k :: 0 <= k < |name| ==> entries[at + 2 * k] == name[k] && entries[at + 2 * k + 1] == 0)
    && entries[at + 2 * |name|] == 0 && entries[at + 2 * |name| + 1] == 0
  }

  predicate RangeIs(entries: seq<byte>, i: nat, slot: nat)
    requires |entries| == ARRAY_SIZE && i < ENTRY_COUNT
  {
    Le64(entries, i * ENTRY_SIZE + 32) == First(slot) && Le64(entries, i * ENTRY_SIZE + 40) == Last(slot)
  }

  /** Entry `i` is the slot's: no earlier entry has its name, and it sits where
      the inventory recorded it. */
  predicate IsBoot(entries: seq<byte>, slot: nat, i: nat)
    requires |entries| == ARRAY_SIZE
  {
    && i < ENTRY_COUNT
    && NameIs(entries, i, Name(slot))
    && RangeIs(entries, i, slot)
    && forall j :: 0 <= j < i ==> !NameIs(entries, j, Name(slot))
  }

  lemma BootUnique(entries: seq<byte>, slot: nat, i: nat, j: nat)
    requires |entries| == ARRAY_SIZE && IsBoot(entries, slot, i) && IsBoot(entries, slot, j)
    ensures i == j
  {
  }

  lemma SlotsDiffer(entries: seq<byte>, i: nat, j: nat)
    requires |entries| == ARRAY_SIZE && IsBoot(entries, 0, i) && IsBoot(entries, 1, j)
    ensures i != j
  {
    assert Name(0)[5] != Name(1)[5];
  }

  // ----- attribute bits

  const BIT_48: int := 0x1_0000_0000_0000
  const BIT_50: int := 0x4_0000_0000_0000
  const BIT_51: int := 0x8_0000_0000_0000
  const BIT_54: int := 0x40_0000_0000_0000
  const BIT_55: int := 0x80_0000_0000_0000
  const BIT_56: int := 0x100_0000_0000_0000

  predicate TopPriority(a: u64) {
    a / BIT_48 % 4 == 3
  }

  predicate Active(a: u64) {
    a / BIT_50 % 2 == 1
  }

  predicate HasTries(a: u64) {
    a / BIT_51 % 8 != 0
  }

  predicate Successful(a: u64) {
    a / BIT_54 % 2 == 1
  }

  predicate Unbootable(a: u64) {
    a / BIT_55 % 2 == 1
  }

  predicate ChosenByLoader(a: u64) {
    TopPriority(a) && Active(a) && (HasTries(a) || Successful(a))
  }

  /** `attrs |= SUCCESSFUL; attrs &= ~UNBOOTABLE` */
  function Marked(a: u64): u64 {
    var flagged := if Successful(a) then a else a + BIT_54;
    if Unbootable(flagged) then flagged - BIT_55 else flagged
  }

  /** The ten bits from bit 54 up, and the bits below. */
  function Top(a: nat): nat {
    a / BIT_54
  }

  function Below(a: nat): nat {
    a % BIT_54
  }

  lemma TopAndBelow(a: nat)
    ensures a == Top(a) * BIT_54 + Below(a) && Below(a) < BIT_54
  {
  }

  lemma FromTop(top: nat, low: nat)
    requires low < BIT_54
    ensures Top(top * BIT_54 + low) == top && Below(top * BIT_54 + low) == low
  {
  }

  lemma FlagsOf(a: u64)
    ensures Successful(a) <==> Top(a) % 2 == 1
    ensures Unbootable(a) <==> Top(a) / 2 % 2 == 1
    ensures a / BIT_56 == Top(a) / 4
  {
    HigherBits(a);
  }

  lemma HigherBits(a: nat)
    ensures a / BIT_55 == a / BIT_54 / 2 && a / BIT_56 == a / BIT_54 / 4
  {
  }

  lemma MarkedIs(a: u64)
    ensures Marked(a) == Cleared(Top(a)) * BIT_54 + Below(a)
  {
    hide Top, Below, Successful, Unbootable, Cleared;
    TopAndBelow(a);
    FlagsOf(a);
    var flagged := if Successful(a) then a else a + BIT_54;
    var raised := if Top(a) % 2 == 1 then Top(a) else Top(a) + 1;
    assert flagged == raised * BIT_54 + Below(a);
    FromTop(raised, Below(a));
    FlagsOf(flagged);
    Quarters(Top(a), raised);
  }

  lemma Quarters(top: nat, raised: nat)
    requires raised == if top % 2 == 1 then top else top + 1
    ensures (if raised / 2 % 2 == 1 then raised - 2 else raised) == Cleared(top)
  {
    hide Cleared;
    var q := top / 4;
    LowTwo(top, q, top % 4);
    if top % 4 < 2 {
      LowTwo(raised, q, 1);
    } else {
      LowTwo(raised, q, 3);
    }
    ClearedIs(top, q);
  }

  lemma ClearedIs(top: nat, q: nat)
    requires q == top / 4
    ensures Cleared(top) == 4 * q + 1
  {
  }

  lemma LowTwo(top: nat, q: nat, r: nat)
    requires top == 4 * q + r && r < 4
    ensures top % 2 == (if r == 1 || r == 3 then 1 else 0)
    ensures top / 2 % 2 == (if r < 2 then 0 else 1)
  {
    if r < 2 {
      assert top / 2 == 2 * q;
    } else {
      assert top / 2 == 2 * q + 1;
    }
  }

  /** Marking sets bit 54, clears bit 55 and changes no other bit. */
  lemma MarkedBits(a: u64)
    ensures Successful(Marked(a)) && !Unbootable(Marked(a))
    ensures Below(Marked(a)) == Below(a) && Marked(a) / BIT_56 == a / BIT_56
  {
    hide *;
    var top := Cleared(Top(a));
    MarkedIs(a);
    TopAndBelow(a);
    ClearedMeans(Top(a));
    FromTop(top, Below(a));
    FlagsOf(a);
    FlagsOf(Marked(a));
  }

  /** The top bits with the lowest two set to 01. */
  function Cleared(top: nat): nat {
    top / 4 * 4 + 1
  }

  lemma ClearedMeans(top: nat)
    ensures Cleared(top) % 2 == 1 && Cleared(top) / 2 % 2 == 0 && Cleared(top) / 4 == top / 4
  {
  }

  function Attributes(entries: seq<byte>, i: nat): u64
    requires |entries| == ARRAY_SIZE && i < ENTRY_COUNT
  {
    Le64(entries, i * ENTRY_SIZE + 48)
  }

  function MarkEntry(entries: seq<byte>, i: nat): (r: seq<byte>)
    requires |entries| == ARRAY_SIZE && i < ENTRY_COUNT
    ensures |r| == ARRAY_SIZE
  {
    PutLe64(entries, i * ENTRY_SIZE + 48, Marked(Attributes(entries, i)))
  }

  /** Marking one slot changes only its attributes, and finds the same entry again. */
  lemma MarkEntryKeeps(entries: seq<byte>, slot: nat, i: nat)
    requires |entries| == ARRAY_SIZE && IsBoot(entries, slot, i)
    ensures var r := MarkEntry(entries, i);
            && Attributes(r, i) == Marked(Attributes(entries, i))
            && (forall k :: 0 <= k < ARRAY_SIZE && !(i * ENTRY_SIZE + 48 <= k < i * ENTRY_SIZE + 56) ==> r[k] == entries[k])
            && IsBoot(r, slot, i)
  {
    hide Marked, NameIs, RangeIs, Name, Le64, PutLe64;
    var r := MarkEntry(entries, i);
    forall j | 0 <= j < ENTRY_COUNT
      ensures NameIs(r, j, Name(slot)) == NameIs(entries, j, Name(slot))
    {
      NameUnmoved(entries, r, j, Name(slot));
    }
    RangeUnmoved(entries, r, i, slot);
  }

  lemma NameUnmoved(e: seq<byte>, r: seq<byte>, i: nat, name: seq<byte>)
    requires |e| == ARRAY_SIZE && |r| == ARRAY_SIZE && i < ENTRY_COUNT && |name| <= 35
    requires forall k :: i * ENTRY_SIZE + 56 <= k < (i + 1) * ENTRY_SIZE ==> r[k] == e[k]
    ensures NameIs(r, i, name) == NameIs(e, i, name)
  {
  }

  lemma RangeUnmoved(e: seq<byte>, r: seq<byte>, i: nat, slot: nat)
    requires |e| == ARRAY_SIZE && |r| == ARRAY_SIZE && i < ENTRY_COUNT
    requires forall k :: i * ENTRY_SIZE + 32 <= k < i * ENTRY_SIZE + 48 ==> r[k] == e[k]
    ensures RangeIs(r, i, slot) == RangeIs(e, i, slot)
  {
  }

  // ----- CRCs

  /** `refresh_crcs`: the entry CRC first, because the header CRC covers it. */
  function Refresh(g: Copy): (r: Copy)
    requires g.Sized()
    ensures r.Sized() && r.(header := g.header) == g
  {
    var h := PutLe32(PutLe32(g.header, 88, Crc(g.entries)), 16, 0);
    g.(header := PutLe32(h, 16, Crc(h[..HEADER_SIZE])))
  }

  predicate SameButCrcs(r: seq<byte>, h: seq<byte>)
    requires |r| == SECTOR && |h| == SECTOR
  {
    forall k :: 0 <= k < SECTOR && !(16 <= k < 20) && !(88 <= k < 92) ==> r[k] == h[k]
  }

  /** No field other than the two CRCs sees a change of the CRCs. */
  lemma FieldsSame(r: seq<byte>, h: seq<byte>, diskLbas: nat, headerLba: nat)
    requires |r| == SECTOR && |h| == SECTOR && SameButCrcs(r, h)
    ensures FieldsOk(r, diskLbas, headerLba) == FieldsOk(h, diskLbas, headerLba)
    ensures EntriesPlaced(r, headerLba) == EntriesPlaced(h, headerLba)
    ensures EntriesLba(r) == EntriesLba(h)
    ensures r[40..56] == h[40..56] && r[56..72] == h[56..72]
  {
    assert r[..8] == h[..8];
    assert Le32(r, 12) == Le32(h, 12) && Le32(r, 80) == Le32(h, 80) && Le32(r, 84) == Le32(h, 84);
    assert Le64(r, 24) == Le64(h, 24) && Le64(r, 32) == Le64(h, 32);
    assert Le64(r, 40) == Le64(h, 40) && Le64(r, 48) == Le64(h, 48) && Le64(r, 72) == Le64(h, 72);
  }

  lemma RefreshPassesCrcs(g: Copy)
    requires g.Sized()
    ensures SameButCrcs(Refresh(g).header, g.header)
    ensures HeaderCrcOk(Refresh(g).header)
    ensures Crc(g.entries) == Le32(Refresh(g).header, 88)
  {
    var h := PutLe32(PutLe32(g.header, 88, Crc(g.entries)), 16, 0);
    var r := Refresh(g).header;
    ZeroedAgrees(r, h);
    LeSame(r, h, 88);
    LeSame(h, PutLe32(g.header, 88, Crc(g.entries)), 88);
  }

  lemma LeSame(r: seq<byte>, h: seq<byte>, at: nat)
    requires |r| == |h| && at + 4 <= |r|
    requires forall k :: at <= k < at + 4 ==> r[k] == h[k]
    ensures Le32(r, at) == Le32(h, at)
  {
  }

  /** A refreshed copy passes both CRC tests and every other test it passed before. */
  lemma RefreshAccepted(g: Copy, diskLbas: nat)
    requires g.Sized()
    requires FieldsOk(g.header, diskLbas, g.headerLba) && EntriesPlaced(g.header, g.headerLba)
    ensures HeaderOk(Refresh(g).header, diskLbas, g.headerLba)
    ensures EntriesLba(Refresh(g).header) == EntriesLba(g.header)
    ensures Crc(g.entries) == Le32(Refresh(g).header, 88)
  {
    hide Refresh, Crc, FieldsOk, EntriesPlaced, HeaderCrcOk, EntriesLba;
    RefreshPassesCrcs(g);
    FieldsSame(Refresh(g).header, g.header, diskLbas, g.headerLba);
  }

  lemma ZeroedAgrees(r: seq<byte>, h: seq<byte>)
    requires |r| == SECTOR && |h| == SECTOR && Le32(h, 16) == 0
    requires forall k :: 0 <= k < SECTOR && !(16 <= k < 20) ==> r[k] == h[k]
    ensures PutLe32(r, 16, 0) == h
  {
    Le32Injective(PutLe32(r, 16, 0), h, 16);
    var z := PutLe32(r, 16, 0);
    assert forall k :: 16 <= k < 20 ==> z[k] == z[16..20][k - 16] && h[k] == h[16..20][k - 16];
  }

  // ----- what the strict test detects

  /** A window of four header bytes that lies inside the checksum field or clear of it. */
  predicate HeaderWindow(at: nat) {
    at + 4 <= HEADER_SIZE && (at == 16 || at + 4 <= 16 || 20 <= at)
  }

  lemma ZeroedElsewhere(h: seq<byte>, t: seq<byte>, at: nat)
    requires |h| == SECTOR && |t| == SECTOR && HeaderWindow(at) && at != 16
    requires forall i :: 0 <= i < SECTOR && !(at <= i < at + 4) ==> h[i] == t[i]
    requires PutLe32(h, 16, 0)[..HEADER_SIZE] == PutLe32(t, 16, 0)[..HEADER_SIZE]
    ensures h == t
  {
    var zh, zt := PutLe32(h, 16, 0), PutLe32(t, 16, 0);
    forall i | at <= i < at + 4
      ensures h[i] == t[i]
    {
      assert zh[i] == zh[..HEADER_SIZE][i] && zt[i] == zt[..HEADER_SIZE][i];
    }
  }

  lemma HeaderBurst(h: seq<byte>, t: seq<byte>, at: nat)
    requires |h| == SECTOR && |t| == SECTOR && HeaderWindow(at)
    requires forall i :: 0 <= i < SECTOR && !(at <= i < at + 4) ==> h[i] == t[i]
    requires HeaderCrcOk(h) && HeaderCrcOk(t)
    ensures h == t
  {
    hide Crc;
    var zh, zt := PutLe32(h, 16, 0), PutLe32(t, 16, 0);
    if at == 16 {
      ZeroedAgrees(t, zh);
      Le32Injective(h, t, 16);
      assert forall i :: 16 <= i < 20 ==> h[i] == h[16..20][i - 16] && t[i] == t[16..20][i - 16];
    } else {
      LeSame(h, t, 16);
      Le32Injective(zh, zt, 16);
      assert forall i :: 16 <= i < 20 ==> zh[i] == zh[16..20][i - 16] && zt[i] == zt[16..20][i - 16];
      BurstDetected(zh[..HEADER_SIZE], zt[..HEADER_SIZE], at);
      ZeroedElsewhere(h, t, at);
    }
  }

  /** Corrupting up to four consecutive header bytes (not straddling the stored
      checksum) makes the copy unacceptable, whatever its entries are. */
  lemma HeaderCorruptionRefused(disk: seq<byte>, bad: seq<byte>, headerLba: nat, at: nat, allowStale: bool)
    requires |bad| == |disk| && HeaderWindow(at)
    requires Load(disk, headerLba, true).Some?
    requires var h, t := HeaderOf(disk, headerLba), HeaderOf(bad, headerLba);
             h != t && forall i :: 0 <= i < SECTOR && !(at <= i < at + 4) ==> h[i] == t[i]
    ensures Load(bad, headerLba, allowStale) == None
  {
    if Load(bad, headerLba, allowStale).Some? {
      HeaderBurst(HeaderOf(disk, headerLba), HeaderOf(bad, headerLba), at);
    }
  }

  /** Corrupting a single byte of the 92 header bytes is always refused. */
  lemma HeaderByteRefused(disk: seq<byte>, bad: seq<byte>, headerLba: nat, k: nat, allowStale: bool)
    requires |bad| == |disk| && k < HEADER_SIZE
    requires Load(disk, headerLba, true).Some?
    requires var h, t := HeaderOf(disk, headerLba), HeaderOf(bad, headerLba);
             h[k] != t[k] && forall i :: 0 <= i < SECTOR && i != k ==> h[i] == t[i]
    ensures Load(bad, headerLba, allowStale) == None
  {
    var at := if k <= 12 then k else if k < 16 then 12 else if k < 20 then 16 else if k < 88 then k else 88;
    HeaderCorruptionRefused(disk, bad, headerLba, at, allowStale);
  }

  /** Corrupting up to four consecutive bytes of the entry array is refused by the
      strict test. */
  lemma EntryCorruptionRefused(disk: seq<byte>, bad: seq<byte>, headerLba: nat, g: Copy, at: nat)
    requires |bad| == |disk| && Load(disk, headerLba, false) == Some(g) && at + 4 <= ARRAY_SIZE
    requires HeaderOf(bad, headerLba) == g.header
    requires var t := EntriesOf(bad, g.entriesLba);
             t != g.entries && forall i :: 0 <= i < ARRAY_SIZE && !(at <= i < at + 4) ==> g.entries[i] == t[i]
    ensures Load(bad, headerLba, false) == None
  {
    if Load(bad, headerLba, false).Some? {
      BurstDetected(g.entries, EntriesOf(bad, g.entriesLba), at);
    }
  }

  lemma WrappedFields() returns (h: seq<byte>)
    ensures |h| == SECTOR && FieldsOk(h, DISK_SECTORS, 1) && EntriesPlaced(h, 1)
    ensures LastUsable(h) == 0xffff_ffff_ffff_ffff && EntriesLba(h) == 2
  {
    h := Splice(seq(SECTOR, i => 0), 0, SIGNATURE);
    h := PutLe32(h, 12, HEADER_SIZE);
    h := PutLe64(h, 24, 1);
    h := PutLe64(h, 32, DISK_SECTORS - 1);
    h := PutLe64(h, 40, FIRST_USABLE);
    h := PutLe64(h, 48, 0xffff_ffff_ffff_ffff);
    h := PutLe64(h, 72, 2);
    h := PutLe32(h, 80, ENTRY_COUNT);
    h := PutLe32(h, 84, ENTRY_SIZE);
  }

  lemma PrimaryOnly(g: Copy) returns (disk: seq<byte>)
    requires g.Sized() && g.headerLba == 1 && g.entriesLba == 2 && EntriesLba(g.header) == 2
    requires HeaderOk(g.header, DISK_SECTORS, 1) && Crc(g.entries) == Le32(g.header, 88)
    ensures |disk| == DISK_BYTES && Sectors(disk) == DISK_SECTORS && Load(disk, 1, false) == Some(g)
  {
    hide HeaderOk, Crc, EntriesLba;
    disk := seq(SECTOR, i => 0) + g.header + g.entries + seq((DISK_SECTORS - 5) * SECTOR, i => 0);
    assert HeaderOf(disk, 1) == g.header;
    assert EntriesOf(disk, 2) == g.entries;
  }

  /** A disk of the one size the tool takes whose primary copy alone is accepted
      although its usable area claims the whole 64-bit sector range. */
  lemma WrappedPrimary() returns (disk: seq<byte>, g: Copy)
    ensures |disk| == DISK_BYTES
    ensures Load(disk, 1, false) == Some(g)
    ensures LastUsable(g.header) == 0xffff_ffff_ffff_ffff
    ensures !(LastUsable(g.header) + ENTRIES_SECTORS + 1 < Sectors(disk))
  {
    hide Refresh, FieldsOk, Crc, HeaderOk;
    var h := WrappedFields();
    var plain := Copy(h, seq(ARRAY_SIZE, i => 0), 1, 2);
    g := Refresh(plain);
    RefreshAccepted(plain, DISK_SECTORS);
    LastUsableSame(h, g.header) by {
      RefreshPassesCrcs(plain);
    }
    disk := PrimaryOnly(g);
  }

  lemma LastUsableSame(h: seq<byte>, r: seq<byte>)
    requires |h| == SECTOR && |r| == SECTOR && SameButCrcs(r, h)
    ensures LastUsable(r) == LastUsable(h)
  {
  }
}

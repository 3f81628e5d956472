/** The slot-marking tool running against a block device that may fail, tear
    writes or lose power at any point. */
module GptUpdate {
  import opened Bytes
  import opened Crc32
  import opened Gpt

  // ----- what a power loss can leave behind

  /** Every byte of `c` comes from one of the images the device held since its
      last successful flush: torn and reordered writes at byte granularity. */
  ghost predicate CrashImage(history: seq<seq<byte>>, c: seq<byte>) {
    && history != []
    && (forall k :: 0 <= k < |history| ==> |history[k]| == |c|)
    && forall i :: 0 <= i < |c| ==> exists k :: 0 <= k < |history| && c[i] == history[k][i]
  }

  /** Every image of `history` equals `base` outside `region`. */
  ghost predicate Confined(history: seq<seq<byte>>, base: seq<byte>, region: int -> bool) {
    && history != []
    && forall k :: 0 <= k < |history| ==> Outside(history[k], base, region)
  }

  ghost predicate Outside(image: seq<byte>, base: seq<byte>, region: int -> bool) {
    |image| == |base| && forall i :: 0 <= i < |base| && !region(i) ==> image[i] == base[i]
  }

  lemma CrashOutside(history: seq<seq<byte>>, base: seq<byte>, region: int -> bool, c: seq<byte>)
    requires Confined(history, base, region) && CrashImage(history, c)
    ensures Outside(c, base, region)
  {
    assert Outside(history[0], base, region);
    forall i | 0 <= i < |base| && !region(i)
      ensures c[i] == base[i]
    {
      var k :| 0 <= k < |history| && c[i] == history[k][i];
      assert Outside(history[k], base, region);
    }
  }

  /** What the loader finds after a crash: the primary as it was, or a strict
      backup holding exactly the marked entries. */
  predicate Survives(before: seq<byte>, slot: nat, c: seq<byte>) {
    || Load(c, 1, false) == Load(before, 1, false)
    || match (Load(before, 1, false), Load(c, BackupLba(c), false))
       case (Some(p), Some(b)) => MarksOnly(p.entries, b.entries, slot)
       case _ => false
  }

  /** `after` is `entries` with the slot's attributes marked and nothing else changed. */
  predicate MarksOnly(entries: seq<byte>, after: seq<byte>, slot: nat)
    requires |entries| == ARRAY_SIZE && |after| == ARRAY_SIZE
  {
    exists i :: 0 <= i < ENTRY_COUNT && IsBoot(entries, slot, i) && after == MarkEntry(entries, i)
  }

  class Device {
    var image: seq<byte>
    var readOnly: bool
    /** The images held since the last successful flush, oldest first. */
    ghost var history: seq<seq<byte>>
    /** The history as it stood after every operation. */
    ghost var trace: seq<seq<seq<byte>>>
    /** Whether an operation has failed for a reason of its own. */
    ghost var faulted: bool

    ghost predicate Valid()
      reads this`history, this`image
    {
      history != [] && history[|history| - 1] == image && forall k :: 0 <= k < |history| ==> |history[k]| == |image|
    }

    /** One `pread`: some of the bytes asked for, or none and a failure or the end. */
    method Pread(off: nat, len: nat) returns (got: seq<byte>)
      requires len > 0
      modifies this`faulted
      ensures got != [] ==> |got| <= len && off + |got| <= |image| && got == image[off..off + |got|]
      ensures got == [] && off + len <= |image| ==> faulted
      ensures old(faulted) ==> faulted
    {
      var n: nat := *;
      n := Min(n, len);
      if off >= |image| {
        return [];
      }
      n := Min(n, |image| - off);
      faulted := faulted || n == 0;
      got := image[off..off + n];
    }

    /** `full_pread`: repeats short reads until done or failed. */
    method ReadFully(off: nat, len: nat) returns (r: Option<seq<byte>>)
      modifies this`faulted
      ensures r.Some? ==> off + len <= |image| && r.value == image[off..off + len]
      ensures r.None? && off + len <= |image| ==> faulted
      ensures len > 0 && off + len > |image| ==> r.None?
      ensures old(faulted) ==> faulted
    {
      var buf: seq<byte> := [];
      if len == 0 {
        return if off <= |image| then Some([]) else None;
      }
      while |buf| < len
        invariant |buf| <= len && (buf != [] ==> off + |buf| <= |image| && buf == image[off..off + |buf|])
        invariant old(faulted) ==> faulted
        decreases len - |buf|
      {
        var got := Pread(off + |buf|, len - |buf|);
        if got == [] {
          return None;
        }
        buf := buf + got;
      }
      r := Some(buf);
    }

    /** One `pwrite`: stores a prefix of the buffer, or fails. */
    method Pwrite(buf: seq<byte>, off: nat, ghost base: seq<byte>, ghost region: int -> bool) returns (n: nat)
      requires Valid() && buf != [] && off + |buf| <= |image|
      requires Confined(history, base, region)
      requires forall i :: off <= i < off + |buf| ==> region(i)
      modifies this
      ensures Valid() && readOnly == old(readOnly)
      ensures n <= |buf| && image == Splice(old(image), off, buf[..n])
      ensures Confined(history, base, region)
      ensures old(trace) <= trace && forall k :: |old(trace)| <= k < |trace| ==> Confined(trace[k], base, region)
      ensures n == 0 ==> faulted || readOnly
      ensures old(faulted) ==> faulted
    {
      var accepted: int := *;
      n := if !readOnly && 0 < accepted <= |buf| then accepted else 0;
      faulted := faulted || (n == 0 && !readOnly);
      ghost var was := image;
      image := image[..off] + buf[..n] + image[off + n..];
      history := history + [image];
      trace := trace + [history];
      assert Outside(was, base, region);
    }

    /** `full_pwrite`: repeats short writes until done or failed. */
    method WriteFully(buf: seq<byte>, off: nat, ghost base: seq<byte>, ghost region: int -> bool) returns (ok: bool)
      requires Valid() && off + |buf| <= |image|
      requires Confined(history, base, region)
      requires forall i :: off <= i < off + |buf| ==> region(i)
      modifies this
      ensures Valid() && readOnly == old(readOnly) && |image| == |old(image)|
      ensures ok ==> image == Splice(old(image), off, buf)
      ensures Confined(history, base, region)
      ensures old(trace) <= trace && forall k :: |old(trace)| <= k < |trace| ==> Confined(trace[k], base, region)
      ensures !ok ==> faulted || readOnly
      ensures old(faulted) ==> faulted
    {
      var done := 0;
      assert Splice(image, off, buf[..0]) == image;
      while done < |buf|
        invariant Valid() && readOnly == old(readOnly)
        invariant 0 <= done <= |buf| && image == Splice(old(image), off, buf[..done])
        invariant Confined(history, base, region)
        invariant old(trace) <= trace && forall k :: |old(trace)| <= k < |trace| ==> Confined(trace[k], base, region)
        invariant old(faulted) ==> faulted
      {
        var n := Pwrite(buf[done..], off + done, base, region);
        if n == 0 {
          return false;
        }
        SpliceOn(old(image), off, buf, done, done + n);
        done := done + n;
      }
      assert buf[..done] == buf;
      ok := true;
    }

    /** `fsync`: on success nothing older than the current image can come back. */
    method Fsync(ghost base: seq<byte>, ghost region: int -> bool) returns (ok: bool)
      requires Valid() && Confined(history, base, region)
      modifies this
      ensures Valid() && image == old(image) && readOnly == old(readOnly)
      ensures ok ==> history == [image]
      ensures Confined(history, base, region)
      ensures old(trace) <= trace && forall k :: |old(trace)| <= k < |trace| ==> Confined(trace[k], base, region)
      ensures !ok ==> faulted
      ensures old(faulted) ==> faulted
    {
      ok := *;
      if ok {
        history := [image];
      } else {
        faulted := true;
      }
      trace := trace + [history];
    }

    /** `BLKROSET` */
    method SetReadOnly(flag: bool) returns (ok: bool)
      modifies this`readOnly, this`faulted
      ensures readOnly == if ok then flag else old(readOnly)
      ensures !ok ==> faulted
      ensures old(faulted) ==> faulted
    {
      ok := *;
      if ok {
        readOnly := flag;
      } else {
        faulted := true;
      }
    }

    /** `open` */
    method Open() returns (ok: bool)
      modifies this`faulted
      ensures !ok ==> faulted
      ensures old(faulted) ==> faulted
    {
      ok := *;
      if !ok {
        faulted := true;
      }
    }
  }

  lemma SpliceOn(s: seq<byte>, off: nat, buf: seq<byte>, i: nat, j: nat)
    requires i <= j <= |buf| && off + |buf| <= |s|
    ensures Splice(Splice(s, off, buf[..i]), off + i, buf[i..][..j - i]) == Splice(s, off, buf[..j])
  {
  }

  /** `struct gpt_copy`: the buffers the tool patches in place. */
  class GptCopy {
    var header: array<byte>
    var entries: array<byte>
    var headerLba: nat
    var entriesLba: u64

    ghost predicate Valid()
      reads this
    {
      header != entries && header.Length == SECTOR && entries.Length == ARRAY_SIZE
    }

    ghost function Value(): (g: Copy)
      requires Valid()
      reads this, header, entries
      ensures g.Sized()
    {
      Copy(header[..], entries[..], headerLba, entriesLba)
    }

    constructor ()
      ensures Valid() && fresh(header) && fresh(entries)
    {
      header := new byte[SECTOR](i => 0);
      entries := new byte[ARRAY_SIZE](i => 0);
      headerLba, entriesLba := 0, 0;
    }

    /** `load_gpt_copy` */
    method LoadFrom(dev: Device, lba: nat, allowStale: bool) returns (ok: bool)
      requires Valid()
      modifies this`headerLba, this`entriesLba, header, entries, dev`faulted
      ensures Valid()
      ensures ok ==> Load(dev.image, lba, allowStale) == Some(Value())
      ensures !ok && Load(dev.image, lba, allowStale).Some? ==> dev.faulted
      ensures old(dev.faulted) ==> dev.faulted
    {
      hide HeaderOk, EntriesLba, Crc;
      headerLba := lba;
      var sectors := Sectors(dev.image);
      if !HeaderAt(sectors, lba) {
        return false;
      }
      var got := dev.ReadFully(lba * SECTOR, SECTOR);
      if got == None {
        return false;
      }
      var h := HeaderOf(dev.image, lba);
      assert got.value == h;
      SpliceWhole(header[..], h);
      Store(header, 0, got.value);
      if !HeaderOk(h, sectors, lba) {
        return false;
      }
      EntriesInside(dev.image, lba);
      entriesLba := EntriesLba(h);
      got := dev.ReadFully(entriesLba * SECTOR, ARRAY_SIZE);
      if got == None {
        return false;
      }
      assert got.value == EntriesOf(dev.image, entriesLba);
      SpliceWhole(entries[..], got.value);
      Store(entries, 0, got.value);
      var crc := Crc32Bytes(entries, ARRAY_SIZE);
      assert entries[..ARRAY_SIZE] == entries[..] == got.value;
      ok := crc == Le32(h, 88) || allowStale;
    }

    /** `find_boot`: the first entry with the slot's name, if it sits where recorded. */
    method FindBoot(slot: nat) returns (r: Option<nat>)
      requires Valid()
      ensures r.Some? ==> IsBoot(entries[..], slot, r.value)
      ensures r.None? ==> !HasBoot(entries[..], slot)
    {
      for i := 0 to ENTRY_COUNT
        invariant forall j :: 0 <= j < i ==> !NameIs(entries[..], j, Name(slot))
      {
        if NameIs(entries[..], i, Name(slot)) {
          return if RangeIs(entries[..], i, slot) then Some(i) else None;
        }
      }
      r := None;
    }

    /** `refresh_crcs` */
    method RefreshCrcs()
      requires Valid()
      modifies header
      ensures Value() == Refresh(old(Value()))
    {
      ghost var was := Value();
      var crc := Crc32Bytes(entries, ARRAY_SIZE);
      assert entries[..ARRAY_SIZE] == entries[..];
      Store(header, 88, Le32Bytes(crc));
      assert header[..] == PutLe32(was.header, 88, Crc(was.entries));
      Store(header, 16, Le32Bytes(0));
      ghost var zeroed := header[..];
      assert zeroed == PutLe32(PutLe32(was.header, 88, Crc(was.entries)), 16, 0);
      crc := Crc32Bytes(header, HEADER_SIZE);
      assert header[..HEADER_SIZE] == zeroed[..HEADER_SIZE];
      Store(header, 16, Le32Bytes(crc));
    }

    /** `put_le64(e + 48, attrs)` */
    method Mark(i: nat)
      requires Valid() && i < ENTRY_COUNT
      modifies entries
      ensures entries[..] == MarkEntry(old(entries[..]), i)
    {
      var attrs := Attributes(entries[..], i);
      var at := i * ENTRY_SIZE + 48;
      ghost var was := entries[..];
      Store(entries, at, Le32Bytes(Marked(attrs) % 0x1_0000_0000));
      ghost var low := entries[..];
      Store(entries, at + 4, Le32Bytes(Marked(attrs) / 0x1_0000_0000));
    }
  }

  /** `memcpy` into a buffer. */
  method Store(a: array<byte>, at: nat, b: seq<byte>)
    requires at + |b| <= a.Length
    modifies a
    ensures a[..] == Splice(old(a[..]), at, b)
  {
    for i := 0 to |b|
      invariant forall k :: 0 <= k < a.Length ==> a[k] == if at <= k < at + i then b[k - at] else old(a[k])
    {
      a[at + i] := b[i];
    }
  }

  // ----- the update as values

  function Primary(disk: seq<byte>): Option<Copy> {
    Load(disk, 1, false)
  }

  function Backup(disk: seq<byte>): Option<Copy> {
    Load(disk, BackupLba(disk), true)
  }

  predicate HasBoot(entries: seq<byte>, slot: nat)
    requires |entries| == ARRAY_SIZE
  {
    exists i :: 0 <= i < ENTRY_COUNT && IsBoot(entries, slot, i)
  }

  /** Everything `main` tests before it acts; `i` is the slot's entry. */
  predicate Accepted(disk: seq<byte>, slot: nat, i: nat)
    requires slot < 2
  {
    && |disk| == DISK_BYTES
    && Primary(disk).Some? && Backup(disk).Some?
    && var p, b := Primary(disk).value, Backup(disk).value;
       && p.header[56..72] == b.header[56..72] && p.header[40..56] == b.header[40..56]
       && IsBoot(p.entries, slot, i) && HasBoot(p.entries, 1 - slot)
       && HasBoot(b.entries, slot) && HasBoot(b.entries, 1 - slot)
       && ChosenByLoader(Attributes(p.entries, i))
  }

  lemma AcceptedPair(disk: seq<byte>, slot: nat, i: nat)
    requires slot < 2 && Accepted(disk, slot, i)
    ensures Pair(disk, Primary(disk).value, Backup(disk).value) && IsBoot(Primary(disk).value.entries, slot, i)
  {
  }

  lemma BootPresent(entries: seq<byte>, slot: nat, i: nat)
    requires |entries| == ARRAY_SIZE && IsBoot(entries, slot, i)
    ensures HasBoot(entries, slot)
  {
  }

  lemma AcceptedHas(disk: seq<byte>, slot: nat, i: nat)
    requires slot < 2 && Accepted(disk, slot, i)
    ensures HasBoot(Primary(disk).value.entries, slot) && HasBoot(Primary(disk).value.entries, 1 - slot)
    ensures HasBoot(Backup(disk).value.entries, slot) && HasBoot(Backup(disk).value.entries, 1 - slot)
  {
  }

  /** A copy with the marked entries of the primary and fresh checksums. */
  function Updated(g: Copy, entries: seq<byte>, i: nat): (r: Copy)
    requires g.Sized() && |entries| == ARRAY_SIZE && i < ENTRY_COUNT
    ensures r.Sized() && r.entries == MarkEntry(entries, i)
    ensures r.headerLba == g.headerLba && r.entriesLba == g.entriesLba
  {
    Refresh(g.(entries := MarkEntry(entries, i)))
  }

  predicate Fits(disk: seq<byte>, g: Copy) {
    g.Sized() && g.entriesLba * SECTOR + ARRAY_SIZE <= |disk| && (g.headerLba + 1) * SECTOR <= |disk|
  }

  /** The two writes of one copy: its entries, then its header. */
  function Written(disk: seq<byte>, g: Copy): (r: seq<byte>)
    requires Fits(disk, g)
    ensures |r| == |disk|
  {
    Splice(Splice(disk, g.entriesLba * SECTOR, g.entries), g.headerLba * SECTOR, g.header)
  }

  ghost function RegionOf(g: Copy): int -> bool {
    i => g.entriesLba * SECTOR <= i < g.entriesLba * SECTOR + ARRAY_SIZE
         || g.headerLba * SECTOR <= i < (g.headerLba + 1) * SECTOR
  }

  ghost predicate Apart(r: int -> bool, t: int -> bool) {
    forall i :: r(i) ==> !t(i)
  }

  lemma LoadedFits(disk: seq<byte>, lba: nat, allowStale: bool)
    requires Load(disk, lba, allowStale).Some?
    ensures Fits(disk, Load(disk, lba, allowStale).value)
    ensures Load(disk, lba, allowStale).value.headerLba == lba
  {
    EntriesInside(disk, lba);
  }

  lemma CopiesApart(disk: seq<byte>, p: Copy, b: Copy)
    requires Pair(disk, p, b)
    ensures Apart(RegionOf(p), RegionOf(b)) && Apart(RegionOf(b), RegionOf(p))
    ensures Fits(disk, p) && Fits(disk, b)
  {
    GeometrySound(disk, p, b);
    LoadedFits(disk, 1, false);
    LoadedFits(disk, BackupLba(disk), true);
    hide Load;
  }

  /** A copy that nothing wrote to loads as before. */
  lemma LoadUndisturbed(disk: seq<byte>, c: seq<byte>, lba: nat, allowStale: bool, region: int -> bool)
    requires Load(disk, lba, allowStale).Some? && Outside(c, disk, region)
    requires Apart(RegionOf(Load(disk, lba, allowStale).value), region)
    ensures Load(c, lba, allowStale) == Load(disk, lba, allowStale)
  {
    hide HeaderOk, Crc;
    var g := Load(disk, lba, allowStale).value;
    LoadedFits(disk, lba, allowStale);
    assert HeaderOf(c, lba) == HeaderOf(disk, lba) by {
      forall i | lba * SECTOR <= i < (lba + 1) * SECTOR
        ensures c[i] == disk[i]
      {
        assert RegionOf(g)(i);
      }
    }
    assert EntriesOf(c, g.entriesLba) == EntriesOf(disk, g.entriesLba) by {
      forall i | g.entriesLba * SECTOR <= i < g.entriesLba * SECTOR + ARRAY_SIZE
        ensures c[i] == disk[i]
      {
        assert RegionOf(g)(i);
      }
    }
  }

  /** Writing an updated copy where the old one was makes it load strictly. */
  lemma UpdatedLoads(disk: seq<byte>, lba: nat, allowStale: bool, base: seq<byte>, entries: seq<byte>, i: nat)
    requires Load(disk, lba, allowStale).Some? && |entries| == ARRAY_SIZE && i < ENTRY_COUNT && |base| == |disk|
    requires var g := Load(disk, lba, allowStale).value;
             g.entriesLba + ENTRIES_SECTORS <= g.headerLba || g.headerLba < g.entriesLba
    ensures var g := Load(disk, lba, allowStale).value;
            Fits(base, g) && Load(Written(base, Updated(g, entries, i)), lba, false) == Some(Updated(g, entries, i))
  {
    hide Crc, MarkEntry, HeaderCrcOk, FieldsOk, EntriesPlaced, Refresh;
    LoadedFits(disk, lba, allowStale);
    var g := Load(disk, lba, allowStale).value;
    var marked := g.(entries := MarkEntry(entries, i));
    RefreshAccepted(marked, Sectors(disk));
    var u := Updated(g, entries, i);
    var w := Written(base, u);
    assert HeaderOf(w, lba) == u.header;
    assert EntriesOf(w, u.entriesLba) == u.entries;
    hide EntriesLba;
  }

  function NewPrimary(disk: seq<byte>, slot: nat, i: nat): (g: Copy)
    requires slot < 2 && Accepted(disk, slot, i)
    ensures g.Sized()
  {
    Updated(Primary(disk).value, Primary(disk).value.entries, i)
  }

  function NewBackup(disk: seq<byte>, slot: nat, i: nat): (g: Copy)
    requires slot < 2 && Accepted(disk, slot, i)
    ensures g.Sized()
  {
    Updated(Backup(disk).value, Primary(disk).value.entries, i)
  }

  /** The disk after the backup's flush, and after the primary's. */
  function Halfway(disk: seq<byte>, slot: nat, i: nat): (r: seq<byte>)
    requires slot < 2 && Accepted(disk, slot, i) && Fits(disk, NewBackup(disk, slot, i))
    ensures |r| == |disk|
  {
    Written(disk, NewBackup(disk, slot, i))
  }

  function Finished(disk: seq<byte>, slot: nat, i: nat): (r: seq<byte>)
    requires slot < 2 && Accepted(disk, slot, i)
    requires Fits(disk, NewBackup(disk, slot, i)) && Fits(disk, NewPrimary(disk, slot, i))
    ensures |r| == |disk|
  {
    Written(Halfway(disk, slot, i), NewPrimary(disk, slot, i))
  }

  lemma WrittenOutside(disk: seq<byte>, g: Copy)
    requires Fits(disk, g)
    ensures Outside(Written(disk, g), disk, RegionOf(g))
  {
  }

  /** Facts the run relies on: regions apart, and each copy loads while the other is written. */
  lemma Stages(disk: seq<byte>, slot: nat, i: nat)
    requires slot < 2 && Accepted(disk, slot, i)
    ensures Fits(disk, NewBackup(disk, slot, i)) && Fits(disk, NewPrimary(disk, slot, i))
    ensures Fits(Halfway(disk, slot, i), NewPrimary(disk, slot, i))
    ensures Apart(RegionOf(Primary(disk).value), RegionOf(NewBackup(disk, slot, i)))
    ensures Apart(RegionOf(NewBackup(disk, slot, i)), RegionOf(NewPrimary(disk, slot, i)))
    ensures Load(Halfway(disk, slot, i), 1, false) == Primary(disk)
    ensures Load(Halfway(disk, slot, i), BackupLba(disk), false) == Some(NewBackup(disk, slot, i))
    ensures NewBackup(disk, slot, i).headerLba == BackupLba(disk) && NewPrimary(disk, slot, i).headerLba == 1
  {
    hide Load, Updated, Accepted, MarkEntry;
    AcceptedPair(disk, slot, i);
    var p, b := Primary(disk).value, Backup(disk).value;
    LoadedFits(disk, 1, false);
    LoadedFits(disk, BackupLba(disk), true);
    CopiesApart(disk, p, b);
    GeometrySound(disk, p, b);
    var nb, np := NewBackup(disk, slot, i), NewPrimary(disk, slot, i);
    assert Apart(RegionOf(p), RegionOf(nb)) && Apart(RegionOf(nb), RegionOf(np));
    UpdatedLoads(disk, BackupLba(disk), true, disk, p.entries, i);
    WrittenOutside(disk, nb);
    LoadUndisturbed(disk, Halfway(disk, slot, i), 1, false, RegionOf(nb));
  }

  /** A completed update: both copies strict and equal, only the slot's bits
      changed, and not a byte outside the two copies touched. */
  lemma FinishedIsRight(disk: seq<byte>, slot: nat, i: nat)
    requires slot < 2 && Accepted(disk, slot, i)
    ensures Fits(disk, NewBackup(disk, slot, i)) && Fits(disk, NewPrimary(disk, slot, i))
    ensures var f := Finished(disk, slot, i);
            && Load(f, 1, false) == Some(NewPrimary(disk, slot, i))
            && Load(f, BackupLba(f), false) == Some(NewBackup(disk, slot, i))
            && NewPrimary(disk, slot, i).entries == NewBackup(disk, slot, i).entries == MarkEntry(Primary(disk).value.entries, i)
            && (forall k :: 0 <= k < |disk| && !RegionOf(NewPrimary(disk, slot, i))(k) && !RegionOf(NewBackup(disk, slot, i))(k) ==> f[k] == disk[k])
  {
    hide Load, Updated, Accepted, MarkEntry;
    Stages(disk, slot, i);
    AcceptedPair(disk, slot, i);
    var p, b := Primary(disk).value, Backup(disk).value;
    GeometrySound(disk, p, b);
    LoadedFits(disk, 1, false);
    var half := Halfway(disk, slot, i);
    var nb, np := NewBackup(disk, slot, i), NewPrimary(disk, slot, i);
    UpdatedLoads(disk, 1, false, half, p.entries, i);
    WrittenOutside(half, np);
    WrittenOutside(disk, nb);
    LoadUndisturbed(half, Finished(disk, slot, i), BackupLba(disk), false, RegionOf(np));
  }

  /** Power lost while the backup is being written. */
  lemma BackupPhaseSurvives(disk: seq<byte>, slot: nat, i: nat, c: seq<byte>)
    requires slot < 2 && Accepted(disk, slot, i)
    requires Outside(c, disk, RegionOf(NewBackup(disk, slot, i)))
    ensures Survives(disk, slot, c)
  {
    hide Load, Updated, Accepted;
    AcceptedPair(disk, slot, i);
    Stages(disk, slot, i);
    LoadUndisturbed(disk, c, 1, false, RegionOf(NewBackup(disk, slot, i)));
  }

  /** Power lost while the primary is being written. */
  lemma PrimaryPhaseSurvives(disk: seq<byte>, slot: nat, i: nat, c: seq<byte>)
    requires slot < 2 && Accepted(disk, slot, i) && Fits(disk, NewBackup(disk, slot, i))
    requires Outside(c, Halfway(disk, slot, i), RegionOf(NewPrimary(disk, slot, i)))
    ensures Survives(disk, slot, c)
  {
    hide Load, Updated, MarkEntry;
    Stages(disk, slot, i);
    LoadUndisturbed(Halfway(disk, slot, i), c, BackupLba(disk), false, RegionOf(NewPrimary(disk, slot, i)));
  }

  // ----- the tool

  /** Every power loss during or after these operations is survived. */
  ghost predicate AllSurvive(before: seq<byte>, slot: nat, trace: seq<seq<seq<byte>>>, from: nat) {
    forall k, c :: from <= k < |trace| && CrashImage(trace[k], c) ==> Survives(before, slot, c)
  }

  lemma PhaseSurvives(before: seq<byte>, slot: nat, i: nat, base: seq<byte>, region: int -> bool,
                      trace: seq<seq<seq<byte>>>, from: nat, mid: nat)
    requires slot < 2 && Accepted(before, slot, i)
    requires from <= mid <= |trace| && AllSurvive(before, slot, trace[..mid], from)
    requires forall k :: mid <= k < |trace| ==> Confined(trace[k], base, region)
    requires forall c :: Outside(c, base, region) ==> Survives(before, slot, c)
    ensures AllSurvive(before, slot, trace, from)
  {
    forall k, c | from <= k < |trace| && CrashImage(trace[k], c)
      ensures Survives(before, slot, c)
    {
      if k < mid {
        assert trace[..mid][k] == trace[k];
      } else {
        CrashOutside(trace[k], base, region, c);
      }
    }
  }

  /** One copy: entries, header, flush. */
  method WriteCopy(dev: Device, g: Copy, ghost base: seq<byte>) returns (ok: bool)
    requires dev.Valid() && dev.image == base && dev.history == [base] && Fits(base, g)
    modifies dev
    ensures dev.Valid() && dev.readOnly == old(dev.readOnly)
    ensures old(dev.trace) <= dev.trace
    ensures forall k :: |old(dev.trace)| <= k < |dev.trace| ==> Confined(dev.trace[k], base, RegionOf(g))
    ensures ok ==> dev.image == Written(base, g) && dev.history == [dev.image]
    ensures !ok ==> dev.faulted || dev.readOnly
    ensures old(dev.faulted) ==> dev.faulted
  {
    ghost var region := RegionOf(g);
    ok := dev.WriteFully(g.entries, g.entriesLba * SECTOR, base, region);
    if ok {
      ok := dev.WriteFully(g.header, g.headerLba * SECTOR, base, region);
    }
    if ok {
      ok := dev.Fsync(base, region);
    }
  }

  /** The image between the two copies, and after both. */
  ghost predicate AtHalf(before: seq<byte>, slot: nat, i: nat, image: seq<byte>) {
    && slot < 2 && Accepted(before, slot, i)
    && Fits(before, NewBackup(before, slot, i))
    && image == Halfway(before, slot, i)
  }

  ghost predicate Completed(before: seq<byte>, slot: nat, i: nat, image: seq<byte>) {
    && slot < 2 && Accepted(before, slot, i)
    && Fits(before, NewBackup(before, slot, i)) && Fits(before, NewPrimary(before, slot, i))
    && image == Finished(before, slot, i)
  }

  /** The first half of the ordered writes: the backup. */
  method CommitBackup(dev: Device, backup: Copy, ghost slot: nat, ghost i: nat) returns (ok: bool)
    requires dev.Valid() && dev.history == [dev.image]
    requires slot < 2 && Accepted(dev.image, slot, i) && backup == NewBackup(dev.image, slot, i)
    modifies dev
    ensures dev.Valid() && dev.readOnly == old(dev.readOnly)
    ensures old(dev.trace) <= dev.trace
    ensures AllSurvive(old(dev.image), slot, dev.trace, |old(dev.trace)|)
    ensures ok ==> AtHalf(old(dev.image), slot, i, dev.image) && dev.history == [dev.image]
    ensures !ok ==> dev.faulted || dev.readOnly
    ensures old(dev.faulted) ==> dev.faulted
  {
    hide *;
    ghost var before := dev.image;
    BackupFits(before, slot, i, backup);
    ok := WriteCopy(dev, backup, before);
    BackupPhase(before, slot, i, backup, dev.trace, |old(dev.trace)|);
    if ok {
      HalfReached(before, slot, i, backup, dev.image);
    }
  }

  /** The second half: the primary, over a disk whose backup is already durable. */
  method CommitPrimary(dev: Device, primary: Copy, ghost before: seq<byte>, ghost slot: nat, ghost i: nat, ghost from: nat)
    returns (ok: bool)
    requires dev.Valid() && dev.history == [dev.image]
    requires AtHalf(before, slot, i, dev.image) && primary == NewPrimary(before, slot, i)
    requires from <= |dev.trace| && AllSurvive(before, slot, dev.trace, from)
    modifies dev
    ensures dev.Valid() && dev.readOnly == old(dev.readOnly)
    ensures old(dev.trace) <= dev.trace
    ensures AllSurvive(before, slot, dev.trace, from)
    ensures ok ==> Completed(before, slot, i, dev.image) && dev.history == [dev.image]
    ensures !ok ==> dev.faulted || dev.readOnly
    ensures old(dev.faulted) ==> dev.faulted
  {
    hide *;
    ghost var half := dev.image;
    PrimaryFits(before, slot, i, half, primary);
    ok := WriteCopy(dev, primary, half);
    PrimaryPhase(before, slot, i, primary, old(dev.trace), dev.trace, from, half);
    if ok {
      EndReached(before, slot, i, half, primary, dev.image);
    }
  }

  lemma BackupFits(before: seq<byte>, slot: nat, i: nat, nb: Copy)
    requires slot < 2 && Accepted(before, slot, i) && nb == NewBackup(before, slot, i)
    ensures Fits(before, nb)
  {
    hide Accepted, Load, NewBackup, NewPrimary;
    Stages(before, slot, i);
  }

  lemma PrimaryFits(before: seq<byte>, slot: nat, i: nat, half: seq<byte>, np: Copy)
    requires AtHalf(before, slot, i, half) && np == NewPrimary(before, slot, i)
    ensures Fits(half, np)
  {
    hide Accepted, Load, NewBackup, NewPrimary;
    Stages(before, slot, i);
  }

  lemma HalfReached(before: seq<byte>, slot: nat, i: nat, nb: Copy, image: seq<byte>)
    requires slot < 2 && Accepted(before, slot, i) && nb == NewBackup(before, slot, i)
    requires Fits(before, nb) && image == Written(before, nb)
    ensures AtHalf(before, slot, i, image)
  {
  }

  lemma EndReached(before: seq<byte>, slot: nat, i: nat, half: seq<byte>, np: Copy, image: seq<byte>)
    requires AtHalf(before, slot, i, half) && np == NewPrimary(before, slot, i)
    requires Fits(half, np) && image == Written(half, np)
    ensures Completed(before, slot, i, image)
  {
    hide Accepted, NewBackup, NewPrimary, Written;
    BackupFits(before, slot, i, NewBackup(before, slot, i));
    assert |half| == |before|;
  }

  lemma BackupPhase(before: seq<byte>, slot: nat, i: nat, nb: Copy, trace: seq<seq<seq<byte>>>, from: nat)
    requires slot < 2 && Accepted(before, slot, i) && nb == NewBackup(before, slot, i) && from <= |trace|
    requires forall k :: from <= k < |trace| ==> Confined(trace[k], before, RegionOf(nb))
    ensures AllSurvive(before, slot, trace, from)
  {
    hide Survives, NewBackup, Accepted;
    forall c | Outside(c, before, RegionOf(nb))
      ensures Survives(before, slot, c)
    {
      BackupPhaseSurvives(before, slot, i, c);
    }
    PhaseSurvives(before, slot, i, before, RegionOf(nb), trace, from, from);
  }

  lemma PrimaryPhase(before: seq<byte>, slot: nat, i: nat, np: Copy, first: seq<seq<seq<byte>>>, trace: seq<seq<seq<byte>>>,
                     from: nat, half: seq<byte>)
    requires AtHalf(before, slot, i, half) && np == NewPrimary(before, slot, i) && from <= |first| && first <= trace
    requires AllSurvive(before, slot, first, from)
    requires forall k :: |first| <= k < |trace| ==> Confined(trace[k], half, RegionOf(np))
    ensures AllSurvive(before, slot, trace, from)
  {
    hide Survives, NewPrimary, NewBackup, Accepted, Written;
    assert trace[..|first|] == first;
    forall c | Outside(c, half, RegionOf(np))
      ensures Survives(before, slot, c)
    {
      PrimaryPhaseSurvives(before, slot, i, c);
    }
    PhaseSurvives(before, slot, i, half, RegionOf(np), trace, from, |first|);
  }

  /** `main` up to the decision: load both copies, find the entries, judge the attributes.
      On success the buffers hold both copies as they are to be written. */
  method Examine(dev: Device, slot: nat, primary: GptCopy, backup: GptCopy) returns (r: Option<nat>)
    requires slot < 2 && primary.Valid() && backup.Valid()
    requires primary != backup && {primary.header, primary.entries} !! {backup.header, backup.entries}
    modifies primary, primary.header, primary.entries, backup, backup.header, backup.entries, dev`faulted
    ensures primary.Valid() && backup.Valid()
    ensures primary.header == old(primary.header) && primary.entries == old(primary.entries)
    ensures backup.header == old(backup.header) && backup.entries == old(backup.entries)
    ensures r.Some? ==> Accepted(dev.image, slot, r.value)
    ensures r.Some? ==> primary.Value() == Primary(dev.image).value
    ensures r.Some? ==> backup.Value() == Backup(dev.image).value.(entries := Primary(dev.image).value.entries)
    ensures r.None? ==> dev.faulted || forall i :: !Accepted(dev.image, slot, i)
    ensures old(dev.faulted) ==> dev.faulted
  {
    hide Load, NameIs, RangeIs, ChosenByLoader, Attributes, HasBoot;
    r := None;
    if |dev.image| != DISK_BYTES {
      return;
    }
    var sectors := Sectors(dev.image);
    var ok := primary.LoadFrom(dev, 1, false);
    if !ok {
      return;
    }
    ok := backup.LoadFrom(dev, sectors - 1, true);
    if !ok {
      return;
    }
    if primary.header[56..72] != backup.header[56..72] || primary.header[40..56] != backup.header[40..56] {
      return;
    }
    ghost var p, b := Primary(dev.image).value, Backup(dev.image).value;
    SliceOfAll(primary.header, 40, 56);
    SliceOfAll(primary.header, 56, 72);
    SliceOfAll(backup.header, 40, 56);
    SliceOfAll(backup.header, 56, 72);
    var mine := primary.FindBoot(slot);
    var other := primary.FindBoot(1 - slot);
    var mineBackup := backup.FindBoot(slot);
    var otherBackup := backup.FindBoot(1 - slot);
    if mine == None || other == None || mineBackup == None || otherBackup == None {
      forall i | Accepted(dev.image, slot, i)
        ensures false
      {
        AcceptedHas(dev.image, slot, i);
      }
      return;
    }
    BootPresent(p.entries, slot, mine.value);
    BootPresent(p.entries, 1 - slot, other.value);
    BootPresent(b.entries, slot, mineBackup.value);
    BootPresent(b.entries, 1 - slot, otherBackup.value);
    SpliceWhole(backup.entries[..], primary.entries[..]);
    Store(backup.entries, 0, primary.entries[..]);
    if !ChosenByLoader(Attributes(primary.entries[..], mine.value)) {
      forall i | Accepted(dev.image, slot, i)
        ensures false
      {
        BootUnique(p.entries, slot, i, mine.value);
      }
      return;
    }
    r := mine;
  }

  lemma SliceOfAll(a: array<byte>, i: nat, j: nat)
    requires i <= j <= a.Length
    ensures a[i..j] == a[..][i..j]
  {
  }

  /** The slot is recorded successful and not unbootable. */
  predicate AlreadyMarked(disk: seq<byte>, i: nat) {
    && Primary(disk).Some? && i < ENTRY_COUNT
    && Successful(Attributes(Primary(disk).value.entries, i))
    && !Unbootable(Attributes(Primary(disk).value.entries, i))
  }

  lemma NothingYet(before: seq<byte>, slot: nat, trace: seq<seq<seq<byte>>>)
    ensures AllSurvive(before, slot, trace, |trace|)
  {
  }

  /** Both copies of `image` load strictly and hold the entries `marked`. */
  predicate Agreed(image: seq<byte>, marked: seq<byte>) {
    match (Load(image, 1, false), Load(image, BackupLba(image), false))
    case (Some(p), Some(b)) => p.entries == marked && b.entries == marked
    case _ => false
  }

  /** The re-read after the writes. */
  method Verify(dev: Device, slot: nat, attrs: u64, ghost marked: seq<byte>, ghost i: nat) returns (ok: bool)
    requires Agreed(dev.image, marked) && |marked| == ARRAY_SIZE && IsBoot(marked, slot, i)
    requires attrs == Attributes(marked, i)
    modifies dev`faulted
    ensures !ok ==> dev.faulted
    ensures old(dev.faulted) ==> dev.faulted
  {
    hide Load, NameIs, RangeIs, Attributes;
    BootPresent(marked, slot, i);
    var p := new GptCopy();
    var b := new GptCopy();
    ok := p.LoadFrom(dev, 1, false);
    if ok {
      ok := b.LoadFrom(dev, BackupLba(dev.image), false);
    }
    if !ok {
      return;
    }
    assert p.entries[..] == marked && b.entries[..] == marked;
    var vp := p.FindBoot(slot);
    var vb := b.FindBoot(slot);
    if p.entries[..] != b.entries[..] || vp == None || vb == None {
      return false;
    }
    BootUnique(marked, slot, vp.value, i);
    BootUnique(marked, slot, vb.value, i);
    ok := Attributes(p.entries[..], vp.value) == attrs && Attributes(b.entries[..], vb.value) == attrs;
  }

  lemma CompletedIsRight(before: seq<byte>, slot: nat, i: nat, image: seq<byte>)
    requires Completed(before, slot, i, image)
    ensures var entries := Primary(before).value.entries;
            && IsBoot(MarkEntry(entries, i), slot, i)
            && Attributes(MarkEntry(entries, i), i) == Marked(Attributes(entries, i))
            && Agreed(image, MarkEntry(entries, i))
  {
    hide Load, MarkEntry, Written, Updated;
    AcceptedPair(before, slot, i);
    FinishedIsRight(before, slot, i);
    MarkEntryKeeps(Primary(before).value.entries, slot, i);
  }

  /** Mark both copies, refresh their CRCs and write them. */
  method Rewrite(dev: Device, slot: nat, i: nat, primary: GptCopy, backup: GptCopy, attrs: u64, testing: bool) returns (rc: nat)
    requires dev.Valid() && dev.history == [dev.image] && slot < 2 && Accepted(dev.image, slot, i)
    requires primary.Valid() && backup.Valid() && primary != backup && {primary.header, primary.entries} !! {backup.header, backup.entries}
    requires Primary(dev.image).Some? && Backup(dev.image).Some? && i < ENTRY_COUNT
    requires primary.Value() == Primary(dev.image).value
    requires backup.Value() == Backup(dev.image).value.(entries := Primary(dev.image).value.entries)
    requires attrs == Attributes(Primary(dev.image).value.entries, i)
    requires testing ==> !dev.readOnly
    modifies dev, primary, primary.header, primary.entries, backup, backup.header, backup.entries
    ensures dev.Valid() && old(dev.trace) <= dev.trace
    ensures AllSurvive(old(dev.image), slot, dev.trace, |old(dev.trace)|)
    ensures rc == 0 ==> Completed(old(dev.image), slot, i, dev.image) && dev.history == [dev.image]
    ensures rc == 0 && !testing ==> dev.readOnly
    ensures rc == 0 || dev.faulted
  {
    hide Accepted, AllSurvive, Completed, Load, Refresh, MarkEntry, AlreadyMarked, Attributes, Marked, CrashImage;
    ghost var before := dev.image;
    AcceptedPair(before, slot, i);
    primary.Mark(i);
    backup.Mark(i);
    primary.RefreshCrcs();
    backup.RefreshCrcs();
    assert primary.Value() == NewPrimary(before, slot, i) && backup.Value() == NewBackup(before, slot, i);
    rc := Release(dev, slot, i, Copy(primary.header[..], primary.entries[..], primary.headerLba, primary.entriesLba),
                  Copy(backup.header[..], backup.entries[..], backup.headerLba, backup.entriesLba), Marked(attrs), testing);
  }

  /** `main`; `mark` is false for `--check`, `running` is the slot on the command line. */
  method MarkSlot(dev: Device, slot: nat, mark: bool, testing: bool, running: Option<nat>, unmounted: bool) returns (rc: nat)
    requires dev.Valid() && dev.history == [dev.image] && slot < 2
    requires testing ==> !dev.readOnly
    modifies dev
    ensures dev.Valid() && old(dev.trace) <= dev.trace
    // Whatever is written, a power loss at any point leaves a copy the loader accepts.
    ensures AllSurvive(old(dev.image), slot, dev.trace, |old(dev.trace)|)
    // A check never writes, and a refused disk is never written.
    ensures !mark || (forall i :: !Accepted(old(dev.image), slot, i)) ==> dev.trace == old(dev.trace) && dev.image == old(dev.image)
    // Success means what it says, and the device is sealed again.
    ensures rc == 0 && !mark ==> exists i :: Accepted(old(dev.image), slot, i) && AlreadyMarked(old(dev.image), i)
    ensures rc == 0 && mark ==> exists i :: Completed(old(dev.image), slot, i, dev.image) && dev.history == [dev.image]
    ensures rc == 0 && !testing ==> dev.readOnly
    // The device is only touched for the slot that runs, with none of it mounted.
    ensures !testing && !(running == Some(slot) && unmounted) ==> rc == 1 && dev.trace == old(dev.trace) && dev.image == old(dev.image)
    // Failure has a reason: a failing operation, a guard, an unsealed device, or a disk not accepted.
    ensures rc == 0 || dev.faulted || (!testing && !(old(dev.readOnly) && running == Some(slot) && unmounted))
            || forall i :: Accepted(old(dev.image), slot, i) ==> !mark && !AlreadyMarked(old(dev.image), i)
  {
    hide Accepted, AllSurvive, Completed, Load, Refresh, MarkEntry, AlreadyMarked, Attributes, Marked, CrashImage;
    ghost var before, start := dev.image, |dev.trace|;
    NothingYet(before, slot, dev.trace);
    rc := 1;
    if !testing && (running.None? || !unmounted) {
      return;
    }
    if !testing && running.value != slot {
      return;
    }
    var queried := dev.Open();
    if !queried || (!testing && !dev.readOnly) {
      return;
    }
    var primary := new GptCopy();
    var backup := new GptCopy();
    var found := Examine(dev, slot, primary, backup);
    if found == None {
      return;
    }
    var i := found.value;
    AcceptedPair(before, slot, i);
    var attrs := Attributes(primary.entries[..], i);
    if !mark {
      rc := if Successful(attrs) && !Unbootable(attrs) then 0 else 1;
      OnlyOne(before, slot, i);
      return;
    }
    rc := Rewrite(dev, slot, i, primary, backup, attrs, testing);
  }

  lemma OnlyOne(before: seq<byte>, slot: nat, i: nat)
    requires slot < 2 && Accepted(before, slot, i)
    ensures forall j :: Accepted(before, slot, j) ==> j == i
    ensures AlreadyMarked(before, i) == (Successful(Attributes(Primary(before).value.entries, i)) && !Unbootable(Attributes(Primary(before).value.entries, i)))
  {
    hide Load, Attributes, NameIs, RangeIs;
    forall j | Accepted(before, slot, j)
      ensures j == i
    {
      BootUnique(Primary(before).value.entries, slot, i, j);
    }
  }

  predicate MarkedAttributes(before: seq<byte>, i: nat, attrs: u64) {
    Primary(before).Some? && i < ENTRY_COUNT && attrs == Marked(Attributes(Primary(before).value.entries, i))
  }

  method VerifyCompleted(dev: Device, slot: nat, attrs: u64, ghost before: seq<byte>, ghost i: nat) returns (ok: bool)
    requires Completed(before, slot, i, dev.image) && MarkedAttributes(before, i, attrs)
    modifies dev`faulted
    ensures !ok ==> dev.faulted
    ensures old(dev.faulted) ==> dev.faulted
  {
    hide Load, MarkEntry, Attributes, Marked, Completed, Agreed, IsBoot;
    CompletedIsRight(before, slot, i, dev.image);
    ok := Verify(dev, slot, attrs, MarkEntry(Primary(before).value.entries, i), i);
  }

  /** The four writes, the two flushes and the re-read. */
  method WriteBoth(dev: Device, slot: nat, i: nat, primary: Copy, backup: Copy, attrs: u64) returns (ok: bool)
    requires dev.Valid() && dev.history == [dev.image] && slot < 2 && Accepted(dev.image, slot, i)
    requires primary == NewPrimary(dev.image, slot, i) && backup == NewBackup(dev.image, slot, i)
    requires MarkedAttributes(dev.image, i, attrs)
    modifies dev
    ensures dev.Valid() && old(dev.trace) <= dev.trace && dev.readOnly == old(dev.readOnly)
    ensures AllSurvive(old(dev.image), slot, dev.trace, |old(dev.trace)|)
    ensures ok ==> Completed(old(dev.image), slot, i, dev.image) && dev.history == [dev.image]
    ensures !ok ==> dev.faulted || dev.readOnly
    ensures old(dev.faulted) ==> dev.faulted
  {
    hide *;
    ghost var before := dev.image;
    ok := CommitBackup(dev, backup, slot, i);
    if ok {
      ok := CommitPrimary(dev, primary, before, slot, i, |old(dev.trace)|);
    }
    if ok {
      ok := VerifyCompleted(dev, slot, attrs, before, i);
    }
  }

  /** Unseal, write, verify, seal: `main` from the first `BLKROSET` to `out`. */
  method Release(dev: Device, slot: nat, i: nat, primary: Copy, backup: Copy, attrs: u64, testing: bool) returns (rc: nat)
    requires dev.Valid() && dev.history == [dev.image] && slot < 2 && Accepted(dev.image, slot, i)
    requires primary == NewPrimary(dev.image, slot, i) && backup == NewBackup(dev.image, slot, i)
    requires MarkedAttributes(dev.image, i, attrs)
    requires testing ==> !dev.readOnly
    modifies dev
    ensures dev.Valid() && old(dev.trace) <= dev.trace
    ensures AllSurvive(old(dev.image), slot, dev.trace, |old(dev.trace)|)
    ensures rc == 0 ==> Completed(old(dev.image), slot, i, dev.image) && dev.history == [dev.image]
    ensures rc == 0 && !testing ==> dev.readOnly
    ensures rc == 0 || dev.faulted
  {
    hide *;
    NothingYet(dev.image, slot, dev.trace);
    rc := 1;
    if !testing {
      var unsealed := dev.SetReadOnly(false);
      if !unsealed {
        return;
      }
    }
    var isOpen := dev.Open();
    if isOpen {
      var ok := WriteBoth(dev, slot, i, primary, backup, attrs);
      rc := if ok then 0 else 1;
    }
    if !testing {
      if !isOpen {
        isOpen := dev.Open();
      }
      if isOpen {
        var sealed := dev.SetReadOnly(true);
        if !sealed {
          rc := 1;
        }
      }
    }
  }
}

/** The slot marker byte by byte: which disks it accepts, and the one byte of an entry
    that marking changes. */
module GptLayout {
  import opened Bytes
  import opened Crc32
  import opened Gpt
  import GptUpdate

  // ----- the attributes: eight bytes at offset 48 of an entry

  /** The first six bytes of a 64-bit field, as a number. */
  function LowSix(s: seq<byte>, at: nat): nat
    requires at + 8 <= |s|
  {
    Le32(s, at) + 0x1_0000_0000 * s[at + 4] as int + 0x100_0000_0000 * s[at + 5] as int
  }

  lemma Le64Is(s: seq<byte>, at: nat)
    requires at + 8 <= |s|
    ensures LowSix(s, at) < BIT_48
    ensures Le64(s, at) == LowSix(s, at) + BIT_48 * s[at + 6] as int + BIT_56 * s[at + 7] as int
  {
  }

  lemma Le64Injective(s: seq<byte>, t: seq<byte>, at: nat)
    requires |s| == |t| && at + 8 <= |s| && Le64(s, at) == Le64(t, at)
    ensures forall k :: at <= k < at + 8 ==> s[k] == t[k]
  {
    assert Le32(s, at) == Le32(t, at) && Le32(s, at + 4) == Le32(t, at + 4);
    DigitsDetermine(s[at], s[at + 1], s[at + 2], s[at + 3], t[at], t[at + 1], t[at + 2], t[at + 3]);
    DigitsDetermine(s[at + 4], s[at + 5], s[at + 6], s[at + 7], t[at + 4], t[at + 5], t[at + 6], t[at + 7]);
  }

  /** The number whose byte six is `b` and byte seven `c`. */
  function Assemble(low: nat, b: nat, c: nat): nat {
    low + BIT_48 * b + BIT_56 * c
  }

  lemma SplitSix(low: nat, b: nat, c: nat)
    requires low < BIT_48 && b < 256
    ensures Top(Assemble(low, b, c)) == b / 64 + 4 * c && Below(Assemble(low, b, c)) == low + BIT_48 * (b % 64)
  {
    hide Top, Below;
    var q, r := b / 64, b % 64;
    assert b == 64 * q + r;
    assert Assemble(low, b, c) == (q + 4 * c) * BIT_54 + (low + BIT_48 * r);
    FromTop(q + 4 * c, low + BIT_48 * r);
  }

  lemma ClearedByte(b: nat, c: nat)
    requires b < 256
    ensures Cleared(b / 64 + 4 * c) == 4 * c + 1
  {
    var q := b / 64;
    assert q < 4;
    assert (q + 4 * c) / 4 == c;
  }

  lemma MarkedAssembled(low: nat, b: nat, c: nat)
    requires low < BIT_48 && b < 256 && c < 256
    ensures Assemble(low, b, c) < 0x1_0000_0000_0000_0000
    ensures Marked(Assemble(low, b, c)) == Assemble(low, b % 64 + 64, c)
  {
    hide Top, Below, Cleared, Marked;
    MarkedIs(Assemble(low, b, c));
    SplitSix(low, b, c);
    ClearedByte(b, c);
  }

  /** Marking changes one byte of the array, the one with bits 48 to 55 of the entry's
      attributes: its bit 6 is set, its bit 7 cleared, the other six kept. */
  lemma MarkedByte(entries: seq<byte>, i: nat)
    requires |entries| == 12288 && i < 96
    ensures forall k :: 0 <= k < 12288 ==>
              MarkEntry(entries, i)[k] == if k == 128 * i + 54 then entries[k] % 64 + 64 else entries[k]
  {
    hide Le64, PutLe64, Marked;
    var at := 128 * i + 48;
    var b := entries[at + 6] % 64 + 64;
    var t := entries[at + 6 := b];
    Le64Is(entries, at);
    Le64Is(t, at);
    assert LowSix(t, at) == LowSix(entries, at);
    MarkedAssembled(LowSix(entries, at), entries[at + 6], entries[at + 7]);
    Le64Injective(MarkEntry(entries, i), t, at);
  }

  lemma HighBits(low: nat, b: nat, c: nat)
    requires low < BIT_48 && b < 256 && c < 256
    ensures Assemble(low, b, c) / BIT_48 == b + 256 * c
    ensures Assemble(low, b, c) / BIT_50 == b / 4 + 64 * c
    ensures Assemble(low, b, c) / BIT_51 == b / 8 + 32 * c
    ensures Assemble(low, b, c) / BIT_54 == b / 64 + 4 * c
    ensures Assemble(low, b, c) / BIT_55 == b / 128 + 2 * c
  {
    Quotient(low, b, c, 1, 256);
    Quotient(low, b, c, 4, 64);
    Quotient(low, b, c, 8, 32);
    Quotient(low, b, c, 64, 4);
    Quotient(low, b, c, 128, 2);
  }

  lemma Quotient(low: nat, b: nat, c: nat, d: nat, m: nat)
    requires low < BIT_48 && d > 0 && d * m == 256
    ensures Assemble(low, b, c) / (BIT_48 * d) == b / d + m * c
  {
    var q, r := b / d, b % d;
    assert b == q * d + r;
    assert BIT_56 * c == BIT_48 * d * (m * c) by {
      assert BIT_48 * d * (m * c) == BIT_48 * (d * m) * c;
    }
    assert Assemble(low, b, c) == (BIT_48 * d) * (q + m * c) + (low + BIT_48 * r) by {
      assert BIT_48 * (q * d + r) == BIT_48 * d * q + BIT_48 * r;
      assert (BIT_48 * d) * (q + m * c) == BIT_48 * d * q + BIT_48 * d * (m * c);
    }
    assert low + BIT_48 * r < BIT_48 * d by {
      assert r <= d - 1;
      assert BIT_48 * r <= BIT_48 * (d - 1);
    }
    DivUnique(Assemble(low, b, c), BIT_48 * d, q + m * c, low + BIT_48 * r);
  }

  lemma DivUnique(n: nat, d: nat, q: nat, r: nat)
    requires d > 0 && n == d * q + r && r < d
    ensures n / d == q
  {
    var p, t := n / d, n % d;
    assert n == d * p + t && t < d;
    Scaled(d, p, q);
    Scaled(d, q, p);
  }

  lemma Scaled(d: nat, p: nat, q: nat)
    ensures p >= q || d * p + d <= d * q
  {
    if p < q {
      assert d * (p + 1) <= d * q;
    }
  }

  /** What the boot loader needs to choose an entry, in the byte with bits 48 to 55:
      priority 3 in bits 48 and 49, bit 50, and a try left in bits 51 to 53 or bit 54. */
  lemma LoaderByte(entries: seq<byte>, i: nat)
    requires |entries| == 12288 && i < 96
    ensures var b, a := entries[128 * i + 54], Attributes(entries, i);
            && (ChosenByLoader(a) <==> b % 4 == 3 && b / 4 % 2 == 1 && (b / 8 % 8 != 0 || b / 64 % 2 == 1))
            && (Successful(a) <==> b / 64 % 2 == 1) && (Unbootable(a) <==> b / 128 % 2 == 1)
  {
    hide Le64;
    var at := 128 * i + 48;
    var b, c := entries[at + 6] as nat, entries[at + 7] as nat;
    Le64Is(entries, at);
    HighBits(LowSix(entries, at), b, c);
    Parities(b, c);
  }

  lemma Parities(b: nat, c: nat)
    ensures (b + 256 * c) % 4 == b % 4 && (b / 4 + 64 * c) % 2 == b / 4 % 2 && (b / 8 + 32 * c) % 8 == b / 8 % 8
    ensures (b / 64 + 4 * c) % 2 == b / 64 % 2 && (b / 128 + 2 * c) % 2 == b / 128 % 2
  {
    ModFour(b, 64 * c);
    ModTwo(b / 4, 32 * c);
    ModEight(b / 8, 4 * c);
    ModTwo(b / 64, 2 * c);
    ModTwo(b / 128, c);
  }

  lemma ModTwo(x: nat, y: nat)
    ensures (x + 2 * y) % 2 == x % 2
  {
  }

  lemma ModFour(x: nat, y: nat)
    ensures (x + 4 * y) % 4 == x % 4
  {
  }

  lemma ModEight(x: nat, y: nat)
    ensures (x + 8 * y) % 8 == x % 8
  {
  }

  // ----- accepted disks, in bytes from the start of the disk

  /** The header at byte `at`, in sector `lba`, with its twin in sector `other`. */
  predicate HeaderBytes(disk: seq<byte>, at: nat, lba: nat, other: nat) {
    && at + 4096 <= |disk| && disk[at..at + 8] == Text("EFI PART")
    && Le32(disk, at + 12) == 92 && Le64(disk, at + 24) == lba && Le64(disk, at + 32) == other
    && Le64(disk, at + 40) == 6 && 393258 <= Le64(disk, at + 48) && (Le64(disk, at + 48) + 4) % 0x1_0000_0000_0000_0000 < 713728
    && Le32(disk, at + 80) == 96 && Le32(disk, at + 84) == 128
    && Le32(disk, at + 16) == Crc(disk[at..at + 16] + [0, 0, 0, 0] + disk[at + 20..at + 92])
  }

  /** Entry `i` of the table at byte `table` is named `boot_a` or `boot_b`, in UTF-16. */
  predicate NameBytes(disk: seq<byte>, table: nat, slot: nat, i: nat) {
    && table + 128 * i + 128 <= |disk|
    && disk[table + 128 * i + 56..table + 128 * i + 70] == Utf16(if slot == 0 then "boot_a" else "boot_b")
  }

  /** A text of six characters and the zero behind it. */
  function Utf16(s: string): (b: seq<byte>)
    requires |s| == 6 && forall k :: 0 <= k < 6 ==> s[k] < 128 as char
    ensures |b| == 14
  {
    [s[0] as int, 0, s[1] as int, 0, s[2] as int, 0, s[3] as int, 0, s[4] as int, 0, s[5] as int, 0, 0, 0]
  }

  /** It is the first of the 96 with that name, at its pinned range. */
  predicate BootBytes(disk: seq<byte>, table: nat, slot: nat, i: nat) {
    && i < 96 && table + 12288 <= |disk| && NameBytes(disk, table, slot, i)
    && (forall j :: 0 <= j < i ==> !NameBytes(disk, table, slot, j))
    && Le64(disk, table + 128 * i + 32) == (if slot == 0 then 75014 else 344107)
    && Le64(disk, table + 128 * i + 40) == (if slot == 0 then 124165 else 393258)
  }

  ghost predicate SomeBoot(disk: seq<byte>, table: nat, slot: nat) {
    exists j: nat :: BootBytes(disk, table, slot, j)
  }

  /** The two tables, at bytes `p` and `b`. */
  ghost predicate TableBytes(disk: seq<byte>, p: nat, b: nat, slot: nat, i: nat) {
    && slot < 2 && p + 12288 <= |disk| && BootBytes(disk, p, slot, i) && SomeBoot(disk, p, 1 - slot)
    && SomeBoot(disk, b, slot) && SomeBoot(disk, b, 1 - slot)
    && Le32(disk, 4184) == Crc(disk[p..p + 12288])
    && var v := disk[p + 128 * i + 54];
       v % 4 == 3 && v / 4 % 2 == 1 && (v / 8 % 8 != 0 || v / 64 % 2 == 1)
  }

  /** The two headers: the primary's table is in sector 2 or 3, the backup's between
      the usable area and the header, and they agree on usable area and disk GUID. */
  predicate TwinBytes(disk: seq<byte>) {
    && |disk| == 2923429888 && HeaderBytes(disk, 4096, 1, 713727) && HeaderBytes(disk, 2923425792, 713727, 1)
    && disk[4136..4152] == disk[2923425832..2923425848] && disk[4152..4168] == disk[2923425848..2923425864]
    && 2 <= Le64(disk, 4168) <= 3 && Le64(disk, 2923425840) < Le64(disk, 2923425864) <= 713724
  }

  /** The whole disk, as the tool wants it for `slot` with its entry at `i`. */
  ghost predicate AcceptedBytes(disk: seq<byte>, slot: nat, i: nat) {
    TwinBytes(disk) && TableBytes(disk, 4096 * Le64(disk, 4168), 4096 * Le64(disk, 2923425864), slot, i)
  }

  lemma Le32Of(s: seq<byte>, t: seq<byte>, from: nat, at: nat)
    requires from + |t| <= |s| && s[from..from + |t|] == t && at + 4 <= |t|
    ensures Le32(s, from + at) == Le32(t, at)
  {
    SameByte(s, t, from, at);
    SameByte(s, t, from, at + 1);
    SameByte(s, t, from, at + 2);
    SameByte(s, t, from, at + 3);
  }

  lemma Le64Of(s: seq<byte>, t: seq<byte>, from: nat, at: nat)
    requires from + |t| <= |s| && s[from..from + |t|] == t && at + 8 <= |t|
    ensures Le64(s, from + at) == Le64(t, at)
  {
    hide Le32;
    Le32Of(s, t, from, at);
    Le32Of(s, t, from, at + 4);
  }

  lemma Zeroed(header: seq<byte>)
    requires |header| == 4096
    ensures PutLe32(header, 16, 0)[..92] == header[..16] + [0, 0, 0, 0] + header[20..92]
  {
    assert Le32Bytes(0) == [0, 0, 0, 0];
  }

  /** One header's tests, in bytes of the disk. */
  lemma HeaderIs(disk: seq<byte>, lba: nat, at: nat)
    requires |disk| == 2923429888 && at == 4096 * lba && (lba == 1 || lba == 713727)
    ensures HeaderOk(HeaderOf(disk, lba), 713728, lba)
       <==> HeaderBytes(disk, at, lba, if lba == 1 then 713727 else 1)
            && if lba == 1 then 2 <= Le64(disk, at + 72) <= 3
               else Le64(disk, at + 48) < Le64(disk, at + 72) <= 713724
  {
    hide Le32, Le64, Crc, PutLe32;
    var h := HeaderOf(disk, lba);
    assert disk[at..at + |h|] == h;
    Le32Of(disk, h, at, 12);
    Le32Of(disk, h, at, 16);
    Le32Of(disk, h, at, 80);
    Le32Of(disk, h, at, 84);
    Le64Of(disk, h, at, 24);
    Le64Of(disk, h, at, 32);
    Le64Of(disk, h, at, 40);
    Le64Of(disk, h, at, 48);
    Le64Of(disk, h, at, 72);
    Zeroed(h);
    Pieces(disk, h, at);
    assert SIGNATURE == Text("EFI PART");
  }

  lemma Pieces(disk: seq<byte>, h: seq<byte>, at: nat)
    requires |h| == 4096 && at + 4096 <= |disk| && disk[at..at + |h|] == h
    ensures disk[at..at + 8] == h[..8] && disk[at..at + 16] == h[..16] && disk[at + 20..at + 92] == h[20..92]
    ensures disk[at + 40..at + 56] == h[40..56] && disk[at + 56..at + 72] == h[56..72]
  {
    SamePiece(disk, h, at, 0, 8);
    SamePiece(disk, h, at, 0, 16);
    SamePiece(disk, h, at, 20, 92);
    SamePiece(disk, h, at, 40, 56);
    SamePiece(disk, h, at, 56, 72);
  }

  lemma SamePiece(disk: seq<byte>, h: seq<byte>, at: nat, lo: nat, hi: nat)
    requires lo <= hi <= |h| && at + |h| <= |disk| && disk[at..at + |h|] == h
    ensures disk[at + lo..at + hi] == h[lo..hi]
  {
    var d, p := disk[at + lo..at + hi], h[lo..hi];
    forall k | 0 <= k < |d| ensures d[k] == p[k] {
      assert h[lo + k] == disk[at..at + |h|][lo + k] == disk[at + lo + k];
    }
  }

  lemma NameHere(disk: seq<byte>, e: seq<byte>, table: nat, slot: nat, i: nat)
    requires slot < 2 && i < 96 && |e| == 12288 && table + 12288 <= |disk| && disk[table..table + 12288] == e
    ensures NameBytes(disk, table, slot, i) <==> NameIs(e, i, Name(slot))
  {
    hide NameIs, Name, Utf16;
    var at := 128 * i + 56;
    SamePiece(disk, e, table, at, at + 14);
    Spread(e, i, Name(slot), e[at..at + 14]);
    NameText(slot);
  }

  lemma NameText(slot: nat)
    requires slot < 2
    ensures var n := Name(slot);
            Utf16(if slot == 0 then "boot_a" else "boot_b") == [n[0], 0, n[1], 0, n[2], 0, n[3], 0, n[4], 0, n[5], 0, 0, 0]
  {
  }

  lemma Spread(e: seq<byte>, i: nat, n: seq<byte>, w: seq<byte>)
    requires |n| == 6 && |e| == 12288 && i < 96 && w == e[128 * i + 56..128 * i + 70]
    ensures NameIs(e, i, n) <==> w == [n[0], 0, n[1], 0, n[2], 0, n[3], 0, n[4], 0, n[5], 0, 0, 0]
  {
    var at := 128 * i + 56;
    if NameIs(e, i, n) {
      assert w[2 * 0] == e[at + 2 * 0] && w[2 * 1] == e[at + 2 * 1] && w[2 * 2] == e[at + 2 * 2];
      assert w[2 * 3] == e[at + 2 * 3] && w[2 * 4] == e[at + 2 * 4] && w[2 * 5] == e[at + 2 * 5];
    }
    if w == [n[0], 0, n[1], 0, n[2], 0, n[3], 0, n[4], 0, n[5], 0, 0, 0] {
      forall k | 0 <= k < 6 ensures e[at + 2 * k] == n[k] && e[at + 2 * k + 1] == 0 {
        assert w[2 * k] == e[at + 2 * k] && w[2 * k + 1] == e[at + 2 * k + 1];
      }
      assert w[12] == e[at + 12] && w[13] == e[at + 13];
    }
  }

  /** An entry's tests, in bytes of the disk. */
  lemma BootIs(disk: seq<byte>, e: seq<byte>, table: nat, slot: nat, i: nat)
    requires slot < 2 && |e| == 12288 && table + 12288 <= |disk| && disk[table..table + 12288] == e
    ensures BootBytes(disk, table, slot, i) <==> IsBoot(e, slot, i)
  {
    hide NameBytes, NameIs, Le64, Name;
    if i < 96 {
      forall j | 0 <= j <= i ensures NameBytes(disk, table, slot, j) <==> NameIs(e, j, Name(slot)) {
        NameHere(disk, e, table, slot, j);
      }
      Le64Of(disk, e, table, 128 * i + 32);
      Le64Of(disk, e, table, 128 * i + 40);
    }
  }

  lemma AnyBootIs(disk: seq<byte>, e: seq<byte>, table: nat, slot: nat)
    requires slot < 2 && |e| == 12288 && table + 12288 <= |disk| && disk[table..table + 12288] == e
    ensures SomeBoot(disk, table, slot) <==> GptUpdate.HasBoot(e, slot)
  {
    hide BootBytes, IsBoot;
    forall j: nat ensures BootBytes(disk, table, slot, j) <==> IsBoot(e, slot, j) {
      BootIs(disk, e, table, slot, j);
    }
    if GptUpdate.HasBoot(e, slot) {
      var j: nat :| j < 96 && IsBoot(e, slot, j);
      assert BootBytes(disk, table, slot, j);
    }
    if j: nat :| BootBytes(disk, table, slot, j) {
      BootInRange(e, slot, j);
    }
  }

  lemma BootInRange(e: seq<byte>, slot: nat, j: nat)
    requires |e| == 12288 && IsBoot(e, slot, j)
    ensures j < 96
  {
  }

  lemma LoadsTwin(disk: seq<byte>)
    requires |disk| == 2923429888
    ensures TwinBytes(disk) <==>
            && HeaderOk(HeaderOf(disk, 1), 713728, 1) && HeaderOk(HeaderOf(disk, 713727), 713728, 713727)
            && HeaderOf(disk, 1)[40..56] == HeaderOf(disk, 713727)[40..56] && HeaderOf(disk, 1)[56..72] == HeaderOf(disk, 713727)[56..72]
  {
    hide HeaderOk, HeaderBytes, Le64;
    HeaderIs(disk, 1, 4096);
    HeaderIs(disk, 713727, 2923425792);
    assert disk[4096..4096 + 4096] == HeaderOf(disk, 1) && disk[2923425792..2923425792 + 4096] == HeaderOf(disk, 713727);
    Pieces(disk, HeaderOf(disk, 1), 4096);
    Pieces(disk, HeaderOf(disk, 713727), 2923425792);
  }

  lemma TableIs(disk: seq<byte>, p: seq<byte>, b: seq<byte>, atP: nat, atB: nat, slot: nat, i: nat)
    requires slot < 2 && |p| == 12288 && |b| == 12288 && atP + 12288 <= |disk| && atB + 12288 <= |disk| && 4188 <= |disk|
    requires disk[atP..atP + 12288] == p && disk[atB..atB + 12288] == b
    ensures TableBytes(disk, atP, atB, slot, i) <==>
            && IsBoot(p, slot, i) && GptUpdate.HasBoot(p, 1 - slot) && GptUpdate.HasBoot(b, slot) && GptUpdate.HasBoot(b, 1 - slot)
            && Le32(disk, 4184) == Crc(p) && ChosenByLoader(Attributes(p, i))
  {
    hide BootBytes, SomeBoot, IsBoot, GptUpdate.HasBoot, Crc, Le32, ChosenByLoader, Attributes;
    BootIs(disk, p, atP, slot, i);
    AnyBootIs(disk, p, atP, 1 - slot);
    AnyBootIs(disk, b, atB, slot);
    AnyBootIs(disk, b, atB, 1 - slot);
    if IsBoot(p, slot, i) {
      BootInRange(p, slot, i);
      LoaderByte(p, i);
      SameByte(disk, p, atP, 128 * i + 54);
    }
  }

  lemma SameByte(disk: seq<byte>, e: seq<byte>, table: nat, k: nat)
    requires table + |e| <= |disk| && disk[table..table + |e|] == e && k < |e|
    ensures disk[table + k] == e[k]
  {
    assert disk[table..table + |e|][k] == disk[table + k];
  }

  lemma LoadIs(disk: seq<byte>, lba: nat, allowStale: bool)
    requires |disk| == 2923429888 && (lba == 1 || lba == 713727)
    ensures Load(disk, lba, allowStale).Some? ==> HeaderOk(HeaderOf(disk, lba), 713728, lba)
    ensures HeaderOk(HeaderOf(disk, lba), 713728, lba) ==>
              var h := HeaderOf(disk, lba);
              && EntriesLba(h) * SECTOR + ARRAY_SIZE <= |disk|
              && (Load(disk, lba, allowStale).Some? <==> allowStale || Crc(EntriesOf(disk, EntriesLba(h))) == Le32(h, 88))
              && (Load(disk, lba, allowStale).Some? ==>
                    Load(disk, lba, allowStale).value == Copy(h, EntriesOf(disk, EntriesLba(h)), lba, EntriesLba(h)))
  {
    hide HeaderOk, Crc, EntriesLba, Le32;
    if HeaderOk(HeaderOf(disk, lba), 713728, lba) {
      EntriesInside(disk, lba);
    }
  }

  /** Exactly the disks the tool goes on with, for both slots. */
  lemma AcceptedIs(disk: seq<byte>, slot: nat, i: nat)
    requires slot < 2
    ensures GptUpdate.Accepted(disk, slot, i) <==> AcceptedBytes(disk, slot, i)
  {
    hide Load, HeaderOk, Crc, EntriesLba, Le32, Le64, TwinBytes, TableBytes, IsBoot, GptUpdate.HasBoot, ChosenByLoader, Attributes, EntriesOf, HeaderOf;
    if |disk| == 2923429888 {
      LoadIs(disk, 1, false);
      LoadIs(disk, 713727, true);
      LoadsTwin(disk);
      if TwinBytes(disk) {
        Tables(disk);
        var p, b := EntriesOf(disk, EntriesLba(HeaderOf(disk, 1))), EntriesOf(disk, EntriesLba(HeaderOf(disk, 713727)));
        EntriesAt(disk, Le64(disk, 4168));
        EntriesAt(disk, Le64(disk, 2923425864));
        TableIs(disk, p, b, 4096 * Le64(disk, 4168), 4096 * Le64(disk, 2923425864), slot, i);
      }
    } else {
      TwinSize(disk);
    }
  }

  lemma EntriesAt(disk: seq<byte>, lba: nat)
    requires lba * SECTOR + ARRAY_SIZE <= |disk|
    ensures EntriesOf(disk, lba) == disk[4096 * lba..4096 * lba + 12288]
  {
  }

  lemma TwinSize(disk: seq<byte>)
    ensures TwinBytes(disk) ==> |disk| == 2923429888
  {
    hide HeaderBytes;
  }

  lemma Tables(disk: seq<byte>)
    requires |disk| == 2923429888
    ensures EntriesLba(HeaderOf(disk, 1)) == Le64(disk, 4168) && EntriesLba(HeaderOf(disk, 713727)) == Le64(disk, 2923425864)
    ensures Le32(HeaderOf(disk, 1), 88) == Le32(disk, 4184)
  {
    hide Le32, Le64;
    var h, t := HeaderOf(disk, 1), HeaderOf(disk, 713727);
    assert disk[4096..4096 + |h|] == h && disk[2923425792..2923425792 + |t|] == t;
    Le64Of(disk, h, 4096, 72);
    Le64Of(disk, t, 2923425792, 72);
    Le32Of(disk, h, 4096, 88);
  }
}

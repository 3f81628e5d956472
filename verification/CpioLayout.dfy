/** Where a newc archive keeps what: the bytes of a written record, and what the
    reader makes of a record with such bytes. */
module CpioLayout {
  import opened Bytes
  import opened Cpio

  // ----- eight hexadecimal digits

  /** `b` is a way to write the digit `d`. */
  predicate Spells(b: byte, d: nat)
    requires d < 16
  {
    b == "0123456789abcdef"[d] as int || b == "0123456789ABCDEF"[d] as int
  }

  /** The eight bytes at `at` are the hexadecimal digits of `v`. */
  predicate Spelled(data: seq<byte>, at: nat, v: nat) {
    && at + 8 <= |data| && v < 0x1_0000_0000
    && Spells(data[at], v / 0x1000_0000 % 16) && Spells(data[at + 1], v / 0x100_0000 % 16)
    && Spells(data[at + 2], v / 0x10_0000 % 16) && Spells(data[at + 3], v / 0x1_0000 % 16)
    && Spells(data[at + 4], v / 0x1000 % 16) && Spells(data[at + 5], v / 0x100 % 16)
    && Spells(data[at + 6], v / 0x10 % 16) && Spells(data[at + 7], v % 16)
  }

  lemma DigitSpells(b: byte, d: nat)
    requires d < 16
    ensures DigitValue(b) == Some(d) <==> Spells(b, d)
  {
    var low, high := "0123456789abcdef", "0123456789ABCDEF";
    if d < 8 {
      assert (low[0], low[1], low[2], low[3], low[4], low[5], low[6], low[7]) == ('0', '1', '2', '3', '4', '5', '6', '7');
    }
  }

  function Horner(s: seq<nat>): nat {
    if s == [] then 0 else 16 * Horner(s[..|s| - 1]) + s[|s| - 1]
  }

  lemma {:induction false} ParsedDigits(s: seq<byte>) returns (d: seq<nat>)
    requires ParseHex(s).Some?
    ensures |d| == |s| && Horner(d) == ParseHex(s).value
    ensures forall i :: 0 <= i < |s| ==> d[i] < 16 && DigitValue(s[i]) == Some(d[i])
  {
    hide DigitValue;
    if s == [] {
      d := [];
    } else {
      var e := ParsedDigits(s[..|s| - 1]);
      DigitBound(s[|s| - 1]);
      d := e + [DigitValue(s[|s| - 1]).value];
      assert d[..|d| - 1] == e;
    }
  }

  lemma DigitBound(b: byte)
    ensures DigitValue(b).Some? ==> DigitValue(b).value < 16
  {
  }

  lemma {:induction false} DigitsParse(s: seq<byte>, d: seq<nat>)
    requires |d| == |s| && forall i :: 0 <= i < |s| ==> DigitValue(s[i]) == Some(d[i])
    ensures ParseHex(s) == Some(Horner(d))
  {
    hide DigitValue;
    if s != [] {
      DigitsParse(s[..|s| - 1], d[..|d| - 1]);
    }
  }

  lemma LastDigit(d: seq<nat>)
    requires d != [] && d[|d| - 1] < 16
    ensures Horner(d) % 16 == d[|d| - 1] && Horner(d) / 16 == Horner(d[..|d| - 1])
  {
  }

  lemma Quotients(v: nat)
    ensures v / 0x10 / 16 == v / 0x100 && v / 0x100 / 16 == v / 0x1000 && v / 0x1000 / 16 == v / 0x1_0000
    ensures v / 0x1_0000 / 16 == v / 0x10_0000 && v / 0x10_0000 / 16 == v / 0x100_0000 && v / 0x100_0000 / 16 == v / 0x1000_0000
  {
  }

  function Places(v: nat): (d: seq<nat>)
    ensures |d| == 8
  {
    [v / 0x1000_0000 % 16, v / 0x100_0000 % 16, v / 0x10_0000 % 16, v / 0x1_0000 % 16,
     v / 0x1000 % 16, v / 0x100 % 16, v / 0x10 % 16, v % 16]
  }

  lemma PlacesOf(d: seq<nat>)
    requires |d| == 8 && forall i :: 0 <= i < 8 ==> d[i] < 16
    ensures d == Places(Horner(d))
  {
    hide Horner;
    var v := Horner(d);
    LastDigit(d);
    LastDigit(d[..7]);
    LastDigit(d[..6]);
    LastDigit(d[..5]);
    LastDigit(d[..4]);
    LastDigit(d[..3]);
    LastDigit(d[..2]);
    LastDigit(d[..1]);
    assert d[..7][..6] == d[..6] && d[..6][..5] == d[..5] && d[..5][..4] == d[..4] && d[..4][..3] == d[..3] && d[..3][..2] == d[..2] && d[..2][..1] == d[..1];
    Quotients(v);
  }

  lemma NoHorner(d: seq<nat>)
    ensures Horner(d[..0]) == 0
  {
  }

  lemma SmallQuotient(v: nat)
    requires v < 0x1_0000_0000
    ensures v / 0x1000_0000 % 16 == v / 0x1000_0000
  {
  }

  lemma HornerOf(v: nat)
    requires v < 0x1_0000_0000
    ensures Horner(Places(v)) == v
  {
    hide Horner;
    var d := Places(v);
    Quotients(v);
    SmallQuotient(v);
    NoHorner(d);
    NextPlace(d, 1);
    NextPlace(d, 2);
    NextPlace(d, 3);
    NextPlace(d, 4);
    NextPlace(d, 5);
    NextPlace(d, 6);
    NextPlace(d, 7);
    NextPlace(d, 8);
    assert d[..8] == d;
  }

  lemma NextPlace(d: seq<nat>, n: nat)
    requires 0 < n <= |d|
    ensures Horner(d[..n]) == 16 * Horner(d[..n - 1]) + d[n - 1]
  {
    assert d[..n][..n - 1] == d[..n - 1];
  }

  /** A field holds a number exactly if it spells it. */
  lemma FieldSpells(data: seq<byte>, at: nat, v: u32)
    ensures FieldAt(data, at) == Some(v) <==> Spelled(data, at, v)
  {
    hide Horner, ParseHex, DigitValue, Spells, Places;
    if at + 8 <= |data| {
      var s := data[at..at + 8];
      if FieldAt(data, at) == Some(v) {
        var d := ParsedDigits(s);
        PlacesOf(d);
        SpellsPlaces(data, at, v);
      }
      if Spelled(data, at, v) {
        SpellsPlaces(data, at, v);
        HornerOf(v);
        DigitsParse(s, Places(v));
      }
    }
  }

  lemma PlacesAre(v: nat)
    ensures var p := Places(v);
            && p[0] == v / 0x1000_0000 % 16 && p[1] == v / 0x100_0000 % 16 && p[2] == v / 0x10_0000 % 16 && p[3] == v / 0x1_0000 % 16
            && p[4] == v / 0x1000 % 16 && p[5] == v / 0x100 % 16 && p[6] == v / 0x10 % 16 && p[7] == v % 16
  {
  }

  lemma SpellsPlaces(data: seq<byte>, at: nat, v: u32)
    requires at + 8 <= |data|
    ensures Spelled(data, at, v) <==> forall i :: 0 <= i < 8 ==> DigitValue(data[at..at + 8][i]) == Some(Places(v)[i])
  {
    hide DigitValue, Spells, Places;
    PlacesAre(v);
    var s := data[at..at + 8];
    DigitSpells(data[at], v / 0x1000_0000 % 16);
    DigitSpells(data[at + 1], v / 0x100_0000 % 16);
    DigitSpells(data[at + 2], v / 0x10_0000 % 16);
    DigitSpells(data[at + 3], v / 0x1_0000 % 16);
    DigitSpells(data[at + 4], v / 0x1000 % 16);
    DigitSpells(data[at + 5], v / 0x100 % 16);
    DigitSpells(data[at + 6], v / 0x10 % 16);
    DigitSpells(data[at + 7], v % 16);
    assert s[0] == data[at] && s[1] == data[at + 1] && s[2] == data[at + 2] && s[3] == data[at + 3];
    assert s[4] == data[at + 4] && s[5] == data[at + 5] && s[6] == data[at + 6] && s[7] == data[at + 7];
    if Spelled(data, at, v) {
      forall i | 0 <= i < 8 ensures DigitValue(s[i]) == Some(Places(v)[i]) {
        assert i < 4 || i == 4 || i == 5 || i == 6 || i == 7;
        assert i < 4 ==> i == 0 || i == 1 || i == 2 || i == 3;
      }
    }
  }

  // ----- what the writer puts where

  /** The header at `off` is that of an entry. */
  predicate HeaderBytes(data: seq<byte>, off: nat, inode: nat, mode: nat, uid: nat, gid: nat, size: nat,
                        major: nat, minor: nat, nameSize: nat)
  {
    && off + 110 <= |data| && data[off..off + 6] == Text("070701")
    && Spelled(data, off + 6, inode) && Spelled(data, off + 14, mode) && Spelled(data, off + 22, uid) && Spelled(data, off + 30, gid)
    && Spelled(data, off + 38, 1) && Spelled(data, off + 46, 0) && Spelled(data, off + 54, size)
    && Spelled(data, off + 62, 0) && Spelled(data, off + 70, 0) && Spelled(data, off + 78, major) && Spelled(data, off + 86, minor)
    && Spelled(data, off + 94, nameSize) && Spelled(data, off + 102, 0)
  }

  lemma Constants()
    ensures MAGIC == Text("070701") && TRAILER == Text("TRAILER!!!") && DOT == Text(".") && DOT_DOT == Text("..")
  {
  }

  lemma {:induction false} FieldsAre(data: seq<byte>, at: nat, values: seq<u32>, k: nat)
    requires FieldsAt(data, at, |values|) == Some(values) && k < |values|
    ensures FieldAt(data, at + 8 * k) == Some(values[k])
    decreases k
  {
    hide FieldAt;
    if k > 0 {
      FieldsAre(data, at + 8, values[1..], k - 1);
    }
  }

  lemma {:induction false} FieldsFrom(data: seq<byte>, at: nat, values: seq<u32>)
    requires forall k :: 0 <= k < |values| ==> FieldAt(data, at + 8 * k) == Some(values[k])
    ensures FieldsAt(data, at, |values|) == Some(values)
    decreases |values|
  {
    hide FieldAt;
    if values != [] {
      assert FieldAt(data, at + 8 * 0) == Some(values[0]);
      forall k | 0 <= k < |values| - 1 ensures FieldAt(data, at + 8 + 8 * k) == Some(values[1..][k]) {
        assert FieldAt(data, at + 8 * (k + 1)) == Some(values[k + 1]);
      }
      FieldsFrom(data, at + 8, values[1..]);
      assert [values[0]] + values[1..] == values;
    }
  }

  lemma HeaderLayout(data: seq<byte>, off: nat, inode: nat, e: Entry, n: nat)
    requires inode < U32 && |e.data| < U32 && n + 1 < U32
    requires off + 110 <= |data| && Slice(data, off, off + 6) == MAGIC && FieldsAt(data, off + 6, 13) == Some(Values(inode, e, n))
    ensures HeaderBytes(data, off, inode, e.mode, e.uid, e.gid, |e.data|, e.rdevMajor, e.rdevMinor, n + 1)
  {
    hide FieldAt, FieldsAt, Spelled;
    Constants();
    var v := Values(inode, e, n);
    forall k | 0 <= k < 13 ensures Spelled(data, off + 6 + 8 * k, v[k]) {
      FieldsAre(data, off + 6, v, k);
      FieldSpells(data, off + 6 + 8 * k, v[k]);
    }
    assert Spelled(data, off + 6 + 8 * 0, v[0]) && Spelled(data, off + 6 + 8 * 1, v[1]) && Spelled(data, off + 6 + 8 * 2, v[2]);
    assert Spelled(data, off + 6 + 8 * 3, v[3]) && Spelled(data, off + 6 + 8 * 4, v[4]) && Spelled(data, off + 6 + 8 * 5, v[5]);
    assert Spelled(data, off + 6 + 8 * 6, v[6]) && Spelled(data, off + 6 + 8 * 7, v[7]) && Spelled(data, off + 6 + 8 * 8, v[8]);
    assert Spelled(data, off + 6 + 8 * 9, v[9]) && Spelled(data, off + 6 + 8 * 10, v[10]) && Spelled(data, off + 6 + 8 * 11, v[11]);
    assert Spelled(data, off + 6 + 8 * 12, v[12]);
  }

  lemma PaddedBytes(data: seq<byte>, at: nat, s: seq<byte>)
    requires At(data, at, Padded(s))
    ensures at + (|s| + 3) / 4 * 4 <= |data| && |Padded(s)| == (|s| + 3) / 4 * 4
    ensures data[at..at + |s|] == s && forall i :: at + |s| <= i < at + (|s| + 3) / 4 * 4 ==> data[i] == 0
  {
    PaddedAt(data, at, s);
    var p := Padded(s);
    forall i | at + |s| <= i < at + |p| ensures data[i] == 0 {
      assert data[at..at + |p|][i - at] == p[i - at];
    }
  }

  /** Header, name, NUL and zeros at the head of a record. */
  lemma HeadLayout(data: seq<byte>, off: nat, inode: nat, name: Name, e: Entry)
    requires off % 4 == 0 && inode < U32 && Storable(name, e) && At(data, off, Head(inode, name, e))
    ensures HeaderBytes(data, off, inode, e.mode, e.uid, e.gid, |e.data|, e.rdevMajor, e.rdevMinor, Chars(name) + 1)
    ensures var body := off + (110 + |name| + 1 + 3) / 4 * 4;
            && body == off + |Head(inode, name, e)| <= |data|
            && off + 110 + |name| < body && data[off + 110..off + 110 + |name|] == name
            && forall i :: off + 110 + |name| <= i < body ==> data[i] == 0
  {
    hide Header, Head, FieldsAt, Values, ValidUtf8, Chars, HeaderBytes, Padded;
    HeadParses(data, off, inode, name, e);
    CharsIffAscii(name);
    HeaderLayout(data, off, inode, e, Chars(name));
    HeadShape(data, off, inode, name, e);
    ValuesFit(inode, name, e);
    HeaderParses(data, off, inode, e, Chars(name));
    HeadPadding(data, off, inode, name, e);
  }

  lemma HeadPadding(data: seq<byte>, off: nat, inode: nat, name: Name, e: Entry)
    requires At(data, off, Head(inode, name, e)) && At(data, off + 110, name + [0])
    requires |Header(inode, e, Chars(name))| == 110
    ensures off + |Head(inode, name, e)| <= |data|
    ensures data[off + 110..off + 110 + |name|] == name
    ensures forall i :: off + 110 + |name| <= i < off + |Head(inode, name, e)| ==> data[i] == 0
  {
    hide Header, Values, Chars;
    var text := Header(inode, e, Chars(name)) + (name + [0]);
    PaddedBytes(data, off, text);
    assert data[off + 110..off + 110 + |name| + 1] == name + [0];
    assert data[off + 110..off + 110 + |name|] == (name + [0])[..|name|];
    assert data[off + 110 + |name|] == (name + [0])[|name|];
  }

  /** A written record, byte by byte: the header's fields, the name with its NUL,
      zeros up to the next multiple of four, the data, and zeros again. */
  lemma RecordLayout(data: seq<byte>, off: nat, inode: nat, name: Name, e: Entry)
    requires off % 4 == 0 && inode < U32 && Storable(name, e) && At(data, off, Record(inode, name, e))
    ensures HeaderBytes(data, off, inode, e.mode, e.uid, e.gid, |e.data|, e.rdevMajor, e.rdevMinor, Chars(name) + 1)
    ensures var body := off + (110 + |name| + 1 + 3) / 4 * 4;
            && off + 110 + |name| < body <= |data| && data[off + 110..off + 110 + |name|] == name
            && (forall i :: off + 110 + |name| <= i < body ==> data[i] == 0)
            && body + |e.data| <= |data| && data[body..body + |e.data|] == e.data
            && off + |Record(inode, name, e)| == body + (|e.data| + 3) / 4 * 4 <= |data|
            && forall i :: body + |e.data| <= i < off + |Record(inode, name, e)| ==> data[i] == 0
  {
    hide HeaderBytes, Head, Chars, ValidUtf8, Padded;
    AtSplit(data, off, Head(inode, name, e), Padded(e.data));
    HeadLayout(data, off, inode, name, e);
    PaddedBytes(data, off + |Head(inode, name, e)|, e.data);
  }

  // ----- what the reader makes of such bytes

  /** Any record whose header spells these numbers, whatever it says of inode, links,
      time and devices, is read as this entry. */
  lemma RecordRead(data: seq<byte>, off: nat, other: seq<u32>, mode: u32, uid: u32, gid: u32, size: u32,
                   major: u32, minor: u32, name: Name, acc: Entries)
    requires off + 110 + |name| + 1 <= |data| && |name| + 1 < U32 && data[off..off + 6] == Text("070701") && |other| == 6
    requires Spelled(data, off + 6, other[0]) && Spelled(data, off + 14, mode) && Spelled(data, off + 22, uid) && Spelled(data, off + 30, gid)
    requires Spelled(data, off + 38, other[1]) && Spelled(data, off + 46, other[2]) && Spelled(data, off + 54, size)
    requires Spelled(data, off + 62, other[3]) && Spelled(data, off + 70, other[4]) && Spelled(data, off + 78, major) && Spelled(data, off + 86, minor)
    requires Spelled(data, off + 94, |name| + 1) && Spelled(data, off + 102, other[5])
    requires data[off + 110..off + 110 + |name|] == name && data[off + 110 + |name|] == 0 && ValidUtf8(name) && Regular(name)
    ensures var body := (off + 110 + |name| + 1 + 3) / 4 * 4;
            var e := Entry(mode := mode, uid := uid, gid := gid, rdevMajor := major, rdevMinor := minor, data := Slice(data, body, body + size));
            LoadFrom(data, off, acc) == LoadFrom(data, (body + size + 3) / 4 * 4, acc[name := e])
  {
    hide FieldsAt, LoadFrom, Spelled, ValidUtf8, NameIn, Regular;
    var f: seq<u32> := [other[0], mode, uid, gid, other[1], other[2], size, other[3], other[4], major, minor, |name| + 1, other[5]];
    HeaderFields(data, off, f);
    Constants();
    var body := Align4(off + 110 + |name| + 1);
    assert Slice(data, off + 110, off + 110 + |name| + 1) == name + [0];
    RegularIs(name);
    StripTerminator(name);
    EntryTurn(data, off, f, name, body, EntryFrom(f, Slice(data, body, body + size)), acc);
  }

  lemma RegularIs(name: Name)
    requires Regular(name)
    ensures Terminated(name)
  {
  }

  lemma HeaderFields(data: seq<byte>, off: nat, f: seq<u32>)
    requires |f| == 13
    requires Spelled(data, off + 6, f[0]) && Spelled(data, off + 14, f[1]) && Spelled(data, off + 22, f[2]) && Spelled(data, off + 30, f[3])
    requires Spelled(data, off + 38, f[4]) && Spelled(data, off + 46, f[5]) && Spelled(data, off + 54, f[6])
    requires Spelled(data, off + 62, f[7]) && Spelled(data, off + 70, f[8]) && Spelled(data, off + 78, f[9]) && Spelled(data, off + 86, f[10])
    requires Spelled(data, off + 94, f[11]) && Spelled(data, off + 102, f[12])
    ensures FieldsAt(data, off + 6, 13) == Some(f)
  {
    hide Spelled, FieldAt, FieldsAt;
    forall k | 0 <= k < 13 ensures FieldAt(data, off + 6 + 8 * k) == Some(f[k]) {
      assert k < 7 ==> k == 0 || k == 1 || k == 2 || k == 3 || k == 4 || k == 5 || k == 6;
      assert k >= 7 ==> k == 7 || k == 8 || k == 9 || k == 10 || k == 11 || k == 12;
      FieldSpells(data, off + 6 + 8 * k, f[k]);
    }
    FieldsFrom(data, off + 6, f);
  }

  // ----- whole archives

  lemma {:induction false} NthRecord(names: seq<Name>, entries: Entries, inode: nat, k: nat) returns (off: nat)
    requires inode + |names| < U32 && k < |names| && forall n :: n in names ==> n in entries && Storable(n, entries[n])
    ensures off % 4 == 0 && At(DumpNames(names, entries, inode), off, Record(inode + k, names[k], entries[names[k]]))
    decreases k
  {
    hide Storable, DumpNames, Record, At, Align4;
    var first := Record(inode, names[0], entries[names[0]]);
    var rest := DumpNames(names[1..], entries, inode + 1);
    DumpCons(names, entries, inode);
    WholeAt(first + rest);
    AtSplit(first + rest, 0, first, rest);
    if k == 0 {
      off := 0;
    } else {
      var at := NthRecord(names[1..], entries, inode + 1, k - 1);
      WholeRecords(inode, names[0], entries[names[0]]);
      off := |first| + at;
      Inside(first, rest, at, Record(inode + k, names[k], entries[names[k]]));
    }
  }

  lemma WholeRecords(inode: nat, name: Name, e: Entry)
    requires inode < U32 && Storable(name, e)
    ensures |Record(inode, name, e)| % 4 == 0
  {
    hide Record, Storable;
    RecordLength(inode, name, e);
  }

  lemma Inside(a: seq<byte>, b: seq<byte>, at: nat, s: seq<byte>)
    requires At(b, at, s)
    ensures At(a + b, |a| + at, s)
  {
    assert (a + b)[|a| + at..|a| + at + |s|] == b[at..at + |s|];
  }

  lemma {:induction false} LastRecord(names: seq<Name>, entries: Entries, inode: nat) returns (off: nat)
    requires inode + |names| < U32 && forall n :: n in names ==> n in entries && Storable(n, entries[n])
    ensures off % 4 == 0 && At(DumpNames(names, entries, inode), off, Head(inode + |names|, TRAILER, END))
    ensures |DumpNames(names, entries, inode)| == off + |Head(inode + |names|, TRAILER, END)|
    decreases |names|
  {
    hide Storable, DumpNames, Record, Head, At;
    if names == [] {
      DumpEnd(entries, inode);
      WholeAt(Head(inode, TRAILER, END));
      off := 0;
    } else {
      var first := Record(inode, names[0], entries[names[0]]);
      var rest := DumpNames(names[1..], entries, inode + 1);
      DumpCons(names, entries, inode);
      var at := LastRecord(names[1..], entries, inode + 1);
      WholeRecords(inode, names[0], entries[names[0]]);
      off := |first| + at;
      Inside(first, rest, at, Head(inode + |names|, TRAILER, END));
    }
  }

  /** Every entry has its record in the archive, numbered from 300000 in byte order of
      the names, with its own fields in the header. */
  lemma DumpLayout(entries: Entries, k: nat) returns (off: nat)
    requires Dumpable(entries) && k < |entries|
    ensures var name := Sorted(entries.Keys)[k];
            var e := entries[name];
            && off % 4 == 0 && At(Dump(entries), off, Record(300000 + k, name, e))
            && HeaderBytes(Dump(entries), off, 300000 + k, e.mode, e.uid, e.gid, |e.data|, e.rdevMajor, e.rdevMinor, Chars(name) + 1)
  {
    hide Storable, DumpNames, Record, Sorted, HeaderBytes, Chars, Less;
    var names := Sorted(entries.Keys);
    assert |names| == |entries.Keys| == |entries|;
    off := NthRecord(names, entries, FIRST_INODE, k);
    RecordLayout(Dump(entries), off, FIRST_INODE + k, names[k], entries[names[k]]);
  }

  /** The trailer's record, with which `data` ends. */
  predicate TrailerBytes(data: seq<byte>, off: nat, inode: nat) {
    && |data| == off + 124 && HeaderBytes(data, off, inode, 0x1ed, 0, 0, 0, 0, 0, 11)
    && data[off + 110..off + 120] == Text("TRAILER!!!")
    && data[off + 120] == 0 && data[off + 121] == 0 && data[off + 122] == 0 && data[off + 123] == 0
  }

  lemma TrailerLayout(data: seq<byte>, off: nat, inode: nat)
    requires off % 4 == 0 && inode < U32 && At(data, off, Head(inode, TRAILER, END)) && |data| == off + |Head(inode, TRAILER, END)|
    ensures TrailerBytes(data, off, inode)
  {
    hide Head, HeaderBytes, Chars, Ascii, ValidUtf8;
    TrailerName();
    Constants();
    CharsIffAscii(TRAILER);
    HeadLayout(data, off, inode, TRAILER, END);
  }

  /** The archive ends in the trailer's record. */
  lemma DumpTrailer(entries: Entries) returns (off: nat)
    requires Dumpable(entries)
    ensures off % 4 == 0 && TrailerBytes(Dump(entries), off, 300000 + |entries|)
  {
    hide Storable, DumpNames, Head, Sorted, TrailerBytes, Less;
    var names := Sorted(entries.Keys);
    assert |names| == |entries.Keys| == |entries|;
    off := LastRecord(names, entries, FIRST_INODE);
    TrailerLayout(Dump(entries), off, FIRST_INODE + |names|);
  }
}

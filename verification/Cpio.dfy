/** The newc archive reader and writer of tools/patch-android-boot-ksu.py.
    A name is the UTF-8 encoding of the Python string. */
module Cpio {
  import opened Bytes

  type Name = seq<byte>

  datatype Entry = Entry(mode: u32, uid: u32, gid: u32, rdevMajor: u32, rdevMinor: u32, data: seq<byte>)

  type Entries = map<Name, Entry>

  const MAGIC: seq<byte> := [0x30, 0x37, 0x30, 0x37, 0x30, 0x31]
  const TRAILER: Name := [0x54, 0x52, 0x41, 0x49, 0x4c, 0x45, 0x52, 0x21, 0x21, 0x21]
  const DOT: Name := [0x2e]
  const DOT_DOT: Name := [0x2e, 0x2e]
  const FIRST_INODE: nat := 300000
  const TYPE_REGULAR: u32 := 0x8000
  const U32: nat := 0x1_0000_0000

  // ----- numbers

  function Digit(v: nat): byte
    requires v < 16
  {
    if v < 10 then 0x30 + v else 0x61 + v - 10
  }

  function DigitValue(b: byte): Option<nat> {
    if 0x30 <= b <= 0x39 then Some(b - 0x30)
    else if 0x61 <= b <= 0x66 then Some(b - 0x61 + 10)
    else if 0x41 <= b <= 0x46 then Some(b - 0x41 + 10)
    else None
  }

  /** The last `n` hexadecimal digits of `v`. */
  function Hex(v: nat, n: nat): (s: seq<byte>)
    ensures |s| == n
  {
    if n == 0 then [] else Hex(v / 16, n - 1) + [Digit(v % 16)]
  }

  function HexLength(v: nat): nat {
    if v < 16 then 1 else 1 + HexLength(v / 16)
  }

  /** `'%08x' % v`: at least eight digits, more for larger numbers. */
  function Format(v: nat): seq<byte> {
    if v < U32 then Hex(v, 8) else Hex(v, HexLength(v))
  }

  function ParseHex(s: seq<byte>): Option<nat> {
    if s == [] then Some(0)
    else
      match (ParseHex(s[..|s| - 1]), DigitValue(s[|s| - 1]))
      case (Some(high), Some(low)) => Some(16 * high + low)
      case _ => None
  }

  function Power16(n: nat): nat {
    if n == 0 then 1 else 16 * Power16(n - 1)
  }

  lemma {:induction false} ParseBound(s: seq<byte>)
    requires ParseHex(s).Some?
    ensures ParseHex(s).value < Power16(|s|)
  {
    if s != [] {
      ParseBound(s[..|s| - 1]);
    }
  }

  lemma {:induction false} HexRoundTrip(v: nat, n: nat)
    requires v < Power16(n)
    ensures ParseHex(Hex(v, n)) == Some(v)
  {
    if n > 0 {
      HexRoundTrip(v / 16, n - 1);
      assert Hex(v, n)[..n - 1] == Hex(v / 16, n - 1);
    }
  }

  /** The eight digits at `at`, if that is what they are. */
  function FieldAt(data: seq<byte>, at: nat): (r: Option<u32>) {
    if at + 8 > |data| then None
    else
      match ParseHex(data[at..at + 8])
      case Some(v) => EightDigits(data[at..at + 8]); Some(v)
      case None => None
  }

  lemma EightDigits(s: seq<byte>)
    requires |s| == 8 && ParseHex(s).Some?
    ensures ParseHex(s).value < U32
  {
    ParseBound(s);
    assert Power16(8) == U32;
  }

  /** `n` fields of eight digits each. */
  function FieldsAt(data: seq<byte>, at: nat, n: nat): (r: Option<seq<u32>>)
    ensures r.Some? ==> |r.value| == n
    decreases n
  {
    if n == 0 then Some([])
    else
      match (FieldAt(data, at), FieldsAt(data, at + 8, n - 1))
      case (Some(v), Some(rest)) => Some([v] + rest)
      case _ => None
  }

  function FormatAll(values: seq<nat>): seq<byte> {
    if values == [] then [] else Format(values[0]) + FormatAll(values[1..])
  }

  predicate AllU32(values: seq<nat>) {
    forall i :: 0 <= i < |values| ==> values[i] < U32
  }

  lemma FormattedField(data: seq<byte>, at: nat, value: u32, rest: seq<byte>)
    requires At(data, at, Format(value) + rest)
    ensures |Format(value)| == 8 && FieldAt(data, at) == Some(value) && At(data, at + 8, rest)
  {
    hide Hex, ParseHex;
    assert Power16(8) == U32;
    HexRoundTrip(value, 8);
    AtSplit(data, at, Format(value), rest);
  }

  lemma {:induction false} FormattedFields(data: seq<byte>, at: nat, values: seq<nat>)
    requires AllU32(values) && At(data, at, FormatAll(values))
    ensures |FormatAll(values)| == 8 * |values|
    ensures FieldsAt(data, at, |values|) == Some(values)
    decreases |values|
  {
    hide Format, FieldAt, At;
    if values != [] {
      FormattedField(data, at, values[0], FormatAll(values[1..]));
      FormattedFields(data, at + 8, values[1..]);
      assert [values[0]] + values[1..] == values;
    }
  }

  // ----- names

  predicate Continuation(b: byte) {
    0x80 <= b < 0xc0
  }

  /** The length of the UTF-8 sequence that `s` starts with, or 0 if it is malformed. */
  function FirstChar(s: seq<byte>): (n: nat)
    requires s != []
    ensures n <= |s| && n <= 4
    ensures n == 1 <==> s[0] < 0x80
  {
    if s[0] < 0x80 then 1
    else if 0xc2 <= s[0] < 0xe0 then
      if |s| >= 2 && Continuation(s[1]) then 2 else 0
    else if 0xe0 <= s[0] < 0xf0 then
      if |s| >= 3 && Continuation(s[1]) && Continuation(s[2])
         && (s[0] == 0xe0 ==> s[1] >= 0xa0) && (s[0] == 0xed ==> s[1] < 0xa0)
      then 3 else 0
    else if 0xf0 <= s[0] < 0xf5 then
      if |s| >= 4 && Continuation(s[1]) && Continuation(s[2]) && Continuation(s[3])
         && (s[0] == 0xf0 ==> s[1] >= 0x90) && (s[0] == 0xf4 ==> s[1] < 0x90)
      then 4 else 0
    else 0
  }

  predicate ValidUtf8(s: seq<byte>) {
    s == [] || (FirstChar(s) > 0 && ValidUtf8(s[FirstChar(s)..]))
  }

  /** `len(name)`: characters, not bytes. */
  function Chars(s: seq<byte>): nat {
    if s == [] || FirstChar(s) == 0 then 0 else 1 + Chars(s[FirstChar(s)..])
  }

  predicate Ascii(s: seq<byte>) {
    forall i :: 0 <= i < |s| ==> s[i] < 0x80
  }

  lemma {:induction false} AsciiIsValid(s: seq<byte>)
    requires Ascii(s)
    ensures ValidUtf8(s)
  {
    if s != [] {
      AsciiIsValid(s[1..]);
    }
  }

  /** Characters and bytes are equally many exactly in ASCII names. */
  lemma {:induction false} CharsIffAscii(s: seq<byte>)
    requires ValidUtf8(s)
    ensures Chars(s) <= |s|
    ensures Chars(s) == |s| <==> Ascii(s)
  {
    if s != [] {
      var n := FirstChar(s);
      CharsIffAscii(s[n..]);
      if n == 1 {
        assert forall i :: 1 <= i < |s| ==> s[i] == s[1..][i - 1];
        assert Ascii(s) <==> Ascii(s[1..]);
      }
    }
  }

  /** `raw.rstrip(b'\0')` */
  function Strip(raw: seq<byte>): seq<byte> {
    if raw != [] && raw[|raw| - 1] == 0 then Strip(raw[..|raw| - 1]) else raw
  }

  // ----- reading

  /** `data.find(CPIO_MAGIC, from)` */
  function Find(data: seq<byte>, from: nat): (r: Option<nat>)
    ensures r.Some? ==> from <= r.value && r.value + 6 <= |data|
    decreases |data| - from
  {
    if from + 6 > |data| then None
    else if data[from..from + 6] == MAGIC then Some(from)
    else Find(data, from + 1)
  }

  /** The name stored in `raw`: NUL-terminated, stripped and decodable. */
  function NameIn(raw: seq<byte>): Result<Name> {
    if raw == [] || raw[|raw| - 1] != 0 then Err("cpio entry name was not NUL-terminated")
    else if !ValidUtf8(Strip(raw)) then Err("undecodable name")
    else Ok(Strip(raw))
  }

  function EntryFrom(f: seq<u32>, data: seq<byte>): Entry
    requires |f| == 13
  {
    Entry(f[1], f[2], f[3], f[9], f[10], data)
  }

  /** `Cpio.load` from `offset` on, with the entries read so far. */
  function LoadFrom(data: seq<byte>, offset: nat, entries: Entries): Result<Entries>
    decreases |data| - offset
  {
    if offset >= |data| then Ok(entries)
    else if Slice(data, offset, offset + 6) != MAGIC then Err("unsupported cpio header")
    else
      match FieldsAt(data, offset + 6, 13)
      case None => Err("malformed number")
      case Some(f) =>
        match NameIn(Slice(data, offset + 110, offset + 110 + f[11]))
        case Err(reason) => Err(reason)
        case Ok(name) =>
          var next := Align4(offset + 110 + f[11]);
          if name == DOT || name == DOT_DOT then LoadFrom(data, next, entries)
          else if name == TRAILER then
            match Find(data, next)
            case None => Ok(entries)
            case Some(rest) => LoadFrom(data, rest, entries)
          else
            LoadFrom(data, Align4(next + f[6]), entries[name := EntryFrom(f, Slice(data, next, next + f[6]))])
  }

  function Load(data: seq<byte>): Result<Entries> {
    LoadFrom(data, 0, map[])
  }

  // ----- writing

  function Values(inode: nat, e: Entry, nameLength: nat): (v: seq<nat>)
    ensures |v| == 13
  {
    [inode, e.mode, e.uid, e.gid, 1, 0, |e.data|, 0, 0, e.rdevMajor, e.rdevMinor, nameLength + 1, 0]
  }

  function Header(inode: nat, e: Entry, nameLength: nat): seq<byte> {
    MAGIC + FormatAll(Values(inode, e, nameLength))
  }

  function Padded(s: seq<byte>): seq<byte> {
    s + Zeros(Align4(|s|) - |s|)
  }

  /** Header and name, padded. */
  function Head(inode: nat, name: Name, e: Entry): seq<byte>
  {
    Padded(Header(inode, e, Chars(name)) + (name + [0]))
  }

  function Record(inode: nat, name: Name, e: Entry): seq<byte>
  {
    Head(inode, name, e) + Padded(e.data)
  }

  const END: Entry := Entry(0x1ed, 0, 0, 0, 0, [])

  /** The records of `names` in that order, numbered from `inode`, and the trailer. */
  function DumpNames(names: seq<Name>, entries: Entries, inode: nat): seq<byte>
    requires forall n :: n in names ==> n in entries
  {
    if names == [] then Head(inode, TRAILER, END)
    else Record(inode, names[0], entries[names[0]]) + DumpNames(names[1..], entries, inode + 1)
  }

  // ----- one record

  /** A name the reader keeps as it is. */
  predicate Regular(name: Name) {
    name != DOT && name != DOT_DOT && name != TRAILER && Terminated(name)
  }

  predicate NulFree(name: Name) {
    forall i :: 0 <= i < |name| ==> name[i] != 0
  }

  /** Sizes the eight-digit fields can hold. */
  predicate Storable(name: Name, e: Entry) {
    ValidUtf8(name) && |name| + 1 < U32 && |e.data| < U32
  }

  lemma AlignShift(base: nat, n: nat)
    requires base % 4 == 0
    ensures Align4(base + n) == base + Align4(n)
    ensures Align4(n) % 4 == 0 && n <= Align4(n) < n + 4
  {
  }

  lemma PaddedAt(data: seq<byte>, off: nat, s: seq<byte>)
    requires At(data, off, Padded(s))
    ensures At(data, off, s) && |Padded(s)| == Align4(|s|) && |Padded(s)| % 4 == 0
  {
    AlignShift(0, |s|);
    AtSplit(data, off, s, Zeros(Align4(|s|) - |s|));
  }

  lemma HeadShape(data: seq<byte>, off: nat, inode: nat, name: Name, e: Entry)
    requires At(data, off, Head(inode, name, e))
    ensures At(data, off, Header(inode, e, Chars(name))) && At(data, off + |Header(inode, e, Chars(name))|, name + [0])
    ensures |Head(inode, name, e)| == Align4(|Header(inode, e, Chars(name))| + |name| + 1)
  {
    hide Header, Chars, Padded, Align4, At;
    PaddedAt(data, off, Header(inode, e, Chars(name)) + (name + [0]));
    AtSplit(data, off, Header(inode, e, Chars(name)), name + [0]);
  }

  lemma HeaderParses(data: seq<byte>, off: nat, inode: nat, e: Entry, n: nat)
    requires AllU32(Values(inode, e, n)) && At(data, off, Header(inode, e, n))
    ensures |Header(inode, e, n)| == 110 && off < |data| && Slice(data, off, off + 6) == MAGIC
    ensures FieldsAt(data, off + 6, 13) == Some(Values(inode, e, n))
  {
    hide FormatAll, FieldsAt, Values, AllU32;
    AtSplit(data, off, MAGIC, FormatAll(Values(inode, e, n)));
    FormattedFields(data, off + 6, Values(inode, e, n));
  }

  lemma ValuesFit(inode: nat, name: Name, e: Entry)
    requires inode < U32 && Storable(name, e)
    ensures AllU32(Values(inode, e, Chars(name)))
  {
    hide Chars, ValidUtf8, Ascii;
    CharsIffAscii(name);
  }

  lemma HeadParses(data: seq<byte>, off: nat, inode: nat, name: Name, e: Entry)
    requires off % 4 == 0 && inode < U32 && Storable(name, e) && At(data, off, Head(inode, name, e))
    ensures off < |data| && Slice(data, off, off + 6) == MAGIC
    ensures FieldsAt(data, off + 6, 13) == Some(Values(inode, e, Chars(name)))
    ensures At(data, off + 110, name + [0])
    ensures |Head(inode, name, e)| == Align4(110 + |name| + 1)
  {
    hide *;
    ValuesFit(inode, name, e);
    HeadShape(data, off, inode, name, e);
    HeaderParses(data, off, inode, e, Chars(name));
  }

  lemma RecordParts(data: seq<byte>, off: nat, inode: nat, name: Name, e: Entry)
    requires At(data, off, Record(inode, name, e))
    ensures At(data, off, Head(inode, name, e)) && At(data, off + |Head(inode, name, e)|, e.data)
    ensures |Record(inode, name, e)| == |Head(inode, name, e)| + Align4(|e.data|)
  {
    hide Head, Padded, Align4, At;
    AtSplit(data, off, Head(inode, name, e), Padded(e.data));
    PaddedAt(data, off + |Head(inode, name, e)|, e.data);
  }

  predicate Terminated(name: Name) {
    name == [] || name[|name| - 1] != 0
  }

  lemma StripTerminator(name: Name)
    requires ValidUtf8(name) && Terminated(name)
    ensures NameIn(name + [0]) == Ok(name)
  {
    hide ValidUtf8;
    assert (name + [0])[..|name|] == name;
    assert Strip(name + [0]) == Strip(name);
    assert Strip(name) == name;
  }

  lemma SliceAt(data: seq<byte>, off: nat, b: seq<byte>)
    requires At(data, off, b)
    ensures Slice(data, off, off + |b|) == b
  {
  }

  /** What the reader finds at the head of an ASCII-named record. */
  lemma HeadNames(data: seq<byte>, off: nat, inode: nat, name: Name, e: Entry)
    requires off % 4 == 0 && inode < U32 && Storable(name, e) && Ascii(name) && Terminated(name)
    requires At(data, off, Head(inode, name, e))
    ensures off < |data| && Slice(data, off, off + 6) == MAGIC
    ensures FieldsAt(data, off + 6, 13) == Some(Values(inode, e, |name|))
    ensures NameIn(Slice(data, off + 110, off + 110 + |name| + 1)) == Ok(name)
    ensures Align4(off + 110 + |name| + 1) == off + |Head(inode, name, e)|
    ensures |Head(inode, name, e)| % 4 == 0
  {
    hide FieldsAt, Head, ValidUtf8, Ascii, NameIn, Chars, Values, Terminated, At, Slice, Align4;
    HeadParses(data, off, inode, name, e);
    CharsIffAscii(name);
    AlignShift(off, 110 + |name| + 1);
    StripTerminator(name);
    SliceAt(data, off + 110, name + [0]);
  }

  lemma EntryBack(inode: nat, e: Entry, n: nat)
    requires AllU32(Values(inode, e, n))
    ensures EntryFrom(Values(inode, e, n), e.data) == e
  {
  }

  /** One turn of the reading loop on an entry. */
  lemma EntryTurn(data: seq<byte>, off: nat, f: seq<u32>, name: Name, next: nat, e: Entry, acc: Entries)
    requires off < |data| && Slice(data, off, off + 6) == MAGIC && |f| == 13 && FieldsAt(data, off + 6, 13) == Some(f)
    requires NameIn(Slice(data, off + 110, off + 110 + f[11])) == Ok(name) && Regular(name)
    requires next == Align4(off + 110 + f[11]) && EntryFrom(f, Slice(data, next, next + f[6])) == e
    ensures LoadFrom(data, off, acc) == LoadFrom(data, Align4(next + f[6]), acc[name := e])
  {
    hide FieldsAt, NameIn, EntryFrom, Slice, Align4;
  }

  /** Reading an ASCII-named record back restores the entry. */
  lemma RecordStep(data: seq<byte>, off: nat, inode: nat, name: Name, e: Entry, acc: Entries)
    requires off % 4 == 0 && inode < U32 && Storable(name, e) && Regular(name) && Ascii(name)
    requires At(data, off, Record(inode, name, e))
    ensures |Record(inode, name, e)| % 4 == 0
    ensures LoadFrom(data, off, acc) == LoadFrom(data, off + |Record(inode, name, e)|, acc[name := e])
  {
    hide FieldsAt, Head, Record, ValidUtf8, Ascii, NameIn, EntryFrom, LoadFrom, At, Slice, Align4, FormatAll, Chars;
    RecordParts(data, off, inode, name, e);
    HeadNames(data, off, inode, name, e);
    EntryBack(inode, e, |name|);
    var next := off + |Head(inode, name, e)|;
    AlignShift(next, |e.data|);
    AlignShift(0, |e.data|);
    SliceAt(data, next, e.data);
    EntryTurn(data, off, Values(inode, e, |name|), name, next, e, acc);
  }

  /** One turn of the reading loop on a name it refuses. */
  lemma RefusedTurn(data: seq<byte>, off: nat, f: seq<u32>, acc: Entries)
    requires off < |data| && Slice(data, off, off + 6) == MAGIC && |f| == 13 && FieldsAt(data, off + 6, 13) == Some(f)
    requires NameIn(Slice(data, off + 110, off + 110 + f[11])).Err?
    ensures LoadFrom(data, off, acc).Err?
  {
    hide FieldsAt, NameIn, Slice;
  }

  lemma CutName(data: seq<byte>, off: nat, name: Name, n: nat)
    requires At(data, off, name + [0]) && NulFree(name) && n < |name|
    ensures NameIn(Slice(data, off, off + n + 1)).Err?
  {
    hide ValidUtf8, Strip;
    var raw := Slice(data, off, off + n + 1);
    assert raw == (name + [0])[..n + 1];
    assert raw[|raw| - 1] == name[n];
  }

  /** A name with fewer characters than bytes is cut short and refused. */
  lemma RecordRefused(data: seq<byte>, off: nat, inode: nat, name: Name, e: Entry, acc: Entries)
    requires off % 4 == 0 && inode < U32 && Storable(name, e) && NulFree(name) && !Ascii(name)
    requires At(data, off, Record(inode, name, e))
    ensures LoadFrom(data, off, acc).Err?
  {
    hide FieldsAt, Head, Record, ValidUtf8, Ascii, NameIn, LoadFrom, At, Slice, Align4, FormatAll, Chars, NulFree;
    RecordParts(data, off, inode, name, e);
    HeadParses(data, off, inode, name, e);
    CharsIffAscii(name);
    CutName(data, off + 110, name, Chars(name));
    ValuesFit(inode, name, e);
    RefusedTurn(data, off, Values(inode, e, Chars(name)), acc);
  }

  // ----- the trailer

  lemma {:induction false} FindSkips(data: seq<byte>, from: nat, to: nat)
    requires from <= to <= |data| && forall i :: from <= i < to ==> data[i] == 0
    requires to == |data| || (to + 6 <= |data| && data[to..to + 6] == MAGIC)
    ensures Find(data, from) == (if to == |data| then None else Some(to))
    decreases |data| - from
  {
    if from < to {
      if from + 6 <= |data| {
        assert data[from..from + 6][0] == 0;
      }
      FindSkips(data, from + 1, to);
    }
  }

  lemma TrailerTurn(data: seq<byte>, off: nat, f: seq<u32>, next: nat, acc: Entries)
    requires off < |data| && Slice(data, off, off + 6) == MAGIC && |f| == 13 && FieldsAt(data, off + 6, 13) == Some(f)
    requires NameIn(Slice(data, off + 110, off + 110 + f[11])) == Ok(TRAILER)
    requires next == Align4(off + 110 + f[11])
    ensures LoadFrom(data, off, acc) == match Find(data, next) case None => Ok(acc) case Some(rest) => LoadFrom(data, rest, acc)
  {
    hide FieldsAt, NameIn, EntryFrom, Slice, Align4, Find;
  }

  lemma TrailerName()
    ensures Ascii(TRAILER) && Storable(TRAILER, END) && Terminated(TRAILER)
  {
    hide ValidUtf8;
    AsciiIsValid(TRAILER);
  }

  /** After a trailer, zero padding is skipped up to the next archive or the end. */
  lemma TrailerStep(data: seq<byte>, off: nat, inode: nat, acc: Entries, to: nat)
    requires off % 4 == 0 && inode < U32 && At(data, off, Head(inode, TRAILER, END))
    requires off + |Head(inode, TRAILER, END)| <= to <= |data|
    requires forall i :: off + |Head(inode, TRAILER, END)| <= i < to ==> data[i] == 0
    requires to == |data| || (to + 6 <= |data| && data[to..to + 6] == MAGIC)
    ensures LoadFrom(data, off, acc) == (if to == |data| then Ok(acc) else LoadFrom(data, to, acc))
  {
    hide *;
    TrailerName();
    HeadNames(data, off, inode, TRAILER, END);
    TrailerField(inode);
    TrailerTurn(data, off, Values(inode, END, |TRAILER|), off + |Head(inode, TRAILER, END)|, acc);
    FindSkips(data, off + |Head(inode, TRAILER, END)|, to);
  }

  lemma TrailerField(inode: nat)
    ensures Values(inode, END, |TRAILER|)[11] == |TRAILER| + 1 == 11
  {
  }

  // ----- the order of a dump

  /** Byte order, as `sorted(..., key=str.encode)` compares names. */
  predicate Less(a: Name, b: Name) {
    b != [] && (a == [] || a[0] < b[0] || (a[0] == b[0] && Less(a[1..], b[1..])))
  }

  lemma {:induction false} LessTotal(a: Name, b: Name)
    ensures a == b || Less(a, b) || Less(b, a)
    ensures !(Less(a, b) && Less(b, a)) && !Less(a, a)
  {
    if a != [] && b != [] && a[0] == b[0] {
      LessTotal(a[1..], b[1..]);
      assert a == [a[0]] + a[1..] && b == [b[0]] + b[1..];
    }
    if a != [] {
      LessTotal(a[1..], a[1..]);
    }
  }

  lemma {:induction false} LessTransitive(a: Name, b: Name, c: Name)
    requires Less(a, b) && Less(b, c)
    ensures Less(a, c)
  {
    if a != [] && a[0] == b[0] == c[0] {
      LessTransitive(a[1..], b[1..], c[1..]);
    }
  }

  predicate IsLeast(m: Name, names: set<Name>) {
    m in names && forall n :: n in names && n != m ==> Less(m, n)
  }

  lemma {:induction false} LeastExists(names: set<Name>)
    requires names != {}
    ensures exists m :: m in names && IsLeast(m, names)
  {
    var x :| x in names;
    var rest := names - {x};
    if rest == {} {
      assert forall n :: n in names && n != x ==> n in rest;
      assert IsLeast(x, names);
    } else {
      LeastExists(rest);
      var m :| m in rest && IsLeast(m, rest);
      LessTotal(m, x);
      if Less(m, x) {
        assert IsLeast(m, names);
      } else {
        forall n | n in names && n != x
          ensures Less(x, n)
        {
          if n != m {
            LessTransitive(x, m, n);
          }
        }
        assert IsLeast(x, names);
      }
    }
  }

  ghost function Least(names: set<Name>): (m: Name)
    requires names != {}
    ensures IsLeast(m, names)
  {
    LeastExists(names);
    var m :| IsLeast(m, names);
    m
  }

  lemma LeastUnique(names: set<Name>, m: Name)
    requires IsLeast(m, names)
    ensures m == Least(names)
  {
    LessTotal(m, Least(names));
  }

  /** `sorted_names`: the names in strictly increasing byte order. */
  ghost function Sorted(names: set<Name>): (s: seq<Name>)
    ensures |s| == |names| && forall n :: n in s <==> n in names
    ensures forall i, j :: 0 <= i < j < |s| ==> Less(s[i], s[j])
  {
    if names == {} then []
    else [Least(names)] + Sorted(names - {Least(names)})
  }

  lemma SortedEmpty()
    ensures Sorted({}) == []
  {
  }

  ghost function Dump(entries: Entries): seq<byte> {
    DumpNames(Sorted(entries.Keys), entries, FIRST_INODE)
  }

  // ----- whole archives

  /** Everything the eight-digit fields must hold. */
  predicate Dumpable(entries: Entries) {
    && FIRST_INODE + |entries| < U32
    && forall n :: n in entries ==> Storable(n, entries[n])
  }

  predicate AllAsciiRegular(entries: Entries) {
    forall n :: n in entries ==> Ascii(n) && Regular(n)
  }

  /** `acc` overridden by the entries of `names`. */
  function Override(acc: Entries, names: seq<Name>, entries: Entries): (r: Entries)
    requires forall n :: n in names ==> n in entries
    ensures forall n :: n in r <==> n in acc || n in names
    ensures forall n :: n in r ==> r[n] == if n in names then entries[n] else acc[n]
  {
    acc + map n | n in names :: entries[n]
  }

  /** Reading a dump that starts at `off` and is followed by zeros up to `to`. */
  lemma {:induction false} NamesLoad(data: seq<byte>, off: nat, names: seq<Name>, entries: Entries, inode: nat, acc: Entries, to: nat)
    requires off % 4 == 0 && inode + |names| < U32
    requires forall n :: n in names ==> n in entries && Storable(n, entries[n]) && Regular(n) && Ascii(n)
    requires At(data, off, DumpNames(names, entries, inode))
    requires off + |DumpNames(names, entries, inode)| <= to <= |data|
    requires forall i :: off + |DumpNames(names, entries, inode)| <= i < to ==> data[i] == 0
    requires to == |data| || (to + 6 <= |data| && data[to..to + 6] == MAGIC)
    ensures |DumpNames(names, entries, inode)| % 4 == 0
    ensures LoadFrom(data, off, acc)
         == (if to == |data| then Ok(Override(acc, names, entries)) else LoadFrom(data, to, Override(acc, names, entries)))
    decreases |names|
  {
    hide LoadFrom, Record, Head, Storable, Regular, Ascii, At, DumpNames, Override;
    if names == [] {
      DumpEnd(entries, inode);
      TrailerStep(data, off, inode, acc, to);
      OverrideNone(acc, entries);
    } else {
      var e := entries[names[0]];
      FirstRecord(data, off, names, entries, inode, acc);
      NamesLoad(data, off + |Record(inode, names[0], e)|, names[1..], entries, inode + 1, acc[names[0] := e], to);
      OverrideCons(acc, names, entries);
    }
  }

  lemma FirstRecord(data: seq<byte>, off: nat, names: seq<Name>, entries: Entries, inode: nat, acc: Entries)
    requires off % 4 == 0 && inode < U32 && names != [] && forall n :: n in names ==> n in entries
    requires Storable(names[0], entries[names[0]]) && Regular(names[0]) && Ascii(names[0])
    requires At(data, off, DumpNames(names, entries, inode))
    ensures var e := entries[names[0]];
            var size := |Record(inode, names[0], e)|;
            && size % 4 == 0 && (off + size) % 4 == 0
            && |DumpNames(names, entries, inode)| == size + |DumpNames(names[1..], entries, inode + 1)|
            && At(data, off + size, DumpNames(names[1..], entries, inode + 1))
            && LoadFrom(data, off, acc) == LoadFrom(data, off + size, acc[names[0] := e])
  {
    hide LoadFrom, Record, Head, Storable, Regular, Ascii, At, DumpNames;
    var e := entries[names[0]];
    DumpCons(names, entries, inode);
    AtSplit(data, off, Record(inode, names[0], e), DumpNames(names[1..], entries, inode + 1));
    RecordStep(data, off, inode, names[0], e, acc);
  }

  lemma OverrideNone(acc: Entries, entries: Entries)
    ensures Override(acc, [], entries) == acc
  {
  }

  lemma OverrideCons(acc: Entries, names: seq<Name>, entries: Entries)
    requires names != [] && forall n :: n in names ==> n in entries
    ensures Override(acc[names[0] := entries[names[0]]], names[1..], entries) == Override(acc, names, entries)
  {
  }

  lemma DumpCons(names: seq<Name>, entries: Entries, inode: nat)
    requires names != [] && forall n :: n in names ==> n in entries
    ensures DumpNames(names, entries, inode)
         == Record(inode, names[0], entries[names[0]]) + DumpNames(names[1..], entries, inode + 1)
  {
    hide Record, Head;
  }

  lemma DumpEnd(entries: Entries, inode: nat)
    ensures DumpNames([], entries, inode) == Head(inode, TRAILER, END)
    ensures |Head(inode, TRAILER, END)| % 4 == 0
  {
    hide Header, Chars;
    AlignShift(0, |Header(inode, END, Chars(TRAILER)) + (TRAILER + [0])|);
  }

  /** How long a head and a record are. */
  lemma RecordLength(inode: nat, name: Name, e: Entry)
    requires inode < U32 && Storable(name, e)
    ensures |Head(inode, name, e)| == Align4(111 + |name|)
    ensures |Record(inode, name, e)| == Align4(111 + |name|) + Align4(|e.data|)
  {
    hide Header, Head, Chars, ValidUtf8, Values, AllU32;
    var head, header := Head(inode, name, e), Header(inode, e, Chars(name));
    WholeAt(head);
    HeadShape(head, 0, inode, name, e);
    WholeAt(header);
    ValuesFit(inode, name, e);
    HeaderParses(header, 0, inode, e, Chars(name));
    WholeAt(Record(inode, name, e));
    RecordParts(Record(inode, name, e), 0, inode, name, e);
  }

  lemma WholeAt(s: seq<byte>)
    ensures At(s, 0, s)
  {
  }

  /** Empty files with short names make a short archive. */
  lemma {:induction false} ShortDump(names: seq<Name>, entries: Entries, inode: nat)
    requires inode + |names| < U32
    requires forall n :: n in names ==> n in entries && Storable(n, entries[n]) && |n| <= 20 && entries[n].data == []
    ensures |DumpNames(names, entries, inode)| <= 200 * (|names| + 1)
    decreases |names|
  {
    hide Record, Head, ValidUtf8;
    if names == [] {
      TrailerName();
      RecordLength(inode, TRAILER, END);
    } else {
      RecordLength(inode, names[0], entries[names[0]]);
      ShortDump(names[1..], entries, inode + 1);
    }
  }

  /** Reading a whole dump, followed by zeros up to `to`. */
  lemma DumpLoads(data: seq<byte>, off: nat, entries: Entries, acc: Entries, to: nat)
    requires Dumpable(entries) && AllAsciiRegular(entries)
    requires off % 4 == 0 && At(data, off, Dump(entries))
    requires off + |Dump(entries)| <= to <= |data|
    requires forall i :: off + |Dump(entries)| <= i < to ==> data[i] == 0
    requires to == |data| || (to + 6 <= |data| && data[to..to + 6] == MAGIC)
    ensures |Dump(entries)| % 4 == 0
    ensures LoadFrom(data, off, acc) == (if to == |data| then Ok(acc + entries) else LoadFrom(data, to, acc + entries))
  {
    hide LoadFrom, DumpNames, Storable, Regular, Ascii, At, Sorted, Override, Less;
    var names := Sorted(entries.Keys);
    assert |names| == |entries.Keys| == |entries|;
    NamesLoad(data, off, names, entries, FIRST_INODE, acc, to);
    OverrideAll(acc, names, entries);
  }

  lemma OverrideAll(acc: Entries, names: seq<Name>, entries: Entries)
    requires forall n :: n in names <==> n in entries
    ensures Override(acc, names, entries) == acc + entries
  {
  }

  /** Round trip: reading back what `dump` writes gives the same entries. */
  lemma RoundTrip(entries: Entries)
    requires Dumpable(entries) && AllAsciiRegular(entries)
    ensures Load(Dump(entries)) == Ok(entries)
  {
    hide LoadFrom, DumpNames, Sorted;
    DumpLoads(Dump(entries), 0, entries, map[], |Dump(entries)|);
    assert map[] + entries == entries;
  }

  /** Two archives in one file, padded with zeros between them: the second overrides the first. */
  lemma ConcatenationOverrides(c: Entries, e: Entries, k: nat)
    requires Dumpable(c) && AllAsciiRegular(c) && Dumpable(e) && AllAsciiRegular(e)
    ensures Load(Dump(c) + Zeros(4 * k) + Dump(e)) == Ok(c + e)
  {
    hide LoadFrom, DumpNames, Sorted;
    var data := Dump(c) + Zeros(4 * k) + Dump(e);
    var to := |Dump(c)| + 4 * k;
    DumpStarts(e);
    assert data[..|Dump(c)|] == Dump(c);
    assert data[to..] == Dump(e);
    assert data[to..to + 6] == Dump(e)[..6];
    DumpLoads(data, 0, c, map[], to);
    assert map[] + c == c;
    DumpLoads(data, to, e, c, |data|);
  }

  lemma DumpStarts(entries: Entries)
    ensures |Dump(entries)| >= 6 && Dump(entries)[..6] == MAGIC
  {
    hide FormatAll, Values, Sorted, Chars;
    var names := Sorted(entries.Keys);
    if names == [] {
      HeadStarts(FIRST_INODE, TRAILER, END);
    } else {
      HeadStarts(FIRST_INODE, names[0], entries[names[0]]);
    }
  }

  lemma HeadStarts(inode: nat, name: Name, e: Entry)
    ensures |Head(inode, name, e)| >= 6 && Head(inode, name, e)[..6] == MAGIC
  {
    hide FormatAll, Values, Chars;
  }

  // ----- what a successful read guarantees

  predicate Kept(name: Name, e: Entry) {
    Storable(name, e) && Regular(name)
  }

  lemma {:induction false} StripKeeps(raw: seq<byte>)
    ensures Terminated(Strip(raw)) && |Strip(raw)| <= |raw|
    ensures raw != [] && raw[|raw| - 1] == 0 ==> |Strip(raw)| < |raw|
  {
    if raw != [] && raw[|raw| - 1] == 0 {
      StripKeeps(raw[..|raw| - 1]);
    }
  }

  lemma NameKept(raw: seq<byte>, name: Name)
    requires NameIn(raw) == Ok(name) && |raw| < U32
    ensures ValidUtf8(name) && Terminated(name) && |name| + 1 < U32
  {
    hide ValidUtf8, Strip;
    StripKeeps(raw);
  }

  /** Every entry the reader produces can be written again, except for its
      characters: regular, decodable names and 32-bit sizes. */
  lemma {:induction false} LoadedKept(data: seq<byte>, offset: nat, acc: Entries)
    requires forall n :: n in acc ==> Kept(n, acc[n])
    requires LoadFrom(data, offset, acc).Ok?
    ensures var c := LoadFrom(data, offset, acc).value; forall n :: n in c ==> Kept(n, c[n])
    decreases |data| - offset
  {
    hide FieldsAt, NameIn, Find, EntryFrom, ValidUtf8, Slice, Load;
    if offset < |data| {
      var f := FieldsAt(data, offset + 6, 13).value;
      var raw := Slice(data, offset + 110, offset + 110 + f[11]);
      var name := NameIn(raw).value;
      var next := Align4(offset + 110 + f[11]);
      SliceAtMost(data, offset + 110, f[11]);
      SliceAtMost(data, next, f[6]);
      NameKept(raw, name);
      if name == DOT || name == DOT_DOT {
        LoadedKept(data, next, acc);
      } else if name == TRAILER {
        if Find(data, next).Some? {
          LoadedKept(data, Find(data, next).value, acc);
        }
      } else {
        var e := EntryFrom(f, Slice(data, next, next + f[6]));
        EntryData(f, Slice(data, next, next + f[6]));
        LoadedKept(data, Align4(next + f[6]), acc[name := e]);
      }
    }
  }

  lemma SliceAtMost(data: seq<byte>, at: nat, n: nat)
    ensures |Slice(data, at, at + n)| <= n
  {
  }

  lemma EntryData(f: seq<u32>, data: seq<byte>)
    requires |f| == 13
    ensures EntryFrom(f, data).data == data
  {
  }

  /** One name that is not ASCII makes the whole dump unreadable. */
  lemma {:induction false} NamesRefused(data: seq<byte>, off: nat, names: seq<Name>, entries: Entries, inode: nat, acc: Entries)
    requires off % 4 == 0 && inode + |names| < U32
    requires forall n :: n in names ==> n in entries && Kept(n, entries[n]) && NulFree(n)
    requires exists n :: n in names && !Ascii(n)
    requires At(data, off, DumpNames(names, entries, inode))
    ensures LoadFrom(data, off, acc).Err?
    decreases |names|
  {
    hide LoadFrom, Record, Head, Storable, Regular, Ascii, At, DumpNames, NulFree;
    var e := entries[names[0]];
    DumpCons(names, entries, inode);
    AtSplit(data, off, Record(inode, names[0], e), DumpNames(names[1..], entries, inode + 1));
    if Ascii(names[0]) {
      RecordStep(data, off, inode, names[0], e, acc);
      var n :| n in names && !Ascii(n);
      assert n in names[1..];
      NamesRefused(data, off + |Record(inode, names[0], e)|, names[1..], entries, inode + 1, acc[names[0] := e]);
    } else {
      RecordRefused(data, off, inode, names[0], e, acc);
    }
  }

  /** Exactly when writing and reading back restores a map of NUL-free names: when
      every name is ASCII and none is one the reader drops. */
  lemma RoundTripIff(entries: Entries)
    requires Dumpable(entries) && forall n :: n in entries ==> NulFree(n)
    ensures Load(Dump(entries)) == Ok(entries) <==> AllAsciiRegular(entries)
    ensures (forall n :: n in entries ==> Regular(n)) && !AllAsciiRegular(entries) ==> Load(Dump(entries)).Err?
  {
    hide LoadFrom, DumpNames, Sorted, Ascii, Regular, NulFree, Storable;
    if AllAsciiRegular(entries) {
      RoundTrip(entries);
    } else {
      if Load(Dump(entries)) == Ok(entries) {
        LoadedKept(Dump(entries), 0, map[]);
        assert forall n :: n in entries ==> Kept(n, entries[n]);
      }
      if forall n :: n in entries ==> Regular(n) {
        var names := Sorted(entries.Keys);
        assert |names| == |entries|;
        NamesRefused(Dump(entries), 0, names, entries, FIRST_INODE, map[]);
      }
    }
  }

  /** Rewriting any readable archive whose names are ASCII keeps its entries. */
  lemma Normalises(data: seq<byte>)
    requires Load(data).Ok? && FIRST_INODE + |Load(data).value| < U32
    requires forall n :: n in Load(data).value ==> Ascii(n)
    ensures Load(Dump(Load(data).value)) == Load(data)
  {
    hide LoadFrom, DumpNames, Sorted, Ascii, Regular, Storable;
    LoadedKept(data, 0, map[]);
    RoundTrip(Load(data).value);
  }
}

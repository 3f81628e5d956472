/** The mutable archive object of tools/patch-android-boot-ksu.py and the paths it
    is addressed by. */
module CpioArchive {
  import opened Bytes
  import opened Cpio

  const SLASH: byte := 0x2f

  // ----- paths

  /** The nonempty parts of `part + path` between slashes, `part` holding none. */
  function Parts(path: Name, part: Name): seq<Name> {
    if path == [] then Flush(part)
    else if path[0] == SLASH then Flush(part) + Parts(path[1..], [])
    else Parts(path[1..], part + [path[0]])
  }

  function Flush(part: Name): seq<Name> {
    if part == [] then [] else [part]
  }

  function Join(parts: seq<Name>): Name {
    if parts == [] then []
    else if |parts| == 1 then parts[0]
    else parts[0] + [SLASH] + Join(parts[1..])
  }

  /** `norm_path` */
  function NormPath(path: Name): Name {
    Join(Parts(path, []))
  }

  predicate Component(part: Name) {
    part != [] && SLASH !in part
  }

  lemma {:induction false} PartsAreComponents(path: Name, part: Name)
    requires SLASH !in part
    ensures forall p :: p in Parts(path, part) ==> Component(p)
    decreases |path|
  {
    if path != [] {
      if path[0] == SLASH {
        PartsAreComponents(path[1..], []);
      } else {
        PartsAreComponents(path[1..], part + [path[0]]);
      }
    }
  }

  lemma {:induction false} PartsOfPlain(plain: Name, rest: Name, part: Name)
    requires SLASH !in plain
    ensures Parts(plain + rest, part) == Parts(rest, part + plain)
    decreases |plain|
  {
    if plain == [] {
      assert plain + rest == rest && part + plain == part;
    } else {
      assert (plain + rest)[1..] == plain[1..] + rest;
      PartsOfPlain(plain[1..], rest, part + [plain[0]]);
      assert part + [plain[0]] + plain[1..] == part + plain;
    }
  }

  /** Joining components and splitting again gives the same components. */
  lemma {:induction false} PartsOfJoin(parts: seq<Name>)
    requires forall p :: p in parts ==> Component(p)
    ensures Parts(Join(parts), []) == parts
  {
    assert forall i :: 0 <= i < |parts| ==> parts[i] in parts;
    if |parts| == 1 {
      PartsOfPlain(parts[0], [], []);
      assert parts[0] + [] == parts[0] && [] + parts[0] == parts[0];
      assert [parts[0]] == parts;
    } else if |parts| > 1 {
      var rest := [SLASH] + Join(parts[1..]);
      assert Join(parts) == parts[0] + rest;
      PartsOfPlain(parts[0], rest, []);
      assert [] + parts[0] == parts[0] && rest[1..] == Join(parts[1..]);
      PartsOfJoin(parts[1..]);
      assert [parts[0]] + parts[1..] == parts;
    }
  }

  lemma NormPathIdempotent(path: Name)
    ensures NormPath(NormPath(path)) == NormPath(path)
  {
    PartsAreComponents(path, []);
    PartsOfJoin(Parts(path, []));
  }

  /** A single component is its own normal form. */
  lemma ComponentIsNormal(name: Name)
    requires Component(name)
    ensures NormPath(name) == name
  {
    PartsOfJoin([name]);
  }

  lemma AfterSlash(rest: Name)
    ensures Parts([SLASH] + rest, []) == Parts(rest, [])
  {
    assert ([SLASH] + rest)[1..] == rest;
  }

  lemma OneLetter(b: byte, rest: Name)
    requires b != SLASH
    ensures Parts([b] + ([SLASH] + rest), []) == [[b]] + Parts(rest, [])
  {
    assert ([b] + ([SLASH] + rest))[1..] == [SLASH] + rest && ([SLASH] + rest)[1..] == rest;
    assert [] + [b] == [b];
  }

  /** Leading, trailing and doubled slashes go. */
  lemma NormPathExample()
    ensures NormPath(Text("/a//b/")) == Text("a/b")
  {
    hide Parts;
    assert Text("/a//b/") == [SLASH] + ([0x61] + ([SLASH] + ([SLASH] + ([0x62] + ([SLASH] + [])))));
    AfterSlash([0x61] + ([SLASH] + ([SLASH] + ([0x62] + ([SLASH] + [])))));
    OneLetter(0x61, [SLASH] + ([0x62] + ([SLASH] + [])));
    AfterSlash([0x62] + ([SLASH] + []));
    OneLetter(0x62, []);
    NoParts();
    assert Text("a/b") == [0x61] + [SLASH] + [0x62];
    assert Join([[0x61], [0x62]]) == [0x61] + [SLASH] + Join([[0x62]]);
  }

  lemma NoParts()
    ensures Parts([], []) == []
  {
  }

  // ----- the object

  class Archive {
    var entries: Entries

    constructor ()
      ensures entries == map[]
    {
      entries := map[];
    }

    /** `Cpio.load`, into this empty archive. */
    method LoadBytes(data: seq<byte>) returns (error: Option<string>)
      requires entries == map[]
      modifies this
      ensures error.None? ==> Load(data) == Ok(entries)
      ensures error.Some? ==> Load(data).Err?
    {
      hide FieldsAt, NameIn, EntryFrom, Find, Align4, Slice;
      var offset := 0;
      while offset < |data|
        invariant Load(data) == LoadFrom(data, offset, entries)
        decreases |data| - offset
      {
        if Slice(data, offset, offset + 6) != MAGIC {
          return Some("unsupported cpio header");
        }
        var fields := FieldsAt(data, offset + 6, 13);
        if fields == None {
          return Some("malformed number");
        }
        var f := fields.value;
        var name := NameIn(Slice(data, offset + 110, offset + 110 + f[11]));
        if name.Err? {
          return Some(name.reason);
        }
        var next := Align4(offset + 110 + f[11]);
        AlignGrows(offset + 110 + f[11]);
        AlignGrows(next + f[6]);
        if name.value == DOT || name.value == DOT_DOT {
          offset := next;
        } else if name.value == TRAILER {
          var rest := Find(data, next);
          if rest == None {
            return None;
          }
          offset := rest.value;
        } else {
          entries := entries[name.value := EntryFrom(f, Slice(data, next, next + f[6]))];
          offset := Align4(next + f[6]);
        }
      }
      error := None;
    }

    /** `Cpio.dump` */
    method DumpBytes() returns (out: seq<byte>)
      ensures out == Dump(entries)
    {
      hide Record, Head, IsLeast, Less, Sorted, DumpNames;
      out := [];
      var inode := FIRST_INODE;
      var remaining := entries.Keys;
      while remaining != {}
        invariant remaining <= entries.Keys && |out| % 4 == 0
        invariant out + DumpNames(Sorted(remaining), entries, inode) == Dump(entries)
        decreases remaining
      {
        LeastExists(remaining);
        var name :| name in remaining && IsLeast(name, remaining);
        ghost var was := out;
        SortedStep(remaining, name, entries, inode);
        out := WriteHead(out, inode, name, entries[name]);
        out := WriteData(out, entries[name].data);
        RecordSplits(was, inode, name, entries[name], DumpNames(Sorted(remaining - {name}), entries, inode + 1));
        inode := inode + 1;
        remaining := remaining - {name};
      }
      DumpEnd(entries, inode);
      SortedNone();
      out := WriteHead(out, inode, TRAILER, END);
    }

    /** `exists` */
    method Exists(path: Name) returns (r: bool)
      ensures r <==> NormPath(path) in entries
    {
      r := NormPath(path) in entries;
    }

    /** `add` */
    method Add(path: Name, e: Entry)
      modifies this
      ensures entries == old(entries)[NormPath(path) := e]
    {
      entries := entries[NormPath(path) := e];
    }

    /** `move`: fails, like `dict.pop`, when there is no such entry. */
    method Move(source: Name, target: Name) returns (ok: bool)
      modifies this
      ensures ok == (NormPath(source) in old(entries))
      ensures !ok ==> entries == old(entries)
      ensures ok ==> entries == (old(entries) - {NormPath(source)})[NormPath(target) := old(entries)[NormPath(source)]]
    {
      var from := NormPath(source);
      if from !in entries {
        return false;
      }
      var moved := entries[from];
      entries := entries - {from};
      entries := entries[NormPath(target) := moved];
      ok := true;
    }
  }

  /** A header and its name, padded to the absolute length. */
  method WriteHead(start: seq<byte>, inode: nat, name: Name, e: Entry) returns (out: seq<byte>)
    requires |start| % 4 == 0
    ensures out == start + Head(inode, name, e) && |out| % 4 == 0
  {
    hide Padded, Header, Chars, Align4;
    out := start + Header(inode, e, Chars(name));
    out := out + (name + [0]);
    PadsAbsolutely(start, Header(inode, e, Chars(name)) + (name + [0]));
    assert out == start + (Header(inode, e, Chars(name)) + (name + [0]));
    AlignGrows(|out|);
    out := out + Zeros(Align4(|out|) - |out|);
  }

  /** An entry's data, if it has any, padded to the absolute length. */
  method WriteData(start: seq<byte>, data: seq<byte>) returns (out: seq<byte>)
    requires |start| % 4 == 0
    ensures out == start + Padded(data) && |out| % 4 == 0
  {
    hide Padded, Align4;
    out := start;
    PadsAbsolutely(start, data);
    AlignGrows(|start + data|);
    if data != [] {
      out := out + data;
      out := out + Zeros(Align4(|out|) - |out|);
    } else {
      NothingPadded();
    }
  }

  lemma NothingPadded()
    ensures Padded([]) == []
  {
  }

  lemma RecordSplits(start: seq<byte>, inode: nat, name: Name, e: Entry, rest: seq<byte>)
    ensures start + Head(inode, name, e) + Padded(e.data) + rest == start + (Record(inode, name, e) + rest)
  {
    hide Head, Padded;
  }

  lemma SortedNone()
    ensures Sorted({}) == []
  {
  }

  lemma AlignGrows(n: nat)
    ensures Align4(n) >= n
  {
  }

  /** Padding to the absolute length is padding of the last part, after an aligned start. */
  lemma PadsAbsolutely(was: seq<byte>, part: seq<byte>)
    requires |was| % 4 == 0
    ensures var out := was + part; out + Zeros(Align4(|out|) - |out|) == was + Padded(part)
    ensures |was + Padded(part)| % 4 == 0
  {
    AlignShift(|was|, |part|);
  }

  /** The least remaining name comes next. */
  lemma SortedStep(remaining: set<Name>, name: Name, entries: Entries, inode: nat)
    requires remaining != {} && remaining <= entries.Keys && IsLeast(name, remaining)
    ensures DumpNames(Sorted(remaining), entries, inode)
         == Record(inode, name, entries[name]) + DumpNames(Sorted(remaining - {name}), entries, inode + 1)
  {
    hide Record, Less;
    LeastUnique(remaining, name);
    var names := Sorted(remaining);
    assert names == [name] + Sorted(remaining - {name});
    assert names[1..] == Sorted(remaining - {name});
    DumpCons(names, entries, inode);
  }
}

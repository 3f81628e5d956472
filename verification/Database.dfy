/** The chunked transfer of the opaque template database between the fingerprint TA
    and a file: every short read, short write and refused command included. */
module Database {
  import opened Bytes

  const CHUNK: nat := 4080
  const INT32_MAX: nat := 0x7fff_ffff

  datatype Transfer = Idle | Export(at: nat) | Import(expected: nat, got: seq<byte>)

  /** The commands of the transfer: 4/6, 4/14 with mode and size, 4/16, 4/17, 4/15. */
  datatype Call = GetSize | Begin(mode: nat, size: nat) | Get(count: nat) | Put(count: nat) | End

  /** One chunk, as it is answered: the TA's status, and how many bytes each read or
      write of the file moves. */
  datatype Chunk = Chunk(status: int, moves: seq<int>)

  /** What an export meets, in order. */
  datatype ExportReplies = ExportReplies(
    size: int, begin: int, create: bool, chunks: seq<Chunk>, sync: bool, finish: int, close: bool, unlink: bool)

  /** What an import meets, in order. */
  datatype ImportReplies = ImportReplies(regular: bool, begin: int, chunks: seq<Chunk>, finish: int, close: bool)

  // ----- which replies make a transfer succeed

  /** Reads or writes that move these many bytes at most move `count` in all before one
      of them moves none. */
  predicate Moves(count: nat, moves: seq<int>)
    decreases |moves|
  {
    count == 0 || (moves != [] && moves[0] > 0 && Moves(if moves[0] < count then count - moves[0] else 0, moves[1..]))
  }

  /** Every chunk of `remaining` bytes is moved, and the TA counts them down. */
  predicate Transfers(remaining: nat, chunks: seq<Chunk>)
    decreases |chunks|
  {
    remaining == 0
    || (chunks != [] && var count := if remaining < 4080 then remaining else 4080;
                        Moves(count, chunks[0].moves) && chunks[0].status == remaining - count && Transfers(remaining - count, chunks[1..]))
  }

  predicate Exports(total: nat, before: Option<seq<byte>>, r: ExportReplies) {
    && r.size == 0 && 0 < total <= 0x7fff_ffff && r.begin == 0 && before.None? && r.create
    && Transfers(total, r.chunks) && r.sync && r.finish == 0 && r.close
  }

  predicate Imports(file: Option<seq<byte>>, r: ImportReplies) {
    && file.Some? && r.regular && 0 < |file.value| <= 0x7fff_ffff && r.begin == 0
    && Transfers(|file.value|, r.chunks) && r.finish == 0 && r.close
  }

  /** The chunk commands for `remaining` bytes. */
  function ChunkCalls(remaining: nat, export_: bool): seq<Call>
    decreases remaining
  {
    if remaining == 0 then []
    else
      var count := if remaining < 4080 then remaining else 4080;
      [if export_ then Get(count) else Put(count)] + ChunkCalls(remaining - count, export_)
  }

  /** The TA's side. A command fails with some status of its own; a chunk command that
      answers with the right remaining count has moved its chunk. */
  class Ta {
    var data: seq<byte>
    var transfer: Transfer
    var begins: nat       // accepted begin commands
    var finishes: nat     // finish commands sent
    ghost var calls: seq<Call>

    method Size(status: int) returns (total: nat)
      modifies this`calls
      ensures total == |data| && calls == old(calls) + [GetSize]
    {
      total := |data|;
      calls := calls + [GetSize];
    }

    method BeginExport(status: int, size: nat)
      modifies this`transfer, this`begins, this`calls
      ensures calls == old(calls) + [Begin(0, size)]
      ensures status == 0 ==> transfer == Export(0) && begins == old(begins) + 1
      ensures status != 0 ==> begins == old(begins)
    {
      if status == 0 {
        transfer, begins := Export(0), begins + 1;
      }
      calls := calls + [Begin(0, size)];
    }

    method BeginImport(status: int, size: nat)
      modifies this`transfer, this`begins, this`calls
      ensures calls == old(calls) + [Begin(1, size)]
      ensures status == 0 ==> transfer == Import(size, []) && begins == old(begins) + 1
      ensures status != 0 ==> begins == old(begins)
    {
      if status == 0 {
        transfer, begins := Import(size, []), begins + 1;
      }
      calls := calls + [Begin(1, size)];
    }

    method ReadChunk(count: nat, status: int) returns (chunk: seq<byte>)
      requires transfer.Export? && transfer.at + count <= |data|
      modifies this`transfer, this`calls
      ensures |chunk| == count && transfer.Export? && calls == old(calls) + [Get(count)]
      ensures status == |data| - old(transfer.at) - count ==>
        chunk == data[old(transfer.at)..old(transfer.at) + count] && transfer == Export(old(transfer.at) + count)
    {
      var at := transfer.at;
      if status == |data| - at - count {
        chunk := data[at..at + count];
        transfer := Export(at + count);
      } else {
        chunk := seq(count, i => 0);
      }
      calls := calls + [Get(count)];
    }

    /** The chunk that completes the database installs it. */
    method WriteChunk(chunk: seq<byte>, status: int)
      requires transfer.Import? && |transfer.got| + |chunk| <= transfer.expected
      modifies this`transfer, this`data, this`calls
      ensures transfer.Import? && calls == old(calls) + [Put(|chunk|)]
      ensures status == old(transfer.expected) - |old(transfer.got)| - |chunk| ==>
        transfer == Import(old(transfer.expected), old(transfer.got) + chunk)
        && (status == 0 ==> data == old(transfer.got) + chunk)
    {
      var got, expected := transfer.got + chunk, transfer.expected;
      if status == expected - |got| {
        transfer := Import(expected, got);
        if status == 0 {
          data := got;
        }
      }
      calls := calls + [Put(|chunk|)];
    }

    method Finish(status: int)
      modifies this`transfer, this`finishes, this`calls
      ensures finishes == old(finishes) + 1 && calls == old(calls) + [End]
    {
      transfer, finishes, calls := Idle, finishes + 1, calls + [End];
    }
  }

  /** One path of the file system. */
  class Path {
    var file: Option<seq<byte>>

    /** `O_CREAT | O_EXCL` */
    method Create(works: bool) returns (ok: bool)
      modifies this`file
      ensures ok == (works && old(file).None?)
      ensures file == if ok then Some([]) else old(file)
    {
      ok := works && file.None?;
      if ok {
        file := Some([]);
      }
    }

    /** `write`: some of the bytes, or none and an error. */
    method Write(bytes: seq<byte>, moved: int) returns (written: int)
      requires file.Some? && bytes != []
      modifies this`file
      ensures file.Some? && written == if moved > |bytes| then |bytes| else moved
      ensures written > 0 ==> file.value == old(file.value) + bytes[..written]
      ensures written <= 0 ==> file == old(file)
    {
      written := if moved > |bytes| then |bytes| else moved;
      if written > 0 {
        file := Some(file.value + bytes[..written]);
      }
    }

    /** `read` at an offset: some bytes, or none at the end or after an error. */
    method Read(at: nat, want: nat, moved: int) returns (bytes: seq<byte>)
      requires file.Some? && want > 0 && at + want <= |file.value|
      ensures |bytes| == (if moved <= 0 then 0 else if moved > want then want else moved)
      ensures bytes == file.value[at..at + |bytes|]
    {
      var n := if moved <= 0 then 0 else if moved > want then want else moved;
      bytes := file.value[at..at + n];
    }

    method Unlink(works: bool)
      modifies this`file
      ensures file == if works then None else old(file)
    {
      if works {
        file := None;
      }
    }
  }

  // ----- store_database

  /** What an export may do to the path: nothing to an existing file; a new one is
      the whole database or, unless removing it failed, absent. */
  predicate Exported(before: Option<seq<byte>>, after: Option<seq<byte>>, data: seq<byte>, unlink: bool, ok: bool) {
    && (before.Some? ==> !ok && after == before)
    && (before.None? && unlink ==> after == None || after == Some(data))
    && (ok ==> after == Some(data))
  }

  /** `store_database` */
  method StoreDatabase(ta: Ta, path: Path, r: ExportReplies) returns (ok: bool)
    modifies ta`transfer, ta`begins, ta`finishes, ta`calls, path
    ensures Exported(old(path.file), path.file, ta.data, r.unlink, ok)
    ensures ta.finishes - old(ta.finishes) == ta.begins - old(ta.begins)
    ensures ok ==> ta.begins == old(ta.begins) + 1
    ensures ok <==> Exports(|ta.data|, old(path.file), r)
    ensures ok ==> ta.calls == old(ta.calls) + [GetSize, Begin(0, |ta.data|)] + ChunkCalls(|ta.data|, true) + [End]
  {
    hide Transfers, ChunkCalls;
    var total := ta.Size(r.size);
    if r.size != 0 {
      return false;
    }
    if total == 0 || total > INT32_MAX {
      return false;
    }
    ta.BeginExport(r.begin, total);
    if r.begin != 0 {
      return false;
    }
    var complete := false;
    var created := path.Create(r.create);
    if created {
      complete := CopyOut(ta, path, total, r);
    }
    ok := complete;
    ta.Finish(r.finish);
    if r.finish != 0 {
      ok := false;
    }
    if created {
      if !r.close {
        ok := false;
      }
      if !ok && !complete {
        path.Unlink(r.unlink);
      }
    }
  }

  /** The chunk loop and the fsync. */
  method CopyOut(ta: Ta, path: Path, total: nat, r: ExportReplies) returns (complete: bool)
    requires path.file == Some([]) && ta.transfer == Export(0) && total == |ta.data|
    modifies ta`transfer, ta`calls, path`file
    ensures path.file.Some? && complete == (Transfers(total, r.chunks) && r.sync)
    ensures complete ==> path.file == Some(ta.data) && ta.calls == old(ta.calls) + ChunkCalls(total, true)
  {
    var remaining, i := total, 0;
    while remaining > 0
      invariant 0 <= remaining <= total && path.file == Some(ta.data[..total - remaining]) && ta.transfer == Export(total - remaining)
      invariant i <= |r.chunks| && Transfers(total, r.chunks) == Transfers(remaining, r.chunks[i..])
      invariant ta.calls + ChunkCalls(remaining, true) == old(ta.calls) + ChunkCalls(total, true)
    {
      if i == |r.chunks| {
        return false;
      }
      var count := if remaining < CHUNK then remaining else CHUNK;
      assert r.chunks[i..][1..] == r.chunks[i + 1..];
      var status := r.chunks[i].status;
      var chunk := ta.ReadChunk(count, status);
      if status < 0 || status != remaining - count {
        return false;
      }
      var written := WriteAll(path, chunk, r.chunks[i].moves);
      if !written {
        return false;
      }
      assert ta.data[..total - remaining] + ta.data[total - remaining..total - remaining + count] == ta.data[..total - status];
      remaining, i := status, i + 1;
    }
    assert ta.data[..total] == ta.data;
    complete := r.sync;
  }

  method WriteAll(path: Path, chunk: seq<byte>, moves: seq<int>) returns (ok: bool)
    requires path.file.Some?
    modifies path`file
    ensures path.file.Some? && ok == Moves(|chunk|, moves)
    ensures ok ==> path.file.value == old(path.file.value) + chunk
  {
    var offset, i := 0, 0;
    while offset < |chunk|
      invariant offset <= |chunk| && path.file.Some? && path.file.value == old(path.file.value) + chunk[..offset]
      invariant i <= |moves| && Moves(|chunk|, moves) == Moves(|chunk| - offset, moves[i..])
      decreases |chunk| - offset
    {
      if i == |moves| {
        return false;
      }
      assert moves[i..][1..] == moves[i + 1..];
      var written := path.Write(chunk[offset..], moves[i]);
      if written <= 0 {
        return false;
      }
      assert chunk[..offset] + chunk[offset..][..written] == chunk[..offset + written];
      offset, i := offset + written, i + 1;
    }
    assert chunk[..offset] == chunk;
    ok := true;
  }

  // ----- load_database

  /** `load_database` */
  method LoadDatabase(ta: Ta, path: Path, r: ImportReplies) returns (ok: bool)
    modifies ta
    ensures ok <==> Imports(path.file, r)
    ensures ok ==> ta.data == path.file.value
    ensures ta.finishes - old(ta.finishes) == ta.begins - old(ta.begins)
    ensures ok ==> ta.calls == old(ta.calls) + [Begin(1, |path.file.value|)] + ChunkCalls(|path.file.value|, false) + [End]
  {
    hide Transfers, ChunkCalls;
    if path.file.None? {
      return false;
    }
    if !r.regular || |path.file.value| == 0 || |path.file.value| > INT32_MAX {
      return false;
    }
    ta.BeginImport(r.begin, |path.file.value|);
    if r.begin == 0 {
      ok := CopyIn(ta, path, r.chunks);
      ta.Finish(r.finish);
      if r.finish != 0 {
        ok := false;
      }
    } else {
      ok := false;
    }
    if !r.close {
      ok := false;
    }
  }

  method CopyIn(ta: Ta, path: Path, chunks: seq<Chunk>) returns (ok: bool)
    requires path.file.Some? && path.file.value != [] && ta.transfer == Import(|path.file.value|, [])
    modifies ta`transfer, ta`data, ta`calls
    ensures ok == Transfers(|path.file.value|, chunks)
    ensures ok ==> ta.data == path.file.value && ta.calls == old(ta.calls) + ChunkCalls(|path.file.value|, false)
  {
    var file := path.file.value;
    var remaining, i := |file|, 0;
    while remaining > 0
      invariant 0 <= remaining <= |file| && ta.transfer == Import(|file|, file[..|file| - remaining])
      invariant remaining == 0 ==> ta.data == file
      invariant i <= |chunks| && Transfers(|file|, chunks) == Transfers(remaining, chunks[i..])
      invariant ta.calls + ChunkCalls(remaining, false) == old(ta.calls) + ChunkCalls(|file|, false)
    {
      if i == |chunks| {
        return false;
      }
      var count := if remaining < CHUNK then remaining else CHUNK;
      assert chunks[i..][1..] == chunks[i + 1..];
      var chunk, whole := ReadAll(path, |file| - remaining, count, chunks[i].moves);
      if !whole {
        return false;
      }
      var status := chunks[i].status;
      ta.WriteChunk(chunk, status);
      if status < 0 || status != remaining - count {
        return false;
      }
      assert file[..|file| - remaining] + chunk == file[..|file| - status];
      remaining, i := status, i + 1;
      assert remaining == 0 ==> file[..|file|] == file;
    }
    ok := true;
  }

  method ReadAll(path: Path, at: nat, count: nat, moves: seq<int>) returns (chunk: seq<byte>, ok: bool)
    requires path.file.Some? && at + count <= |path.file.value|
    ensures ok == Moves(count, moves)
    ensures ok ==> chunk == path.file.value[at..at + count]
  {
    chunk := [];
    var i := 0;
    while |chunk| < count
      invariant |chunk| <= count && chunk == path.file.value[at..at + |chunk|]
      invariant i <= |moves| && Moves(count, moves) == Moves(count - |chunk|, moves[i..])
      decreases count - |chunk|
    {
      if i == |moves| {
        return chunk, false;
      }
      assert moves[i..][1..] == moves[i + 1..];
      var received := path.Read(at + |chunk|, count - |chunk|, moves[i]);
      if received == [] {
        return chunk, false;
      }
      chunk, i := chunk + received, i + 1;
    }
    ok := true;
  }

  /** What one session exports, a later session reinstalls byte for byte, exactly if
      neither transfer is disturbed. */
  method StoreThenLoad(first: Ta, path: Path, second: Ta, r: ExportReplies, t: ImportReplies) returns (stored: bool, loaded: bool)
    requires first != second
    modifies first`transfer, first`begins, first`finishes, first`calls, path, second
    ensures loaded && stored ==> second.data == first.data
    ensures stored ==> old(path.file).None?
    ensures !stored && old(path.file).Some? ==> path.file == old(path.file)
    ensures stored && loaded <==> Exports(|first.data|, old(path.file), r) && Imports(Some(first.data), t)
  {
    hide Transfers, ChunkCalls;
    stored := StoreDatabase(first, path, r);
    loaded := false;
    if stored {
      loaded := LoadDatabase(second, path, t);
    }
  }

  /** What is left after chunk `i`. */
  function Left(total: nat, i: nat): nat {
    if total > 4080 * (i + 1) then total - 4080 * (i + 1) else 0
  }

  /** A transfer goes through if every call does, however few bytes each moves. */
  lemma {:induction false} Undisturbed(remaining: nat, chunks: seq<Chunk>)
    requires |chunks| >= (remaining + 4079) / 4080
    requires forall i :: 0 <= i < |chunks| ==>
               chunks[i].status == Left(remaining, i) && |chunks[i].moves| >= 4080
               && forall k :: 0 <= k < |chunks[i].moves| ==> chunks[i].moves[k] > 0
    ensures Transfers(remaining, chunks)
    decreases |chunks|
  {
    if remaining > 0 {
      var count := if remaining < 4080 then remaining else 4080;
      AllMoved(count, chunks[0].moves);
      forall i | 0 <= i < |chunks| - 1 ensures chunks[1..][i].status == Left(remaining - count, i) {
        assert chunks[1..][i] == chunks[i + 1];
      }
      Undisturbed(remaining - count, chunks[1..]);
    }
  }

  lemma {:induction false} AllMoved(count: nat, moves: seq<int>)
    requires count <= |moves| && forall k :: 0 <= k < |moves| ==> moves[k] > 0
    ensures Moves(count, moves)
    decreases |moves|
  {
    if count > 0 {
      AllMoved(if moves[0] < count then count - moves[0] else 0, moves[1..]);
    }
  }
}

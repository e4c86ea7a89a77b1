/** Chunked file transfer (sing/ipc/datacopy/datacopy_service.cpp): chunks may arrive in any order, and the files they
    make up are the same. Offsets are not negative. */
module DataCopy {
  import opened Bytes
  import opened Sets

  datatype FileChunk = FileChunk(filename: string, offset: nat, data: bytes, isFinal: bool)

  datatype StoredFile = StoredFile(data: bytes, complete: bool)

  const NO_FILE: StoredFile := StoredFile([], false)

  function Max(a: nat, b: nat): nat { if a < b then b else a }

  function End(c: FileChunk): nat { c.offset + |c.data| }

  /** vector::resize, which only ever grows here and fills with zeros. */
  function Resized(data: bytes, size: nat): (r: bytes)
    ensures |r| == Max(|data|, size)
  {
    if |data| < size then data + seq(size - |data|, _ => 0 as byte) else data
  }

  function Put(data: bytes, c: FileChunk): (r: bytes)
    ensures |r| == Max(|data|, End(c))
  {
    var grown := Resized(data, End(c));
    grown[..c.offset] + c.data + grown[End(c)..]
  }

  function Received(f: StoredFile, c: FileChunk): StoredFile { StoredFile(Put(f.data, c), f.complete || c.isFinal) }

  function FileOf(files: map<string, StoredFile>, name: string): StoredFile { if name in files then files[name] else NO_FILE }

  // ---------------------------------------------------------------- a run of the service

  datatype Operation = WriteOp(chunk: FileChunk) | DeleteOp(filename: string) | ClearOp

  function After(files: map<string, StoredFile>, op: Operation): map<string, StoredFile> {
    match op
    case WriteOp(c) => files[c.filename := Received(FileOf(files, c.filename), c)]
    case DeleteOp(name) => files - {name}
    case ClearOp => map[]
  }

  function Run(ops: seq<Operation>): map<string, StoredFile> {
    if ops == [] then map[] else After(Run(ops[..|ops| - 1]), ops[|ops| - 1])
  }

  /** The chunks of one file since it was last deleted or everything was cleared; none if it does not exist. */
  function ChunksOf(ops: seq<Operation>, name: string): seq<FileChunk> {
    if ops == [] then []
    else
      var before := ChunksOf(ops[..|ops| - 1], name);
      match ops[|ops| - 1]
      case WriteOp(c) => if c.filename == name then before + [c] else before
      case DeleteOp(n) => if n == name then [] else before
      case ClearOp => []
  }

  function Assembled(cs: seq<FileChunk>): bytes {
    if cs == [] then [] else Put(Assembled(cs[..|cs| - 1]), cs[|cs| - 1])
  }

  /** In every run a stored file is what its own chunks assemble to, whatever happens to other files in between. */
  lemma {:induction false} FilesAreIndependent(ops: seq<Operation>, name: string)
    ensures name in Run(ops) <==> ChunksOf(ops, name) != []
    ensures FileOf(Run(ops), name).data == Assembled(ChunksOf(ops, name))
  {
    if ops != [] {
      var n := |ops| - 1;
      FilesAreIndependent(ops[..n], name);
      var before := ChunksOf(ops[..n], name);
      match ops[n] {
        case WriteOp(c) =>
          if c.filename == name {
            assert (before + [c])[..|before|] == before;
          }
        case _ =>
      }
    }
  }

  // ---------------------------------------------------------------- order does not matter

  function MaxEnd(cs: seq<FileChunk>): nat {
    if cs == [] then 0 else Max(MaxEnd(cs[..|cs| - 1]), End(cs[|cs| - 1]))
  }

  predicate Covers(c: FileChunk, i: nat) { c.offset <= i < End(c) }

  predicate Covered(cs: seq<FileChunk>, i: nat) { exists c :: c in cs && Covers(c, i) }

  /** A chunk is a stretch of a file. */
  predicate PartOf(c: FileChunk, file: bytes) { End(c) <= |file| && c.data == file[c.offset..End(c)] }

  lemma PutAt(data: bytes, c: FileChunk, i: nat)
    requires i < Max(|data|, End(c))
    ensures Put(data, c)[i] == if Covers(c, i) then c.data[i - c.offset] else if i < |data| then data[i] else 0
  {
  }

  /** total_received is always the largest end offset written to the file so far. */
  lemma {:induction false} TotalIsMaxEnd(cs: seq<FileChunk>)
    ensures |Assembled(cs)| == MaxEnd(cs)
  {
    if cs != [] {
      TotalIsMaxEnd(cs[..|cs| - 1]);
    }
  }

  lemma {:induction false} EndsWithin(cs: seq<FileChunk>, file: bytes)
    requires forall c :: c in cs ==> PartOf(c, file)
    ensures MaxEnd(cs) <= |file|
  {
    if cs != [] {
      EndsWithin(cs[..|cs| - 1], file);
      assert PartOf(cs[|cs| - 1], file);
    }
  }

  lemma {:induction false} AssembledByte(cs: seq<FileChunk>, file: bytes, i: nat)
    requires forall c :: c in cs ==> PartOf(c, file)
    requires i < MaxEnd(cs) <= |file|
    ensures |Assembled(cs)| == MaxEnd(cs)
    ensures Assembled(cs)[i] == if Covered(cs, i) then file[i] else 0
  {
    hide Put, Covered;
    var before, c := cs[..|cs| - 1], cs[|cs| - 1];
    TotalIsMaxEnd(cs);
    TotalIsMaxEnd(before);
    assert before + [c] == cs && PartOf(c, file);
    PutAt(Assembled(before), c, i);
    CoveredStep(before, c, i);
    if i < MaxEnd(before) {
      AssembledByte(before, file, i);
    } else {
      BeyondMaxEnd(before, i);
    }
  }

  /** What stretches of one file assemble to: their bytes where some chunk reaches, zeros elsewhere, up to the largest
      end offset. */
  lemma AssembledBytes(cs: seq<FileChunk>, file: bytes)
    requires forall c :: c in cs ==> PartOf(c, file)
    ensures |Assembled(cs)| == MaxEnd(cs) <= |file|
    ensures forall i :: 0 <= i < MaxEnd(cs) ==> Assembled(cs)[i] == if Covered(cs, i) then file[i] else 0
  {
    TotalIsMaxEnd(cs);
    EndsWithin(cs, file);
    forall i: nat | i < MaxEnd(cs)
      ensures Assembled(cs)[i] == if Covered(cs, i) then file[i] else 0
    {
      AssembledByte(cs, file, i);
    }
  }

  lemma CoveredStep(before: seq<FileChunk>, c: FileChunk, i: nat)
    ensures Covered(before + [c], i) <==> Covered(before, i) || Covers(c, i)
  {
    assert forall x :: x in before + [c] <==> x in before || x == c;
  }

  lemma {:induction false} BeyondMaxEnd(cs: seq<FileChunk>, i: nat)
    ensures Covered(cs, i) ==> i < MaxEnd(cs)
  {
    if cs != [] {
      var before, c := cs[..|cs| - 1], cs[|cs| - 1];
      BeyondMaxEnd(before, i);
      CoveredStep(before, c, i);
      assert before + [c] == cs;
    }
  }

  /** Stretches of a file, in any order, rebuild it exactly if they reach its end and miss only zero bytes. */
  lemma RebuiltIff(cs: seq<FileChunk>, file: bytes)
    requires forall c :: c in cs ==> PartOf(c, file)
    ensures Assembled(cs) == file <==>
        MaxEnd(cs) == |file| && forall i :: 0 <= i < |file| && !Covered(cs, i) ==> file[i] == 0
  {
    AssembledBytes(cs, file);
    if MaxEnd(cs) == |file| {
      assert Assembled(cs) == file <==> forall i :: 0 <= i < |file| ==> Assembled(cs)[i] == file[i];
    }
  }

  /** Each byte of a file in exactly one of some chunks, each of which is a stretch of it. */
  predicate Partitions(cs: seq<FileChunk>, file: bytes) {
    && (forall c :: c in cs ==> PartOf(c, file))
    && (forall i: nat :: i < |file| ==> Covered(cs, i))
    && (forall i, j, k :: 0 <= i < |file| && 0 <= j < k < |cs| ==> !(Covers(cs[j], i) && Covers(cs[k], i)))
  }

  lemma SameElements(a: seq<FileChunk>, b: seq<FileChunk>)
    requires multiset(a) == multiset(b)
    ensures forall c :: c in a <==> c in b
  {
    forall c
      ensures c in a <==> c in b
    {
      assert c in a <==> c in multiset(a);
      assert c in b <==> c in multiset(b);
    }
  }

  /** Writing any permutation of chunks that partition a file rebuilds exactly that file. */
  lemma AnyOrderRebuilds(cs: seq<FileChunk>, order: seq<FileChunk>, file: bytes)
    requires Partitions(cs, file) && multiset(order) == multiset(cs)
    ensures Assembled(order) == file
  {
    SameElements(order, cs);
    AssembledBytes(order, file);
    forall i: nat | i < |file|
      ensures Covered(order, i) && i < MaxEnd(order)
    {
      assert Covered(cs, i);
      BeyondMaxEnd(order, i);
    }
    if file != [] {
      assert Covered(order, |file| - 1);
    }
  }

  /** In every run, however transfers of other files are interleaved, a file whose chunks have arrived in some order is
      complete and exact. */
  lemma InterleavedTransferRebuilds(ops: seq<Operation>, name: string, cs: seq<FileChunk>, file: bytes)
    requires Partitions(cs, file) && multiset(ChunksOf(ops, name)) == multiset(cs)
    ensures FileOf(Run(ops), name).data == file
  {
    FilesAreIndependent(ops, name);
    AnyOrderRebuilds(cs, ChunksOf(ops, name), file);
  }

  /** In every run a file is as long as the largest end offset written to it so far. */
  lemma SizeIsMaxEnd(ops: seq<Operation>, name: string)
    ensures |FileOf(Run(ops), name).data| == MaxEnd(ChunksOf(ops, name))
  {
    FilesAreIndependent(ops, name);
    TotalIsMaxEnd(ChunksOf(ops, name));
  }

  // ---------------------------------------------------------------- storage used

  /** The sum of all file sizes. */
  ghost function StorageUsed(files: map<string, StoredFile>): nat
    decreases |files.Keys|
  {
    if files.Keys == {} then 0
    else
      var name :| name in files;
      |files[name].data| + StorageUsed(files - {name})
  }

  lemma {:induction false} StorageWithout(files: map<string, StoredFile>, name: string)
    requires name in files
    ensures StorageUsed(files) == |files[name].data| + StorageUsed(files - {name})
    decreases |files.Keys|
  {
    var other :| other in files && StorageUsed(files) == |files[other].data| + StorageUsed(files - {other});
    if other != name {
      StorageWithout(files - {other}, name);
      StorageWithout(files - {name}, other);
      assert files - {other} - {name} == files - {name} - {other};
    }
  }

  /** A write grows the storage used by exactly what the file grew. */
  lemma WriteGrowsStorage(files: map<string, StoredFile>, c: FileChunk)
    ensures var f := FileOf(files, c.filename);
            StorageUsed(After(files, WriteOp(c))) == StorageUsed(files) + (Max(|f.data|, End(c)) - |f.data|)
  {
    var after := After(files, WriteOp(c));
    StorageWithout(after, c.filename);
    assert after - {c.filename} == files - {c.filename};
    if c.filename in files {
      StorageWithout(files, c.filename);
    } else {
      assert files - {c.filename} == files;
    }
  }

  // ---------------------------------------------------------------- the service object

  datatype WriteResult = WriteResult(bytesWritten: nat, totalReceived: nat)

  /** std::copy after i bytes. */
  function Copied(grown: bytes, c: FileChunk, i: nat): (r: bytes)
    requires i <= |c.data| && End(c) <= |grown|
    ensures |r| == |grown|
  {
    grown[..c.offset] + c.data[..i] + grown[c.offset + i..]
  }

  lemma CopyOneMore(grown: bytes, c: FileChunk, i: nat)
    requires i < |c.data| && End(c) <= |grown|
    ensures Copied(grown, c, i)[c.offset + i := c.data[i]] == Copied(grown, c, i + 1)
  {
  }

  /** In every run a file is complete once a chunk marked as the last one has arrived since it was last deleted. */
  lemma {:induction false} CompleteIff(ops: seq<Operation>, name: string)
    ensures FileOf(Run(ops), name).complete <==> exists k :: 0 <= k < |ChunksOf(ops, name)| && ChunksOf(ops, name)[k].isFinal
    decreases |ops|
  {
    if ops != [] {
      var n := |ops| - 1;
      CompleteIff(ops[..n], name);
      var before, now := ChunksOf(ops[..n], name), ChunksOf(ops, name);
      if ops[n].WriteOp? && ops[n].chunk.filename == name {
        assert now == before + [ops[n].chunk] && now[|before|] == ops[n].chunk;
        assert forall k :: 0 <= k < |before| ==> now[k] == before[k];
      }
    }
  }

  class DataCopyService {
    var files: map<string, StoredFile>

    constructor ()
      ensures files == map[]
    {
      files := map[];
    }

    method WriteChunk(c: FileChunk) returns (r: WriteResult)
      modifies this
      ensures files == After(old(files), WriteOp(c))
      ensures r == WriteResult(|c.data|, |files[c.filename].data|)
      ensures r.totalReceived == Max(|FileOf(old(files), c.filename).data|, End(c))
    {
      var file := FileOf(files, c.filename);
      var requiredSize := c.offset + |c.data|;
      var data := file.data;
      if |data| < requiredSize {
        data := Resized(data, requiredSize);
      }
      ghost var grown := data;
      var i := 0;
      assert data == Copied(grown, c, 0);
      while i < |c.data|
        invariant 0 <= i <= |c.data| && |data| == |grown|
        invariant data == Copied(grown, c, i) && files == old(files)
      {
        CopyOneMore(grown, c, i);
        data := data[c.offset + i := c.data[i]];
        i := i + 1;
      }
      assert c.data[..i] == c.data;
      assert data == Put(file.data, c);
      files := files[c.filename := StoredFile(data, file.complete || c.isFinal)];
      r := WriteResult(|c.data|, |data|);
    }

    method ReadFile(filename: string) returns (r: Option<bytes>)
      ensures r == if filename in files then Some(files[filename].data) else None
    {
      r := if filename in files then Some(files[filename].data) else None;
    }

    method DeleteFile(filename: string) returns (existed: bool)
      modifies this
      ensures files == After(old(files), DeleteOp(filename)) && (existed <==> filename in old(files))
    {
      existed := filename in files;
      files := files - {filename};
    }

    method ClearAll() returns (count: nat)
      modifies this
      ensures files == After(old(files), ClearOp) && count == |old(files).Keys|
    {
      count := |files.Keys|;
      files := map[];
    }

    method GetStorageUsed() returns (total: nat)
      ensures total == StorageUsed(files)
    {
      total := 0;
      var rest := files;
      while rest.Keys != {}
        invariant total + StorageUsed(rest) == StorageUsed(files)
        decreases |rest.Keys|
      {
        ghost var some := SomeMember(rest.Keys);
        var name :| name in rest.Keys;
        StorageWithout(rest, name);
        assert (rest - {name}).Keys == rest.Keys - {name};
        total := total + |rest[name].data|;
        rest := rest - {name};
      }
    }
  }
}

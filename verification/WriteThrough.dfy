/** Storing a file through the chunk cache: the file is cut into chunk files that are copied by a reader
    free to return short, and the size file is written only if every chunk was. */
module WriteThrough {
  import C = ChunkCache
  import opened Wrappers

  type Byte = C.Byte

  const BUFFER := 32768  // the copy buffer of io.Copy

  // ---------------------------------------------------------------- the environment

  datatype ReadError = NoError | EndOfFile | Failure

  datatype ReadOutcome = ReadOutcome(n: nat, err: ReadError)

  /** Everything outside decides: whether the semaphore refuses a task, whether files open, how much each
      read of an offset and each write to a chunk file does, and whether removing a file or publishing the size fails. */
  datatype Env = Env(
    refused: nat -> bool,
    opens: nat -> bool,
    readAt: (nat, nat, nat) -> ReadOutcome,
    writes: (nat, nat, nat) -> nat,
    removes: nat -> bool,
    sizeLocks: bool)

  /** The reader contract: bytes come from the file, end of file is told only at its end, and nothing is
      read only with a reason. */
  predicate Lawful(size: nat, offset: nat, len: nat, r: ReadOutcome) {
    && r.n <= len && (0 < r.n ==> offset + r.n <= size)
    && (r.err.EndOfFile? ==> size <= offset + r.n)
    && (r.n == 0 ==> !r.err.NoError?)
  }

  ghost predicate IsReaderAt(size: nat, readAt: (nat, nat, nat) -> ReadOutcome) {
    forall call, offset, len :: 0 < len ==> Lawful(size, offset, len, readAt(call, offset, len))
  }

  ghost predicate Faultless(env: Env) {
    && (forall i :: !env.refused(i) && env.opens(i) && env.removes(i))
    && (forall call, offset, len :: !env.readAt(call, offset, len).err.Failure?)
    && (forall idx, call, n :: env.writes(idx, call, n) == n) && env.sizeLocks
  }

  /** The bytes are what the file holds at `offset`. */
  predicate IsPiece(file: seq<Byte>, offset: nat, bytes: seq<Byte>) {
    bytes == [] || (offset + |bytes| <= |file| && bytes == file[offset..offset + |bytes|])
  }

  lemma PieceGrows(file: seq<Byte>, offset: nat, a: seq<Byte>, b: seq<Byte>)
    requires IsPiece(file, offset, a) && IsPiece(file, offset + |a|, b)
    ensures IsPiece(file, offset, a + b)
  {
    if a == [] { assert a + b == b; } else if b == [] { assert a + b == a; }
  }

  // ---------------------------------------------------------------- the copy loop

  class OffsetReader {
    const file: seq<Byte>
    const readAt: (nat, nat, nat) -> ReadOutcome
    var offset: nat
    var calls: nat

    constructor (file: seq<Byte>, readAt: (nat, nat, nat) -> ReadOutcome, offset: nat)
      ensures this.file == file && this.readAt == readAt && this.offset == offset
    {
      this.file, this.readAt, this.offset, this.calls := file, readAt, offset, 0;
    }

    /** Each read continues where the last one ended. */
    method Read(len: nat) returns (bytes: seq<Byte>, err: ReadError)
      requires 0 < len && IsReaderAt(|file|, readAt)
      modifies this
      ensures offset == old(offset) + |bytes| && |bytes| <= len
      ensures IsPiece(file, old(offset), bytes)
      ensures err.EndOfFile? ==> |file| <= offset
      ensures bytes == [] ==> !err.NoError?
      ensures err.Failure? ==> exists call, at, m :: readAt(call, at, m).err.Failure?
    {
      var r := readAt(calls, offset, len);
      assert Lawful(|file|, offset, len, r);
      bytes, err := if r.n == 0 then [] else file[offset..offset + r.n], r.err;
      offset, calls := offset + r.n, calls + 1;
    }
  }

  /** `io.CopyN`: at most `limit` bytes go to the file, and getting fewer is reported as end of file unless
      something failed. */
  method CopyN(reader: OffsetReader, limit: nat, writes: (nat, nat) -> nat) returns (written: seq<Byte>, err: ReadError)
    requires IsReaderAt(|reader.file|, reader.readAt)
    modifies reader
    ensures |written| <= limit && IsPiece(reader.file, old(reader.offset), written)
    ensures err.NoError? <==> |written| == limit
    ensures err.EndOfFile? ==> |reader.file| <= old(reader.offset) + |written|
    ensures err.Failure? ==> (exists call, at, m :: reader.readAt(call, at, m).err.Failure?) || exists call, m :: writes(call, m) != m
  {
    written, err := [], NoError;
    var remaining, call := limit, 0;
    while remaining > 0
      invariant err.NoError? && 0 <= remaining && remaining + |written| == limit
      invariant IsPiece(reader.file, old(reader.offset), written)
      invariant reader.offset == old(reader.offset) + |written|
      decreases remaining
    {
      var bytes, readErr := reader.Read(C.Min(BUFFER, remaining));
      remaining := remaining - |bytes|;
      if bytes != [] {
        var n := writes(call, |bytes|);
        call := call + 1;
        if n != |bytes| {
          var part := bytes[..C.Min(n, |bytes| - 1)];
          PieceGrows(reader.file, old(reader.offset), written, part);
          written := written + part;
          err := Failure;
          break;
        }
        PieceGrows(reader.file, old(reader.offset), written, bytes);
        written := written + bytes;
      }
      if !readErr.NoError? {
        err := readErr;
        break;
      }
    }
    if |written| == limit {
      err := NoError;
    } else if err.NoError? {
      err := EndOfFile;
    }
  }

  // ---------------------------------------------------------------- the chunk directory

  function NumChunks(c: C.Config): nat
    requires c.chunkSize > 0
  {
    (|c.blob| + c.chunkSize - 1) / c.chunkSize
  }

  lemma ProductsKeepOrder(a: nat, b: nat, d: nat)
    requires a <= b
    ensures a * d <= b * d
  {
  }

  lemma QuotientIsUnique(x: nat, q: nat, d: nat)
    requires d > 0 && q * d <= x < q * d + d
    ensures x / d == q && x % d == x - q * d
  {
    var k := x / d;
    assert x == k * d + x % d;
    assert (k + 1) * d == k * d + d && (q + 1) * d == q * d + d;
    if k < q {
      ProductsKeepOrder(k + 1, q, d);
    } else if q < k {
      ProductsKeepOrder(q + 1, k, d);
    }
  }

  lemma ChunkBounds(c: C.Config)
    requires c.chunkSize > 0
    ensures NumChunks(c) * c.chunkSize < |c.blob| + c.chunkSize && |c.blob| <= NumChunks(c) * c.chunkSize
  {
    var x := |c.blob| + c.chunkSize - 1;
    assert x == NumChunks(c) * c.chunkSize + x % c.chunkSize;
  }

  lemma ChunkCount(c: C.Config, n: nat)
    requires c.chunkSize > 0
    ensures n < NumChunks(c) <==> n * c.chunkSize < |c.blob|
  {
    ChunkBounds(c);
    var k := NumChunks(c);
    if n < k {
      ProductsKeepOrder(n + 1, k, c.chunkSize);
      assert (n + 1) * c.chunkSize == n * c.chunkSize + c.chunkSize;
    } else {
      ProductsKeepOrder(k, n, c.chunkSize);
    }
  }

  /** A schedule in which each of `n` tasks runs once. */
  ghost predicate IsSchedule(order: seq<nat>, n: nat) {
    && (forall i :: 0 <= i < |order| ==> order[i] < n)
    && (forall i, j :: 0 <= i < j < |order| ==> order[i] != order[j])
    && (forall p :: 0 <= p < n ==> p in order)
  }

  predicate HasChunk(c: C.Config, chunks: map<nat, seq<Byte>>, i: nat) {
    i in chunks && chunks[i] == C.Slice(c, i)
  }

  ghost predicate HasAllChunks(c: C.Config, chunks: map<nat, seq<Byte>>)
    requires c.chunkSize > 0
  {
    forall i :: 0 <= i < NumChunks(c) ==> i in chunks && chunks[i] == C.Slice(c, i)
  }

  /** The offsets the tasks are started for, in the order of the loop. */
  method TaskOffsets(c: C.Config) returns (offsets: seq<nat>)
    requires c.chunkSize > 0
    ensures |offsets| == NumChunks(c)
    ensures forall i :: 0 <= i < |offsets| ==> offsets[i] % c.chunkSize == 0 && C.ChunkIndex(c, offsets[i]) == i
  {
    offsets := [];
    var offset := 0;
    while offset < |c.blob|
      invariant offset == |offsets| * c.chunkSize && |offsets| <= NumChunks(c)
      invariant forall i :: 0 <= i < |offsets| ==> offsets[i] % c.chunkSize == 0 && C.ChunkIndex(c, offsets[i]) == i
      decreases |c.blob| - offset
    {
      ChunkCount(c, |offsets|);
      QuotientIsUnique(offset, |offsets|, c.chunkSize);
      assert (|offsets| + 1) * c.chunkSize == offset + c.chunkSize;
      offsets, offset := offsets + [offset], offset + c.chunkSize;
    }
    ChunkCount(c, |offsets|);
  }

  class ChunkDirectory {
    var chunks: map<nat, seq<Byte>>
    var size: Option<nat>

    constructor ()
      ensures chunks == map[] && size.None?
    {
      chunks, size := map[], None;
    }

    /** `writeChunkFromFile`: success leaves exactly the chunk's bytes, failure no file unless removing it
        failed too, and no other chunk is touched. */
    method WriteChunkFromFile(c: C.Config, offset: nat, env: Env) returns (ok: bool)
      requires c.chunkSize > 0 && IsReaderAt(|c.blob|, env.readAt) && offset % c.chunkSize == 0
      modifies this`chunks
      ensures ok ==> HasChunk(c, chunks, C.ChunkIndex(c, offset))
      ensures forall j :: j != C.ChunkIndex(c, offset) ==>
                (j in chunks <==> j in old(chunks)) && (j in chunks ==> chunks[j] == old(chunks)[j])
      ensures !ok ==> chunks == old(chunks) || C.ChunkIndex(c, offset) !in chunks || !env.removes(C.ChunkIndex(c, offset))
      ensures Faultless(env) ==> ok
    {
      var idx := C.ChunkIndex(c, offset);
      if !env.opens(idx) {
        return false;
      }
      var reader := new OffsetReader(c.blob, env.readAt, offset);
      var copied, err := CopyN(reader, c.chunkSize, (call: nat, n: nat) => env.writes(idx, call, n));
      chunks := chunks[idx := copied];
      if err.Failure? {
        if env.removes(idx) {
          chunks := chunks - {idx};
        }
        return false;
      }
      assert offset == idx * c.chunkSize;
      assert copied == C.Slice(c, idx);
      ok := true;
    }

    /** `createCacheBlocksFromFile`: one task per offset, run under the error collector in any order. */
    method CreateCacheBlocksFromFile(c: C.Config, order: seq<nat>, env: Env) returns (total: nat, ok: bool)
      requires c.chunkSize > 0 && IsReaderAt(|c.blob|, env.readAt) && IsSchedule(order, NumChunks(c))
      modifies this`chunks
      ensures total == |c.blob| && (ok ==> HasAllChunks(c, chunks))
      ensures forall j :: NumChunks(c) <= j ==> (j in chunks <==> j in old(chunks)) && (j in chunks ==> chunks[j] == old(chunks)[j])
      ensures Faultless(env) ==> ok
    {
      total := |c.blob|;
      var offsets := TaskOffsets(c);
      ok := true;
      for i := 0 to |order|
        invariant ok ==> forall j :: 0 <= j < i ==> HasChunk(c, chunks, order[j])
        invariant Faultless(env) ==> ok
        invariant forall j :: NumChunks(c) <= j ==> (j in chunks <==> j in old(chunks)) && (j in chunks ==> chunks[j] == old(chunks)[j])
      {
        var done := false;
        if !env.refused(order[i]) {
          done := WriteChunkFromFile(c, offsets[order[i]], env);
        }
        ok := ok && done;
      }
      if ok {
        forall p | 0 <= p < NumChunks(c) ensures p in chunks && chunks[p] == C.Slice(c, p) {
          assert p in order;
          var j :| 0 <= j < |order| && order[j] == p;
          assert HasChunk(c, chunks, order[j]);
        }
      }
    }

    /** `writeLocalSize`: the size file is linked into place once and never replaced. */
    method WriteLocalSize(n: nat, env: Env)
      modifies this`size
      ensures size == if env.sizeLocks && old(size).None? then Some(n) else old(size)
    {
      if env.sizeLocks && size.None? {
        size := Some(n);
      }
    }

    /** The write-through task of `StoreFile`: a size appears only when every chunk of the file is there. */
    method StoreFile(c: C.Config, order: seq<nat>, env: Env)
      requires c.chunkSize > 0 && IsReaderAt(|c.blob|, env.readAt) && IsSchedule(order, NumChunks(c))
      modifies this
      ensures size != old(size) ==> size == Some(|c.blob|) && HasAllChunks(c, chunks)
      ensures Faultless(env) ==> HasAllChunks(c, chunks) && (old(size).None? ==> size == Some(|c.blob|))
    {
      var total, ok := CreateCacheBlocksFromFile(c, order, env);
      if ok {
        WriteLocalSize(total, env);
      }
    }
  }

  // ---------------------------------------------------------------- what the chunks hold

  /** The first `n` chunk files one after another. */
  function Concatenated(chunks: map<nat, seq<Byte>>, n: nat): seq<Byte>
    requires forall i :: 0 <= i < n ==> i in chunks
  {
    if n == 0 then [] else Concatenated(chunks, n - 1) + chunks[n - 1]
  }

  /** The file up to the start of chunk `n`. */
  function Before(c: C.Config, n: nat): seq<Byte> {
    c.blob[..C.Min(n * c.chunkSize, |c.blob|)]
  }

  lemma SliceContinues(c: C.Config, i: nat)
    requires c.chunkSize > 0 && i < NumChunks(c)
    ensures Before(c, i) + C.Slice(c, i) == Before(c, i + 1)
  {
    ChunkCount(c, i);
    var lo := i * c.chunkSize;
    assert (i + 1) * c.chunkSize == lo + c.chunkSize;
    assert C.Slice(c, i) == c.blob[lo..C.Min(lo + c.chunkSize, |c.blob|)];
  }

  lemma {:induction false} ChunksJoin(chunks: map<nat, seq<Byte>>, before: nat -> seq<Byte>, n: nat)
    requires forall i :: 0 <= i < n ==> i in chunks && before(i) + chunks[i] == before(i + 1)
    requires before(0) == []
    ensures Concatenated(chunks, n) == before(n)
  {
    if n == 0 {
    } else {
      ChunksJoin(chunks, before, n - 1);
      assert before(n - 1) + chunks[n - 1] == before(n - 1 + 1);
    }
  }

  lemma ChunksConcatenate(c: C.Config, chunks: map<nat, seq<Byte>>)
    requires c.chunkSize > 0 && HasAllChunks(c, chunks)
    ensures Concatenated(chunks, NumChunks(c)) == c.blob
  {
    var n, before := NumChunks(c), (i: nat) => Before(c, i);
    forall i | 0 <= i < n ensures i in chunks && before(i) + chunks[i] == before(i + 1) {
      SliceContinues(c, i);
    }
    ChunksJoin(chunks, before, n);
    ChunkBounds(c);
    assert c.blob[..|c.blob|] == c.blob;
  }

  /** Stored chunks concatenate to the file, and every chunk but the last is full. */
  lemma ChunksAreTheFile(c: C.Config, chunks: map<nat, seq<Byte>>)
    requires c.chunkSize > 0 && HasAllChunks(c, chunks)
    ensures Concatenated(chunks, NumChunks(c)) == c.blob
    ensures forall i :: 0 <= i < NumChunks(c) ==> 0 < |chunks[i]| <= c.chunkSize
    ensures forall i :: 0 <= i < NumChunks(c) - 1 ==> |chunks[i]| == c.chunkSize
  {
    var n := NumChunks(c);
    ChunksConcatenate(c, chunks);
    forall i | 0 <= i < n
      ensures 0 < |chunks[i]| <= c.chunkSize && (i < n - 1 ==> |chunks[i]| == c.chunkSize)
    {
      ChunkCount(c, i);
      assert (i + 1) * c.chunkSize == i * c.chunkSize + c.chunkSize;
      if i < n - 1 { ChunkCount(c, i + 1); }
    }
  }

  /** Any permitted read within the file is answered from the stored chunks as the object would answer. */
  lemma StoredChunksServeReads(c: C.Config, chunks: map<nat, seq<Byte>>, offset: nat, len: nat)
    requires c.chunkSize > 0 && HasAllChunks(c, chunks) && offset < |c.blob|
    requires C.ValidateReadAtParams(c.chunkSize, len, offset).None?
    ensures C.ChunkIndex(c, offset) in chunks
    ensures C.ReadFrom(chunks[C.ChunkIndex(c, offset)], 0, len) == C.ReadFrom(c.blob, offset, len)
  {
    var i := C.ChunkIndex(c, offset);
    C.AlignedRead(c, offset, len);
    ChunkCount(c, i);
    C.CachedReplyAgreesIff(c, offset, len, chunks[i]);
  }
}

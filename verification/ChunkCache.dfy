/** The NFS chunk cache in front of an immutable object: any number of readers, streaming readers and
    asynchronous write-backs interleave over one chunk directory.  Chunk files are published by hard
    link, so the model keeps names and inodes apart. */
module ChunkCache {
  import opened Wrappers

  type Byte = bv8
  type ReaderId = nat
  type WriterId = nat
  type InodeId = nat

  datatype Config = Config(blob: seq<Byte>, chunkSize: nat)

  // ---------------------------------------------------------------- requests and replies

  datatype ParamError = BufferTooSmall | BufferTooLarge | OffsetUnaligned | MultipleChunks

  function ValidateReadAtParams(chunkSize: nat, bufferSize: nat, offset: nat): (e: Option<ParamError>)
    requires chunkSize > 0
    ensures e.None? <==> 0 < bufferSize <= chunkSize && offset % chunkSize == 0
    ensures e != Some(MultipleChunks)
  {
    if bufferSize == 0 then Some(BufferTooSmall)
    else if bufferSize > chunkSize then Some(BufferTooLarge)
    else if offset % chunkSize != 0 then Some(OffsetUnaligned)
    else if offset % chunkSize + bufferSize > chunkSize then Some(MultipleChunks)
    else None
  }

  /** Bytes returned, and whether the call reports end of file. */
  datatype Reply = Reply(bytes: seq<Byte>, eof: bool)

  function Min(a: nat, b: nat): nat { if a <= b then a else b }

  /** The reader contract shared by files and the backing object: as much as there is, and end of file
      exactly when that is less than was asked for. */
  function ReadFrom(content: seq<Byte>, offset: nat, len: nat): Reply {
    var bytes := content[Min(offset, |content|)..Min(offset + len, |content|)];
    Reply(bytes, |bytes| < len)
  }

  /** `isCompleteRead` for replies without other errors. */
  predicate CompleteRead(r: Reply, expected: nat) {
    |r.bytes| == expected || (|r.bytes| > 0 && r.eof)
  }

  function ChunkIndex(c: Config, offset: nat): nat
    requires c.chunkSize > 0
  {
    offset / c.chunkSize
  }

  /** The bytes of the object that belong to chunk `idx`. */
  function Slice(c: Config, idx: nat): seq<Byte> {
    ReadFrom(c.blob, idx * c.chunkSize, c.chunkSize).bytes
  }

  // ---------------------------------------------------------------- states

  datatype Kind = ReadAt | Stream

  datatype ReaderPhase =
    | Started
    | Opened(inode: InodeId)
    | Missed
    | Streaming(buf: seq<Byte>)
    | Finished(reply: Option<Reply>)

  /** `idx` names the chunk file, computed once from the offset when the call starts. */
  datatype Reader = Reader(kind: Kind, offset: nat, len: nat, idx: nat, writeBack: bool, phase: ReaderPhase)

  datatype WriterPhase = Queued | Locked | Writing(inode: InodeId) | Written(inode: InodeId) | Ended

  datatype Writer = Writer(idx: nat, data: seq<Byte>, phase: WriterPhase) {
    predicate Owns(i: InodeId) { (phase.Writing? || phase.Written?) && phase.inode == i }
  }

  /** `chunks` are the published names; temp files exist only through the writers that own them. */
  datatype State = State(inodes: map<InodeId, seq<Byte>>, chunks: map<nat, InodeId>,
                         readers: map<ReaderId, Reader>, writers: map<WriterId, Writer>)
  {
    function PutReader(r: ReaderId, phase: ReaderPhase): State
      requires r in readers
    {
      this.(readers := readers[r := readers[r].(phase := phase)])
    }
    function PutWriter(w: WriterId, phase: WriterPhase): State
      requires w in writers
    {
      this.(writers := writers[w := writers[w].(phase := phase)])
    }
  }

  datatype Label =
    | Start(r: ReaderId, kind: Kind, offset: nat, len: nat, writeBack: bool)
    | OpenHit(r: ReaderId)
    | OpenMiss(r: ReaderId)
    | ReadFile(r: ReaderId)
    | ReadFileFail(r: ReaderId)
    | ReadObject(r: ReaderId, w: WriterId)
    | ReadObjectFail(r: ReaderId)
    | StreamSome(r: ReaderId, n: nat)
    | CloseStream(r: ReaderId, w: WriterId)
    | LockOk(w: WriterId)
    | LockFail(w: WriterId)
    | CreateTemp(w: WriterId, i: InodeId)
    | WriteSome(w: WriterId, n: nat)
    | WriteFail(w: WriterId)
    | WriteDone(w: WriterId)
    | Link(w: WriterId)
    | LinkFail(w: WriterId)

  const EMPTY := State(map[], map[], map[], map[])

  predicate Enabled(c: Config, s: State, l: Label)
    requires c.chunkSize > 0
  {
    match l
    case Start(r, _, offset, len, _) => r !in s.readers && ValidateReadAtParams(c.chunkSize, len, offset).None?
    case OpenHit(r) => r in s.readers && s.readers[r].phase.Started? && s.readers[r].idx in s.chunks
    case OpenMiss(r) => r in s.readers && s.readers[r].phase.Started?
    case ReadFile(r) => r in s.readers && s.readers[r].phase.Opened? && s.readers[r].phase.inode in s.inodes
    case ReadFileFail(r) => r in s.readers && s.readers[r].phase.Opened? && s.readers[r].kind.ReadAt?
    case ReadObject(r, w) => r in s.readers && s.readers[r].phase.Missed? && s.readers[r].kind.ReadAt? && w !in s.writers
    case ReadObjectFail(r) => r in s.readers && (s.readers[r].phase.Missed? || s.readers[r].phase.Streaming?)
    case StreamSome(r, n) =>
      r in s.readers && s.readers[r].kind.Stream? && (s.readers[r].phase.Missed? || s.readers[r].phase.Streaming?)
    case CloseStream(r, w) => r in s.readers && s.readers[r].phase.Streaming? && w !in s.writers
    case LockOk(w) => w in s.writers && s.writers[w].phase.Queued?
    case LockFail(w) => w in s.writers && s.writers[w].phase.Queued?
    case CreateTemp(w, i) => w in s.writers && s.writers[w].phase.Locked? && i !in s.inodes
    case WriteSome(w, n) => w in s.writers && s.writers[w].phase.Writing? && s.writers[w].phase.inode in s.inodes
    case WriteFail(w) => w in s.writers && (s.writers[w].phase.Locked? || s.writers[w].phase.Writing?)
    case WriteDone(w) =>
      w in s.writers && s.writers[w].phase.Writing? && s.writers[w].phase.inode in s.inodes
      && s.inodes[s.writers[w].phase.inode] == s.writers[w].data
    case Link(w) => w in s.writers && s.writers[w].phase.Written?
    case LinkFail(w) => w in s.writers && s.writers[w].phase.Written?
  }

  function BufferOf(p: ReaderPhase): seq<Byte> { if p.Streaming? then p.buf else [] }

  /** What a stream has delivered after up to `n` more bytes. */
  function Streamed(c: Config, rd: Reader, n: nat): seq<Byte> {
    var have := BufferOf(rd.phase);
    have + ReadFrom(c.blob, rd.offset + |have|, Min(n, if |have| <= rd.len then rd.len - |have| else 0)).bytes
  }

  /** A write-back task for chunk `idx`. */
  function Spawn(s: State, w: WriterId, idx: nat, data: seq<Byte>): State {
    s.(writers := s.writers[w := Writer(idx, data, Queued)])
  }

  function Next(c: Config, s: State, l: Label): State
    requires c.chunkSize > 0 && Enabled(c, s, l)
  {
    match l
    case Start(r, kind, offset, len, writeBack) =>
      s.(readers := s.readers[r := Reader(kind, offset, len, ChunkIndex(c, offset), writeBack, Started)])
    case OpenHit(r) => s.PutReader(r, Opened(s.chunks[s.readers[r].idx]))
    case OpenMiss(r) => s.PutReader(r, Missed)
    case ReadFile(r) =>
      s.PutReader(r, Finished(Some(ReadFrom(s.inodes[s.readers[r].phase.inode], 0, s.readers[r].len))))
    case ReadFileFail(r) => s.PutReader(r, Missed)
    case ReadObject(r, w) =>
      var rd := s.readers[r];
      var reply := ReadFrom(c.blob, rd.offset, rd.len);
      var answered := s.PutReader(r, Finished(Some(reply)));
      if rd.writeBack && CompleteRead(reply, rd.len) then Spawn(answered, w, rd.idx, reply.bytes) else answered
    case ReadObjectFail(r) => s.PutReader(r, Finished(None))
    case StreamSome(r, n) =>
      s.PutReader(r, Streaming(Streamed(c, s.readers[r], n)))
    case CloseStream(r, w) =>
      var rd := s.readers[r];
      var closed := s.PutReader(r, Finished(Some(Reply(rd.phase.buf, |rd.phase.buf| < rd.len))));
      if rd.writeBack && |rd.phase.buf| > 0 && |rd.phase.buf| == rd.len
      then Spawn(closed, w, rd.idx, rd.phase.buf) else closed
    case LockOk(w) => s.PutWriter(w, Locked)
    case LockFail(w) => s.PutWriter(w, Ended)
    case CreateTemp(w, i) => s.PutWriter(w, Writing(i)).(inodes := s.inodes[i := []])
    case WriteSome(w, n) =>
      var i, data := s.writers[w].phase.inode, s.writers[w].data;
      var done := Min(|s.inodes[i]|, |data|);
      s.(inodes := s.inodes[i := s.inodes[i] + data[done..Min(done + n, |data|)]])
    case WriteFail(w) => s.PutWriter(w, Ended)
    case WriteDone(w) => s.PutWriter(w, Written(s.writers[w].phase.inode))
    case Link(w) =>
      var idx := s.writers[w].idx;
      var linked := if idx in s.chunks then s.chunks else s.chunks[idx := s.writers[w].phase.inode];
      s.PutWriter(w, Ended).(chunks := linked)
    case LinkFail(w) => s.PutWriter(w, Ended)
  }

  ghost predicate IsRun(c: Config, states: seq<State>, labels: seq<Label>)
    requires c.chunkSize > 0
  {
    && |states| == |labels| + 1 && states[0] == EMPTY
    && forall i :: 0 <= i < |labels| ==> Enabled(c, states[i], labels[i]) && states[i + 1] == Next(c, states[i], labels[i])
  }

  // ---------------------------------------------------------------- chunk arithmetic

  /** A request within one chunk reads a prefix of the chunk's slice. */
  lemma {:induction false} AlignedRead(c: Config, offset: nat, len: nat)
    requires c.chunkSize > 0 && offset % c.chunkSize == 0 && len <= c.chunkSize
    ensures ReadFrom(c.blob, offset, len).bytes <= Slice(c, ChunkIndex(c, offset))
    ensures offset == ChunkIndex(c, offset) * c.chunkSize
    ensures |Slice(c, ChunkIndex(c, offset))| == Min(offset + c.chunkSize, |c.blob|) - Min(offset, |c.blob|)
  {
    assert offset == offset / c.chunkSize * c.chunkSize;
  }

  // ---------------------------------------------------------------- the invariant

  /** The request is one `ValidateReadAtParams` lets through. */
  predicate RequestOk(c: Config, rd: Reader)
    requires c.chunkSize > 0
  {
    ValidateReadAtParams(c.chunkSize, rd.len, rd.offset).None? && rd.idx == ChunkIndex(c, rd.offset)
  }

  predicate ReaderOk(c: Config, s: State, rd: Reader) {
    && (rd.phase.Opened? ==> rd.idx in s.chunks && s.chunks[rd.idx] == rd.phase.inode)
    && (rd.phase.Streaming? ==> rd.kind.Stream?)
    && (rd.phase.Streaming? ==> rd.phase.buf == ReadFrom(c.blob, rd.offset, |rd.phase.buf|).bytes && |rd.phase.buf| <= rd.len)
  }

  /** A write-back of data that is a non-empty prefix of its chunk's slice. */
  predicate WriterOk(s: State, wr: Writer, slice: seq<Byte>) {
    && wr.data != [] && wr.data <= slice
    && (wr.phase.Writing? ==> wr.phase.inode in s.inodes && s.inodes[wr.phase.inode] <= wr.data)
    && (wr.phase.Written? ==> wr.phase.inode in s.inodes && s.inodes[wr.phase.inode] == wr.data)
  }

  predicate ChunkOk(s: State, idx: nat, slice: seq<Byte>)
    requires idx in s.chunks
  {
    s.chunks[idx] in s.inodes && s.inodes[s.chunks[idx]] != [] && s.inodes[s.chunks[idx]] <= slice
  }

  /** Temp inodes belong to one writer each and are not published. */
  ghost predicate OwnersOk(s: State) {
    && (forall w, i :: w in s.writers && s.writers[w].Owns(i) ==> i in s.inodes && i !in s.chunks.Values)
    && (forall w, v, i :: w in s.writers && v in s.writers && s.writers[w].Owns(i) && s.writers[v].Owns(i) ==> w == v)
  }

  ghost predicate Inv(c: Config, s: State)
    requires c.chunkSize > 0
  {
    && (forall r :: r in s.readers ==> RequestOk(c, s.readers[r]) && ReaderOk(c, s, s.readers[r]))
    && (forall w :: w in s.writers ==> WriterOk(s, s.writers[w], Slice(c, s.writers[w].idx)))
    && (forall idx :: idx in s.chunks ==> ChunkOk(s, idx, Slice(c, idx)))
    && OwnersOk(s)
  }

  /** A step changes at most the inode its writer is still filling, and adds at most one name. */
  lemma {:induction false} StepEffect(c: Config, s: State, l: Label)
    requires c.chunkSize > 0 && Enabled(c, s, l)
    ensures var s' := Next(c, s, l);
            && (forall i :: i in s.inodes ==> i in s'.inodes)
            && (forall i :: i in s.inodes && s'.inodes[i] != s.inodes[i] ==> l.WriteSome? && s.writers[l.w].phase == Writing(i))
            && (forall idx :: idx in s.chunks ==> idx in s'.chunks && s'.chunks[idx] == s.chunks[idx])
            && (forall idx :: idx in s'.chunks && idx !in s.chunks ==>
                  l.Link? && idx == s.writers[l.w].idx && s'.chunks[idx] == s.writers[l.w].phase.inode)
  {
  }

  /** Published files are write-once: the name keeps its inode and the inode its bytes. */
  lemma {:induction false} StepKeepsPublished(c: Config, s: State, l: Label, idx: nat)
    requires c.chunkSize > 0 && OwnersOk(s) && Enabled(c, s, l) && idx in s.chunks && s.chunks[idx] in s.inodes
    ensures var s' := Next(c, s, l);
            && idx in s'.chunks && s'.chunks[idx] == s.chunks[idx]
            && s.chunks[idx] in s'.inodes && s'.inodes[s.chunks[idx]] == s.inodes[s.chunks[idx]]
  {
    StepEffect(c, s, l);
    assert s.chunks[idx] in s.chunks.Values;
    if l.WriteSome? { assert s.writers[l.w].Owns(s.writers[l.w].phase.inode); }
  }

  lemma {:induction false} StepKeepsChunk(c: Config, s: State, l: Label, idx: nat)
    requires c.chunkSize > 0 && Inv(c, s) && Enabled(c, s, l) && idx in Next(c, s, l).chunks
    ensures ChunkOk(Next(c, s, l), idx, Slice(c, idx))
  {
    var slice := Slice(c, idx);
    StepEffect(c, s, l);
    if idx in s.chunks {
      assert ChunkOk(s, idx, slice);
      StepKeepsPublished(c, s, l, idx);
    } else {
      assert WriterOk(s, s.writers[l.w], slice);
    }
  }

  lemma {:induction false} StepKeepsReader(c: Config, s: State, l: Label, r: ReaderId)
    requires c.chunkSize > 0 && Enabled(c, s, l) && r in Next(c, s, l).readers
    requires r in s.readers ==> ReaderOk(c, s, s.readers[r])
    ensures ReaderOk(c, Next(c, s, l), Next(c, s, l).readers[r])
  {
    StepEffect(c, s, l);
    if r in s.readers {
      if l.StreamSome? && l.r == r {
        StreamStep(c, s, l.n, r);
      } else {
        StreamsKept(c, s, l, r);
      }
    }
  }

  /** Only `StreamSome` touches the buffer of a stream that is still open. */
  lemma {:induction false} StreamsKept(c: Config, s: State, l: Label, r: ReaderId)
    requires c.chunkSize > 0 && Enabled(c, s, l) && r in s.readers && !(l.StreamSome? && l.r == r)
    ensures var rd, rd' := s.readers[r], Next(c, s, l).readers[r];
            && rd'.offset == rd.offset && rd'.len == rd.len && rd'.idx == rd.idx
            && (rd'.phase.Streaming? ==> rd'.phase == rd.phase)
            && (rd'.phase.Opened? ==> rd'.phase == rd.phase || (l == OpenHit(r) && rd'.phase == Opened(s.chunks[rd.idx])))
  {
  }

  lemma {:induction false} StreamStep(c: Config, s: State, n: nat, r: ReaderId)
    requires c.chunkSize > 0 && Enabled(c, s, StreamSome(r, n)) && ReaderOk(c, s, s.readers[r])
    ensures ReaderOk(c, Next(c, s, StreamSome(r, n)), Next(c, s, StreamSome(r, n)).readers[r])
  {
    var rd := s.readers[r];
    StreamGrows(c, rd, n);
    assert Next(c, s, StreamSome(r, n)).readers[r] == rd.(phase := Streaming(Streamed(c, rd, n)));
  }

  lemma {:induction false} StreamGrows(c: Config, rd: Reader, n: nat)
    requires rd.phase.Streaming? ==> rd.phase.buf == ReadFrom(c.blob, rd.offset, |rd.phase.buf|).bytes && |rd.phase.buf| <= rd.len
    ensures Streamed(c, rd, n) == ReadFrom(c.blob, rd.offset, |Streamed(c, rd, n)|).bytes && |Streamed(c, rd, n)| <= rd.len
  {
    var have := BufferOf(rd.phase);
    NothingRead(c.blob, rd.offset);
    StreamAppends(c.blob, rd.offset, have, n, rd.len);
    assert Streamed(c, rd, n) == have + ReadFrom(c.blob, rd.offset + |have|, Min(n, rd.len - |have|)).bytes;
  }

  lemma {:induction false} NothingRead(blob: seq<Byte>, offset: nat)
    ensures ReadFrom(blob, offset, 0).bytes == []
  {
  }

  lemma {:induction false} StreamAppends(blob: seq<Byte>, offset: nat, have: seq<Byte>, n: nat, len: nat)
    requires have == ReadFrom(blob, offset, |have|).bytes && |have| <= len
    ensures var more := ReadFrom(blob, offset + |have|, Min(n, len - |have|)).bytes;
            have + more == ReadFrom(blob, offset, |have + more|).bytes && |have + more| <= len
  {
  }

  lemma {:induction false} StepKeepsRequest(c: Config, s: State, l: Label, r: ReaderId)
    requires c.chunkSize > 0 && Enabled(c, s, l) && r in Next(c, s, l).readers
    requires r in s.readers ==> RequestOk(c, s.readers[r])
    ensures RequestOk(c, Next(c, s, l).readers[r])
  {
    if r in s.readers { StreamsOrKept(c, s, l, r); }
  }

  lemma {:induction false} StreamsOrKept(c: Config, s: State, l: Label, r: ReaderId)
    requires c.chunkSize > 0 && Enabled(c, s, l) && r in s.readers
    ensures var rd, rd' := s.readers[r], Next(c, s, l).readers[r];
            rd'.offset == rd.offset && rd'.len == rd.len && rd'.idx == rd.idx
  {
  }

  /** The data a finished read hands to its write-back. */
  lemma {:induction false} SpawnedData(c: Config, s: State, l: Label)
    requires c.chunkSize > 0 && Inv(c, s) && Enabled(c, s, l) && (l.ReadObject? || l.CloseStream?)
    requires l.w in Next(c, s, l).writers
    ensures var wr, rd := Next(c, s, l).writers[l.w], s.readers[l.r];
            && wr.phase == Queued && wr.idx == rd.idx && wr.data != []
            && wr.data == ReadFrom(c.blob, rd.offset, rd.len).bytes && wr.data <= Slice(c, wr.idx)
  {
    var rd := s.readers[l.r];
    assert RequestOk(c, rd) && ReaderOk(c, s, rd);
    AlignedRead(c, rd.offset, rd.len);
  }

  lemma {:induction false} StepKeepsWriter(c: Config, s: State, l: Label, w: WriterId)
    requires c.chunkSize > 0 && Inv(c, s) && Enabled(c, s, l) && w in Next(c, s, l).writers
    ensures WriterOk(Next(c, s, l), Next(c, s, l).writers[w], Slice(c, Next(c, s, l).writers[w].idx))
  {
    if w !in s.writers {
      SpawnedData(c, s, l);
    } else {
      var slice := Slice(c, s.writers[w].idx);
      assert WriterOk(s, s.writers[w], slice);
      OldWriterKept(c, s, l, w, slice);
    }
  }

  lemma {:induction false} OldWriterKept(c: Config, s: State, l: Label, w: WriterId, slice: seq<Byte>)
    requires c.chunkSize > 0 && OwnersOk(s) && Enabled(c, s, l) && w in s.writers && WriterOk(s, s.writers[w], slice)
    ensures Next(c, s, l).writers[w].idx == s.writers[w].idx
    ensures WriterOk(Next(c, s, l), Next(c, s, l).writers[w], slice)
  {
    StepEffect(c, s, l);
    DataKept(c, s, l, w);
    if l.WriteSome? && l.w != w {
      OthersFileKept(c, s, l, w, slice);
    } else if l.WriteSome? {
      assert Next(c, s, l).writers == s.writers;
    }
  }

  lemma {:induction false} OthersFileKept(c: Config, s: State, l: Label, w: WriterId, slice: seq<Byte>)
    requires c.chunkSize > 0 && OwnersOk(s) && Enabled(c, s, l) && w in s.writers && WriterOk(s, s.writers[w], slice)
    requires l.WriteSome? && l.w != w
    ensures WriterOk(Next(c, s, l), s.writers[w], slice) && Next(c, s, l).writers == s.writers
  {
    assert s.writers[l.w].Owns(s.writers[l.w].phase.inode);
    if s.writers[w].phase.Writing? || s.writers[w].phase.Written? {
      assert s.writers[w].Owns(s.writers[w].phase.inode);
    }
  }

  lemma {:induction false} OwnedUnpublished(c: Config, s: State, l: Label, w: WriterId, i: InodeId, idx: nat)
    requires c.chunkSize > 0 && OwnersOk(s) && Enabled(c, s, l)
    requires idx in s.chunks ==> s.chunks[idx] in s.inodes
    requires w in Next(c, s, l).writers && Next(c, s, l).writers[w].Owns(i) && idx in Next(c, s, l).chunks
    ensures Next(c, s, l).chunks[idx] != i
  {
    StepEffect(c, s, l);
    OwnsBefore(c, s, l, w, i);
    if idx in s.chunks {
      assert s.chunks[idx] in s.chunks.Values;
    } else {
      assert s.writers[l.w].Owns(s.writers[l.w].phase.inode);
    }
  }

  lemma {:induction false} StepKeepsOwners(c: Config, s: State, l: Label)
    requires c.chunkSize > 0 && OwnersOk(s) && Enabled(c, s, l)
    requires forall idx :: idx in s.chunks ==> s.chunks[idx] in s.inodes
    ensures OwnersOk(Next(c, s, l))
  {
    var s' := Next(c, s, l);
    StepEffect(c, s, l);
    forall w, i | w in s'.writers && s'.writers[w].Owns(i)
      ensures i in s'.inodes && i !in s'.chunks.Values
    {
      OwnsBefore(c, s, l, w, i);
      forall idx | idx in s'.chunks ensures s'.chunks[idx] != i {
        OwnedUnpublished(c, s, l, w, i, idx);
      }
    }
    forall w, v, i | w in s'.writers && v in s'.writers && s'.writers[w].Owns(i) && s'.writers[v].Owns(i)
      ensures w == v
    {
      OwnsBefore(c, s, l, w, i);
      OwnsBefore(c, s, l, v, i);
    }
  }

  /** A writer that owns an inode after a step owned it before or has just created it. */
  lemma {:induction false} OwnsBefore(c: Config, s: State, l: Label, w: WriterId, i: InodeId)
    requires c.chunkSize > 0 && Enabled(c, s, l) && w in Next(c, s, l).writers && Next(c, s, l).writers[w].Owns(i)
    ensures w in s.writers && (s.writers[w].Owns(i) || (l == CreateTemp(w, i) && i !in s.inodes))
    ensures l.Link? ==> w != l.w
  {
  }

  lemma {:induction false} RunKeepsInv(c: Config, states: seq<State>, labels: seq<Label>, k: nat)
    requires c.chunkSize > 0 && IsRun(c, states, labels) && k <= |labels|
    ensures Inv(c, states[k])
  {
    if k == 0 {
    } else {
      RunKeepsInv(c, states, labels, k - 1);
      var s, l := states[k - 1], labels[k - 1];
      assert Enabled(c, s, l);
      var s' := Next(c, s, l);
      forall r | r in s'.readers ensures RequestOk(c, s'.readers[r]) && ReaderOk(c, s', s'.readers[r]) {
        StepKeepsRequest(c, s, l, r);
        StepKeepsReader(c, s, l, r);
      }
      forall w | w in s'.writers ensures WriterOk(s', s'.writers[w], Slice(c, s'.writers[w].idx)) {
        StepKeepsWriter(c, s, l, w);
      }
      forall idx | idx in s'.chunks ensures ChunkOk(s', idx, Slice(c, idx)) {
        StepKeepsChunk(c, s, l, idx);
      }
      forall idx | idx in s.chunks ensures s.chunks[idx] in s.inodes {
        assert ChunkOk(s, idx, Slice(c, idx));
      }
      StepKeepsOwners(c, s, l);
    }
  }

  // ---------------------------------------------------------------- publication is write-once

  lemma {:induction false} VisibleIsPrefix(c: Config, states: seq<State>, labels: seq<Label>, i: nat, idx: nat)
    requires c.chunkSize > 0 && IsRun(c, states, labels) && i <= |labels| && idx in states[i].chunks
    ensures ChunkOk(states[i], idx, Slice(c, idx))
  {
    RunKeepsInv(c, states, labels, i);
  }

  /** A chunk file, once visible at step `i`, holds a non-empty prefix of its slice and is the same
      file with the same bytes at every later step, whatever writers race for the name. */
  lemma {:induction false} PublishedForever(c: Config, states: seq<State>, labels: seq<Label>, i: nat, j: nat, idx: nat)
    requires c.chunkSize > 0 && IsRun(c, states, labels) && i <= j <= |labels| && idx in states[i].chunks
    ensures idx in states[j].chunks && states[j].chunks[idx] == states[i].chunks[idx]
    ensures states[i].chunks[idx] in states[i].inodes && states[i].chunks[idx] in states[j].inodes
    ensures states[j].inodes[states[i].chunks[idx]] == states[i].inodes[states[i].chunks[idx]]
    ensures states[i].inodes[states[i].chunks[idx]] != []
    ensures states[i].inodes[states[i].chunks[idx]] <= Slice(c, idx)
    decreases j
  {
    VisibleIsPrefix(c, states, labels, i, idx);
    if i == j {
    } else {
      PublishedForever(c, states, labels, i, j - 1, idx);
      RunKeepsInv(c, states, labels, j - 1);
      StepKeepsPublished(c, states[j - 1], labels[j - 1], idx);
    }
  }

  // ---------------------------------------------------------------- where the bytes of a chunk file come from

  /** How many bytes the object has for a request. */
  function Wanted(c: Config, rd: Reader): nat { Min(rd.len, |Slice(c, rd.idx)|) }

  /** Some request so far for the chunk wanted exactly `n` bytes. */
  ghost predicate HasOrigin(c: Config, s: State, idx: nat, n: nat) {
    exists r :: r in s.readers && s.readers[r].idx == idx && Wanted(c, s.readers[r]) == n
  }

  /** Write-backs and chunk files are as long as some request wanted. */
  ghost predicate Traced(c: Config, s: State) {
    && (forall w :: w in s.writers ==> HasOrigin(c, s, s.writers[w].idx, |s.writers[w].data|))
    && (forall idx :: idx in s.chunks && s.chunks[idx] in s.inodes ==> HasOrigin(c, s, idx, |s.inodes[s.chunks[idx]]|))
  }

  lemma {:induction false} OriginStays(c: Config, s: State, l: Label, idx: nat, n: nat)
    requires c.chunkSize > 0 && Enabled(c, s, l) && HasOrigin(c, s, idx, n)
    ensures HasOrigin(c, Next(c, s, l), idx, n)
  {
    var r :| r in s.readers && s.readers[r].idx == idx && Wanted(c, s.readers[r]) == n;
    StreamsOrKept(c, s, l, r);
    assert r in Next(c, s, l).readers;
  }

  lemma {:induction false} WriterHasOrigin(c: Config, s: State, l: Label, w: WriterId)
    requires c.chunkSize > 0 && Inv(c, s) && Enabled(c, s, l) && Traced(c, s) && w in Next(c, s, l).writers
    ensures HasOrigin(c, Next(c, s, l), Next(c, s, l).writers[w].idx, |Next(c, s, l).writers[w].data|)
  {
    if w in s.writers {
      DataKept(c, s, l, w);
      OriginStays(c, s, l, s.writers[w].idx, |s.writers[w].data|);
    } else {
      SpawnedData(c, s, l);
      var rd := s.readers[l.r];
      assert RequestOk(c, rd);
      AlignedRead(c, rd.offset, rd.len);
      StreamsOrKept(c, s, l, l.r);
      assert l.r in Next(c, s, l).readers;
    }
  }

  lemma {:induction false} DataKept(c: Config, s: State, l: Label, w: WriterId)
    requires c.chunkSize > 0 && Enabled(c, s, l) && w in s.writers
    ensures Next(c, s, l).writers[w].data == s.writers[w].data && Next(c, s, l).writers[w].idx == s.writers[w].idx
  {
  }

  lemma {:induction false} ChunkHasOrigin(c: Config, s: State, l: Label, idx: nat)
    requires c.chunkSize > 0 && Inv(c, s) && Enabled(c, s, l) && Traced(c, s) && idx in Next(c, s, l).chunks
    ensures var s' := Next(c, s, l); s'.chunks[idx] in s'.inodes && HasOrigin(c, s', idx, |s'.inodes[s'.chunks[idx]]|)
  {
    StepEffect(c, s, l);
    if idx in s.chunks {
      assert ChunkOk(s, idx, Slice(c, idx));
      StepKeepsPublished(c, s, l, idx);
      OriginStays(c, s, l, idx, |s.inodes[s.chunks[idx]]|);
    } else {
      assert WriterOk(s, s.writers[l.w], Slice(c, idx));
      OriginStays(c, s, l, idx, |s.writers[l.w].data|);
    }
  }

  lemma {:induction false} StepKeepsTraced(c: Config, s: State, l: Label)
    requires c.chunkSize > 0 && Inv(c, s) && Enabled(c, s, l) && Traced(c, s)
    ensures Traced(c, Next(c, s, l))
  {
    var s' := Next(c, s, l);
    forall w | w in s'.writers ensures HasOrigin(c, s', s'.writers[w].idx, |s'.writers[w].data|) {
      WriterHasOrigin(c, s, l, w);
    }
    forall idx | idx in s'.chunks && s'.chunks[idx] in s'.inodes ensures HasOrigin(c, s', idx, |s'.inodes[s'.chunks[idx]]|) {
      ChunkHasOrigin(c, s, l, idx);
    }
  }

  lemma {:induction false} RunIsTraced(c: Config, states: seq<State>, labels: seq<Label>, k: nat)
    requires c.chunkSize > 0 && IsRun(c, states, labels) && k <= |labels|
    ensures Traced(c, states[k])
  {
    if k == 0 {
    } else {
      RunIsTraced(c, states, labels, k - 1);
      RunKeepsInv(c, states, labels, k - 1);
      StepKeepsTraced(c, states[k - 1], labels[k - 1]);
    }
  }

  // ---------------------------------------------------------------- transparency

  /** All requests so far for one chunk wanted the same number of bytes. */
  ghost predicate OneLength(c: Config, s: State) {
    forall r, t :: r in s.readers && t in s.readers && s.readers[r].idx == s.readers[t].idx ==>
      Wanted(c, s.readers[r]) == Wanted(c, s.readers[t])
  }

  predicate ReplyOk(c: Config, rd: Reader) {
    rd.phase.Finished? && rd.phase.reply.Some? ==>
      var expected, reply := ReadFrom(c.blob, rd.offset, rd.len), rd.phase.reply.value;
      if rd.kind.ReadAt? then reply == expected else reply.bytes <= expected.bytes
  }

  ghost predicate RepliesOk(c: Config, s: State) {
    forall r :: r in s.readers ==> ReplyOk(c, s.readers[r])
  }

  /** What a cached chunk file answers to a request of any permitted length agrees with the object
      exactly when the file has the bytes asked for or is the whole slice. */
  lemma {:induction false} CachedReplyAgreesIff(c: Config, offset: nat, len: nat, file: seq<Byte>)
    requires c.chunkSize > 0 && offset % c.chunkSize == 0 && 0 < len <= c.chunkSize
    requires file <= Slice(c, ChunkIndex(c, offset))
    ensures ReadFrom(file, 0, len) == ReadFrom(c.blob, offset, len)
        <==> len <= |file| || file == Slice(c, ChunkIndex(c, offset))
  {
    AlignedRead(c, offset, len);
    var slice := Slice(c, ChunkIndex(c, offset));
    var got, want := ReadFrom(file, 0, len).bytes, ReadFrom(c.blob, offset, len).bytes;
    assert got == file[..Min(len, |file|)] && want == slice[..Min(len, |slice|)];
    if len > |file| && file != slice {
      assert |got| < |want|;
    }
  }

  /** Under one length per chunk, a chunk file answers each of its requests like the object. */
  lemma {:induction false} FileAnswers(c: Config, s: State, r: ReaderId)
    requires c.chunkSize > 0 && Inv(c, s) && Traced(c, s) && OneLength(c, s) && r in s.readers && s.readers[r].idx in s.chunks
    ensures var rd := s.readers[r];
            s.chunks[rd.idx] in s.inodes && ReadFrom(s.inodes[s.chunks[rd.idx]], 0, rd.len) == ReadFrom(c.blob, rd.offset, rd.len)
  {
    var rd := s.readers[r];
    var slice := Slice(c, rd.idx);
    assert RequestOk(c, rd) && ChunkOk(s, rd.idx, slice);
    var file := s.inodes[s.chunks[rd.idx]];
    assert HasOrigin(c, s, rd.idx, |file|);
    var t :| t in s.readers && s.readers[t].idx == rd.idx && Wanted(c, s.readers[t]) == |file|;
    assert |file| == Wanted(c, rd);
    if |file| == |slice| { assert file == slice; }
    CachedReplyAgreesIff(c, rd.offset, rd.len, file);
  }

  /** The three ways a call finishes with a reply. */
  lemma {:induction false} FinishedBy(c: Config, s: State, l: Label, r: ReaderId)
    requires c.chunkSize > 0 && Enabled(c, s, l) && r in s.readers
    ensures var rd, rd' := s.readers[r], Next(c, s, l).readers[r];
            && rd'.offset == rd.offset && rd'.len == rd.len && rd'.kind == rd.kind
            && (rd'.phase.Finished? && rd'.phase.reply.Some? && rd'.phase != rd.phase ==>
                  || (l == ReadFile(r) && rd.phase.Opened? && rd.phase.inode in s.inodes
                      && rd'.phase.reply.value == ReadFrom(s.inodes[rd.phase.inode], 0, rd.len))
                  || (l.ReadObject? && rd'.phase.reply.value == ReadFrom(c.blob, rd.offset, rd.len))
                  || (l.CloseStream? && rd.phase.Streaming? && rd'.phase.reply.value.bytes == rd.phase.buf))
    ensures var rd, rd' := s.readers[r], Next(c, s, l).readers[r];
            l.CloseStream? && rd'.phase != rd.phase && Inv(c, s) ==> rd.kind.Stream?
  {
  }

  lemma {:induction false} ShorterRead(blob: seq<Byte>, offset: nat, n: nat, len: nat)
    requires n <= len
    ensures ReadFrom(blob, offset, n).bytes <= ReadFrom(blob, offset, len).bytes
  {
  }

  lemma {:induction false} RepliesMatch(c: Config, s: State, l: Label, r: ReaderId)
    requires c.chunkSize > 0 && Inv(c, s) && Traced(c, s) && OneLength(c, s) && RepliesOk(c, s) && Enabled(c, s, l)
    requires r in Next(c, s, l).readers
    ensures ReplyOk(c, Next(c, s, l).readers[r])
  {
    if r in s.readers {
      var rd := s.readers[r];
      assert RequestOk(c, rd) && ReaderOk(c, s, rd) && ReplyOk(c, rd);
      FinishedBy(c, s, l, r);
      if l == ReadFile(r) {
        FileAnswers(c, s, r);
      } else if rd.phase.Streaming? {
        ShorterRead(c.blob, rd.offset, |rd.phase.buf|, rd.len);
      }
    }
  }

  lemma {:induction false} RequestsKept(c: Config, s: State, l: Label)
    requires c.chunkSize > 0 && Enabled(c, s, l) && OneLength(c, Next(c, s, l))
    ensures OneLength(c, s)
  {
    var s' := Next(c, s, l);
    forall r | r in s.readers ensures r in s'.readers && Wanted(c, s'.readers[r]) == Wanted(c, s.readers[r]) && s'.readers[r].idx == s.readers[r].idx {
      StreamsOrKept(c, s, l, r);
    }
  }

  lemma {:induction false} RunIsTransparent(c: Config, states: seq<State>, labels: seq<Label>, k: nat)
    requires c.chunkSize > 0 && IsRun(c, states, labels) && k <= |labels| && OneLength(c, states[k])
    ensures RepliesOk(c, states[k])
  {
    if k == 0 {
    } else {
      var s, l := states[k - 1], labels[k - 1];
      assert Enabled(c, s, l);
      RequestsKept(c, s, l);
      RunIsTransparent(c, states, labels, k - 1);
      RunKeepsInv(c, states, labels, k - 1);
      RunIsTraced(c, states, labels, k - 1);
      forall r | r in states[k].readers ensures ReplyOk(c, states[k].readers[r]) {
        RepliesMatch(c, s, l, r);
      }
    }
  }

  /** If the requests so far for each chunk all wanted the same number of bytes, every finished ReadAt
      returned the bytes, count and end-of-file flag of the backing object. */
  lemma {:induction false} ReadAtIsTransparent(c: Config, states: seq<State>, labels: seq<Label>, k: nat, r: ReaderId)
    requires c.chunkSize > 0 && IsRun(c, states, labels) && k <= |labels| && OneLength(c, states[k])
    requires r in states[k].readers && states[k].readers[r].kind.ReadAt?
    requires states[k].readers[r].phase.Finished? && states[k].readers[r].phase.reply.Some?
    ensures states[k].readers[r].phase.reply.value
         == ReadFrom(c.blob, states[k].readers[r].offset, states[k].readers[r].len)
  {
    RunIsTransparent(c, states, labels, k);
    assert ReplyOk(c, states[k].readers[r]);
  }

  /** The reader is the one the label started. */
  predicate StartedBy(rd: Reader, l: Label)
    requires l.Start?
  {
    rd.kind == l.kind && rd.offset == l.offset && rd.len == l.len
  }

  lemma {:induction false} RequestStays(c: Config, s: State, l: Label, start: Label)
    requires c.chunkSize > 0 && Enabled(c, s, l) && start.Start? && start.r in s.readers && StartedBy(s.readers[start.r], start)
    ensures start.r in Next(c, s, l).readers && StartedBy(Next(c, s, l).readers[start.r], start)
  {
  }

  lemma {:induction false} RequestBegins(c: Config, s: State, start: Label)
    requires c.chunkSize > 0 && start.Start? && Enabled(c, s, start)
    ensures start.r in Next(c, s, start).readers && StartedBy(Next(c, s, start).readers[start.r], start)
  {
  }

  /** A read keeps the request it was started with. */
  lemma {:induction false} RequestIsAsStarted(c: Config, states: seq<State>, labels: seq<Label>, i: nat, k: nat)
    requires c.chunkSize > 0 && IsRun(c, states, labels) && i < k <= |labels| && labels[i].Start?
    ensures labels[i].r in states[k].readers && StartedBy(states[k].readers[labels[i].r], labels[i])
    decreases k
  {
    if k == i + 1 {
      RequestBegins(c, states[i], labels[i]);
    } else {
      RequestIsAsStarted(c, states, labels, i, k - 1);
      RequestStays(c, states[k - 1], labels[k - 1], labels[i]);
    }
  }

  /** What an answer to a request of `len` bytes at `offset` has to be, on the object itself: all its bytes there up to
      `len`, and end of file exactly when the object ends before `offset + len`. */
  ghost predicate Answers(blob: seq<Byte>, offset: nat, len: nat, reply: Reply) {
    if offset + len <= |blob| then reply.bytes == blob[offset..offset + len] && !reply.eof
    else if offset <= |blob| then reply.bytes == blob[offset..] && reply.eof
    else reply.bytes == [] && reply.eof
  }

  lemma {:induction false} ReadFromAnswers(blob: seq<Byte>, offset: nat, len: nat, reply: Reply)
    requires 0 < len
    ensures reply == ReadFrom(blob, offset, len) <==> Answers(blob, offset, len, reply)
  {
  }

  lemma {:induction false} FailsWithObject(c: Config, s: State, l: Label, r: ReaderId)
    requires c.chunkSize > 0 && Enabled(c, s, l) && r in Next(c, s, l).readers && Next(c, s, l).readers[r].phase == Finished(None)
    ensures (r in s.readers && s.readers[r].phase == Finished(None)) || l == ReadObjectFail(r)
  {
  }

  /** A read fails only because the object's read failed. */
  lemma {:induction false} FailureWasReported(c: Config, states: seq<State>, labels: seq<Label>, k: nat, r: ReaderId)
    requires c.chunkSize > 0 && IsRun(c, states, labels) && k <= |labels| && r in states[k].readers
    requires states[k].readers[r].phase == Finished(None)
    ensures ReadObjectFail(r) in labels[..k]
  {
    if k == 0 {
    } else {
      FailsWithObject(c, states[k - 1], labels[k - 1], r);
      assert labels[..k] == labels[..k - 1] + [labels[k - 1]];
      if labels[k - 1] != ReadObjectFail(r) {
        FailureWasReported(c, states, labels, k - 1, r);
      }
    }
  }

  /** The same on labels and bytes: a ReadAt of `len` bytes at `offset` that has finished either failed with the object
      or returned the object's bytes, count and end-of-file flag. */
  lemma {:induction false} ReadAtReturnsObject(c: Config, states: seq<State>, labels: seq<Label>, i: nat, k: nat)
    requires c.chunkSize > 0 && IsRun(c, states, labels) && i < k <= |labels| && OneLength(c, states[k])
    requires labels[i].Start? && labels[i].kind.ReadAt?
    ensures labels[i].r in states[k].readers
    ensures var phase := states[k].readers[labels[i].r].phase;
            phase.Finished? ==>
              if phase.reply.None? then ReadObjectFail(labels[i].r) in labels[..k]
              else Answers(c.blob, labels[i].offset, labels[i].len, phase.reply.value)
  {
    RequestIsAsStarted(c, states, labels, i, k);
    var rd := states[k].readers[labels[i].r];
    if rd.phase.Finished? && rd.phase.reply.None? {
      FailureWasReported(c, states, labels, k, labels[i].r);
    } else if rd.phase.Finished? {
      ReadAtIsTransparent(c, states, labels, k, labels[i].r);
      RunKeepsInv(c, states, labels, k);
      assert RequestOk(c, rd);
      ReadFromAnswers(c.blob, rd.offset, rd.len, rd.phase.reply.value);
    }
  }

  lemma {:induction false} SpawnIff(c: Config, s: State, l: Label)
    requires c.chunkSize > 0 && Enabled(c, s, l) && (l.ReadObject? || l.CloseStream?)
    ensures var rd := s.readers[l.r];
            l.w in Next(c, s, l).writers <==>
              && rd.writeBack
              && if l.ReadObject? then CompleteRead(ReadFrom(c.blob, rd.offset, rd.len), rd.len)
                 else |rd.phase.buf| > 0 && |rd.phase.buf| == rd.len
  {
  }

  /** What is written back, and when: a read of the object unless it got nothing, a stream only if it was read to the
      requested length; never if the caller opted out.  The data is the object's at the request. */
  lemma {:induction false} WriteBackIff(c: Config, states: seq<State>, labels: seq<Label>, k: nat)
    requires c.chunkSize > 0 && IsRun(c, states, labels) && k < |labels| && (labels[k].ReadObject? || labels[k].CloseStream?)
    ensures labels[k].r in states[k].readers
    ensures var rd, w := states[k].readers[labels[k].r], labels[k].w;
            && (w in states[k + 1].writers <==>
                  rd.writeBack && if labels[k].ReadObject? then rd.offset < |c.blob| else rd.phase.Streaming? && |rd.phase.buf| == rd.len)
            && (w in states[k + 1].writers ==>
                  states[k + 1].writers[w].idx == rd.idx && states[k + 1].writers[w].data == ReadFrom(c.blob, rd.offset, rd.len).bytes)
  {
    assert Enabled(c, states[k], labels[k]) && states[k + 1] == Next(c, states[k], labels[k]);
    RunKeepsInv(c, states, labels, k);
    assert RequestOk(c, states[k].readers[labels[k].r]);
    SpawnIff(c, states[k], labels[k]);
    if labels[k].w in states[k + 1].writers { SpawnedData(c, states[k], labels[k]); }
  }

  /** A stream hands out the object's bytes in order: after each read, all from its offset up to where it has got, and a
      read of `n` bytes gets that far unless the request or the object ends. */
  lemma {:induction false} StreamDelivers(c: Config, states: seq<State>, labels: seq<Label>, k: nat)
    requires c.chunkSize > 0 && IsRun(c, states, labels) && k < |labels| && labels[k].StreamSome?
    ensures var r := labels[k].r;
            && r in states[k].readers && r in states[k + 1].readers && states[k + 1].readers[r].phase.Streaming?
            && var rd, buf := states[k].readers[r], states[k + 1].readers[r].phase.buf;
               var end := Min(Min(rd.offset + |BufferOf(rd.phase)| + labels[k].n, rd.offset + rd.len), |c.blob|);
               if rd.offset <= |c.blob| then buf == c.blob[rd.offset..end] else buf == []
  {
    assert Enabled(c, states[k], labels[k]) && states[k + 1] == Next(c, states[k], labels[k]);
    RunKeepsInv(c, states, labels, k);
    var rd := states[k].readers[labels[k].r];
    assert ReaderOk(c, states[k], rd);
    StreamGrows(c, rd, labels[k].n);
  }

  /** The requests the cache is used with: whole chunks, or exactly what remains of the object. */
  predicate Disciplined(c: Config, offset: nat, len: nat) {
    len == c.chunkSize || offset + len == |c.blob|
  }

  /** Requests for whole chunks or the exact remainder want one length, and fill chunk files completely. */
  lemma {:induction false} WholeChunkRequests(c: Config, states: seq<State>, labels: seq<Label>, k: nat)
    requires c.chunkSize > 0 && IsRun(c, states, labels) && k <= |labels|
    requires forall r :: r in states[k].readers ==> Disciplined(c, states[k].readers[r].offset, states[k].readers[r].len)
    ensures OneLength(c, states[k])
    ensures forall idx :: idx in states[k].chunks && states[k].chunks[idx] in states[k].inodes ==>
              states[k].inodes[states[k].chunks[idx]] == Slice(c, idx)
  {
    var s := states[k];
    RunKeepsInv(c, states, labels, k);
    RunIsTraced(c, states, labels, k);
    forall r | r in s.readers ensures Wanted(c, s.readers[r]) == |Slice(c, s.readers[r].idx)| {
      assert RequestOk(c, s.readers[r]);
      AlignedRead(c, s.readers[r].offset, s.readers[r].len);
    }
    forall idx | idx in s.chunks && s.chunks[idx] in s.inodes ensures s.inodes[s.chunks[idx]] == Slice(c, idx) {
      assert ChunkOk(s, idx, Slice(c, idx)) && HasOrigin(c, s, idx, |s.inodes[s.chunks[idx]]|);
    }
  }

  // ---------------------------------------------------------------- requests of mixed lengths

  lemma {:induction false} Extend(c: Config, states: seq<State>, labels: seq<Label>, l: Label) returns (states': seq<State>, labels': seq<Label>)
    requires c.chunkSize > 0 && IsRun(c, states, labels) && Enabled(c, states[|labels|], l)
    ensures IsRun(c, states', labels') && labels' == labels + [l]
    ensures states'[|labels'|] == Next(c, states[|labels|], l)
  {
    states', labels' := states + [Next(c, states[|labels|], l)], labels + [l];
  }

  predicate Permitted(c: Config, offset: nat, len: nat)
    requires c.chunkSize > 0
  {
    ValidateReadAtParams(c.chunkSize, len, offset).None?
  }

  /** Every request that was started is one of the allowed ones. */
  ghost predicate Asks(labels: seq<Label>, allow: (nat, nat) -> bool) {
    forall i :: 0 <= i < |labels| && labels[i].Start? ==> allow(labels[i].offset, labels[i].len)
  }

  /** A read that wants less than the chunk has queues a write-back of what it got. */
  lemma {:induction false} ShortReadRun(c: Config, offset: nat, len: nat, data: seq<Byte>) returns (states: seq<State>, labels: seq<Label>)
    requires c.chunkSize > 0 && Permitted(c, offset, len) && len < |Slice(c, ChunkIndex(c, offset))|
    requires data == Slice(c, ChunkIndex(c, offset))[..len]
    ensures IsRun(c, states, labels) && 1 !in states[|labels|].readers
    ensures states[|labels|].chunks == map[] && states[|labels|].inodes == map[]
    ensures states[|labels|].writers == map[0 := Writer(ChunkIndex(c, offset), data, Queued)]
    ensures forall allow: (nat, nat) -> bool :: allow(offset, len) ==> Asks(labels, allow)
  {
    states, labels := [EMPTY], [];
    states, labels := Extend(c, states, labels, Start(0, ReadAt, offset, len, true));
    states, labels := Extend(c, states, labels, OpenMiss(0));
    states, labels := Extend(c, states, labels, ReadObject(0, 0));
    AlignedRead(c, offset, len);
    assert ReadFrom(c.blob, offset, len) == Reply(data, false);
  }

  /** The write-back publishes that short chunk file. */
  lemma {:induction false} ShortChunkRun(c: Config, offset: nat, len: nat, data: seq<Byte>) returns (states: seq<State>, labels: seq<Label>)
    requires c.chunkSize > 0 && Permitted(c, offset, len) && len < |Slice(c, ChunkIndex(c, offset))|
    requires data == Slice(c, ChunkIndex(c, offset))[..len]
    ensures IsRun(c, states, labels) && 1 !in states[|labels|].readers
    ensures states[|labels|].chunks == map[ChunkIndex(c, offset) := 5] && states[|labels|].inodes == map[5 := data]
    ensures forall allow: (nat, nat) -> bool :: allow(offset, len) ==> Asks(labels, allow)
  {
    var idx := ChunkIndex(c, offset);
    states, labels := ShortReadRun(c, offset, len, data);
    states, labels := Extend(c, states, labels, LockOk(0));
    states, labels := Extend(c, states, labels, CreateTemp(0, 5));
    assert states[|labels|].writers == map[0 := Writer(idx, data, Writing(5))];
    states, labels := Extend(c, states, labels, WriteSome(0, len));
    assert [] + data[0..len] == data;
    assert states[|labels|].inodes == map[5 := data];
    states, labels := Extend(c, states, labels, WriteDone(0));
    states, labels := Extend(c, states, labels, Link(0));
  }

  /** Whenever one request for a chunk wants fewer bytes than another and than the chunk has, there is a run
      in which the second is told that the object ends too early. */
  lemma {:induction false} MixedLengthsDisagree(c: Config, offset: nat, len1: nat, len2: nat) returns (states: seq<State>, labels: seq<Label>)
    requires c.chunkSize > 0 && Permitted(c, offset, len1) && Permitted(c, offset, len2)
    requires len1 < len2 && len1 < |Slice(c, ChunkIndex(c, offset))|
    ensures IsRun(c, states, labels) && !RepliesOk(c, states[|labels|])
    ensures forall allow: (nat, nat) -> bool :: allow(offset, len1) && allow(offset, len2) ==> Asks(labels, allow)
  {
    var data := Slice(c, ChunkIndex(c, offset))[..len1];
    states, labels := ShortChunkRun(c, offset, len1, data);
    states, labels := Extend(c, states, labels, Start(1, ReadAt, offset, len2, true));
    states, labels := Extend(c, states, labels, OpenHit(1));
    states, labels := Extend(c, states, labels, ReadFile(1));
    CachedReplyAgreesIff(c, offset, len2, data);
    assert 1 in states[|labels|].readers && !ReplyOk(c, states[|labels|].readers[1]);
  }

  // ---------------------------------------------------------------- exactly which requests are safe

  /** Whatever allowed requests are made and however they interleave, every reply is the object's. */
  ghost predicate Safe(c: Config, allow: (nat, nat) -> bool)
    requires c.chunkSize > 0
  {
    forall states, labels :: IsRun(c, states, labels) && Asks(labels, allow) ==> RepliesOk(c, states[|labels|])
  }

  /** The allowed requests for one chunk all want the same number of bytes. */
  ghost predicate OneLengthPerChunk(c: Config, allow: (nat, nat) -> bool)
    requires c.chunkSize > 0
  {
    forall offset, len1, len2 ::
      Permitted(c, offset, len1) && Permitted(c, offset, len2) && allow(offset, len1) && allow(offset, len2) ==>
        Min(len1, |Slice(c, ChunkIndex(c, offset))|) == Min(len2, |Slice(c, ChunkIndex(c, offset))|)
  }

  lemma {:induction false} ReadersAsk(c: Config, states: seq<State>, labels: seq<Label>, allow: (nat, nat) -> bool, k: nat, r: ReaderId)
    requires c.chunkSize > 0 && IsRun(c, states, labels) && Asks(labels, allow) && k <= |labels| && r in states[k].readers
    ensures allow(states[k].readers[r].offset, states[k].readers[r].len)
  {
    if k == 0 {
    } else {
      var s, l := states[k - 1], labels[k - 1];
      assert Enabled(c, s, l);
      if r in s.readers {
        ReadersAsk(c, states, labels, allow, k - 1, r);
        StreamsOrKept(c, s, l, r);
      }
    }
  }

  lemma {:induction false} AllowedRunsHaveOneLength(c: Config, states: seq<State>, labels: seq<Label>, allow: (nat, nat) -> bool)
    requires c.chunkSize > 0 && IsRun(c, states, labels) && Asks(labels, allow) && OneLengthPerChunk(c, allow)
    ensures OneLength(c, states[|labels|])
  {
    var s := states[|labels|];
    RunKeepsInv(c, states, labels, |labels|);
    forall r, t | r in s.readers && t in s.readers && s.readers[r].idx == s.readers[t].idx
      ensures Wanted(c, s.readers[r]) == Wanted(c, s.readers[t])
    {
      ReadersAsk(c, states, labels, allow, |labels|, r);
      ReadersAsk(c, states, labels, allow, |labels|, t);
      assert RequestOk(c, s.readers[r]) && RequestOk(c, s.readers[t]);
      AlignedRead(c, s.readers[r].offset, s.readers[r].len);
      AlignedRead(c, s.readers[t].offset, s.readers[t].len);
    }
  }

  /** The cache is transparent for a set of requests if and only if those for one chunk all want the same number
      of bytes. */
  lemma {:induction false} SafeIffOneLengthPerChunk(c: Config, allow: (nat, nat) -> bool)
    requires c.chunkSize > 0
    ensures Safe(c, allow) <==> OneLengthPerChunk(c, allow)
  {
    if OneLengthPerChunk(c, allow) {
      forall states, labels | IsRun(c, states, labels) && Asks(labels, allow) ensures RepliesOk(c, states[|labels|]) {
        AllowedRunsHaveOneLength(c, states, labels, allow);
        RunIsTransparent(c, states, labels, |labels|);
      }
    } else {
      var offset, len1, len2 :| Permitted(c, offset, len1) && Permitted(c, offset, len2) && allow(offset, len1) && allow(offset, len2)
        && Min(len1, |Slice(c, ChunkIndex(c, offset))|) < Min(len2, |Slice(c, ChunkIndex(c, offset))|);
      var states, labels := MixedLengthsDisagree(c, offset, len1, len2);
    }
  }
}

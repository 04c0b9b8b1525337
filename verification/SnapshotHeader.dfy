/** Snapshot headers: building a layer's mapping from its dirty and empty blocks, stacking layers,
    looking a block up, and reading an image back from the data files of its layers. */
module SnapshotHeader {
  import opened BuildMappings
  import opened Wrappers

  /** A bit set; bits beyond the sequence are clear. */
  type Bits = seq<bool>

  predicate Has(bits: Bits, i: nat) { i < |bits| && bits[i] }

  /** The number of set bits below `i`: the position of block `i` in the layer's data file. */
  function Rank(bits: Bits, i: nat): nat {
    if i == 0 then 0 else Rank(bits, i - 1) + if Has(bits, i - 1) then 1 else 0
  }

  function NextSet(bits: Bits, from: nat): (r: nat)
    requires from <= |bits|
    ensures from <= r <= |bits| && (r < |bits| ==> bits[r])
    ensures forall j :: from <= j < r ==> !bits[j]
    decreases |bits| - from
  {
    if from == |bits| || bits[from] then from else NextSet(bits, from + 1)
  }

  function SetBit(bits: Bits, i: nat): (r: Bits)
    ensures Has(r, i) && forall j: nat :: j != i ==> Has(r, j) == Has(bits, j)
  {
    if i < |bits| then bits[i := true] else bits + seq(i - |bits|, _ => false) + [true]
  }

  // ---------------------------------------------------------------- block arithmetic

  lemma BlockOf(x: nat, blockSize: nat, a: nat)
    requires blockSize > 0
    ensures a * blockSize <= x <==> a <= x / blockSize
    ensures x == x / blockSize * blockSize + x % blockSize
  {
    var q := x / blockSize;
    if a <= q {
      MulMono(a, q, blockSize);
    } else {
      MulMono(q + 1, a, blockSize);
    }
  }

  lemma MulMono(a: nat, b: nat, c: nat)
    requires a <= b
    ensures a * c <= b * c
    ensures b * c == a * c + (b - a) * c
  {
  }

  lemma MulMod(a: nat, b: nat)
    requires b > 0
    ensures (a * b) % b == 0 && (a * b) / b == a
  {
    var q, r := (a * b) / b, (a * b) % b;
    BlockOf(a * b, b, a);
    BlockOf(a * b, b, a + 1);
  }

  // ---------------------------------------------------------------- a layer's own mapping

  /** What a layer that stores its dirty blocks back to back says about byte `x`. */
  function LayerSource(build: BuildId, bits: Bits, blockSize: nat, x: nat): Source
    requires blockSize > 0
  {
    var i := x / blockSize;
    if Has(bits, i) then At(build, Rank(bits, i) * blockSize + x % blockSize) else Unmapped
  }

  lemma {:induction false} RankRun(bits: Bits, start: nat, i: nat)
    requires start <= i && forall j :: start <= j < i ==> Has(bits, j)
    ensures Rank(bits, i) == Rank(bits, start) + (i - start)
  {
    if start == i {
    } else {
      RankRun(bits, start, i - 1);
    }
  }

  lemma {:induction false} RankGap(bits: Bits, start: nat, i: nat)
    requires start <= i && forall j :: start <= j < i ==> !Has(bits, j)
    ensures Rank(bits, i) == Rank(bits, start)
  {
    if start == i {
    } else {
      RankGap(bits, start, i - 1);
    }
  }

  /** The entry for the run of `len` set bits starting at `start`. */
  function RunEntry(build: BuildId, bits: Bits, blockSize: nat, start: nat, len: nat): BuildMap {
    BuildMap(start * blockSize, len * blockSize, build, Rank(bits, start) * blockSize)
  }

  /** The list agrees with the layer on every byte below `limit` and has no entry beyond it. */
  ghost predicate MapsBelow(ms: seq<BuildMap>, build: BuildId, bits: Bits, blockSize: nat, limit: nat)
    requires blockSize > 0
  {
    && (forall i :: 0 <= i < |ms| ==> ms[i].End() <= limit)
    && (forall x: nat :: x < limit ==> Resolve(ms, x) == LayerSource(build, bits, blockSize, x))
  }

  lemma UnmappedBeyond(ms: seq<BuildMap>, limit: nat, x: nat)
    requires limit <= x && forall i :: 0 <= i < |ms| ==> ms[i].End() <= limit
    ensures Resolve(ms, x) == Unmapped
  {
    if Resolve(ms, x) != Unmapped { var k := ResolveFinds(ms, x); }
  }

  /** Clear blocks extend the part of the layer that is mapped correctly. */
  lemma SkipGap(ms: seq<BuildMap>, build: BuildId, bits: Bits, blockSize: nat, start: nat, next: nat)
    requires blockSize > 0 && MapsBelow(ms, build, bits, blockSize, start * blockSize) && start <= next
    requires forall j :: start <= j < next ==> !Has(bits, j)
    ensures MapsBelow(ms, build, bits, blockSize, next * blockSize)
  {
    MulMono(start, next, blockSize);
    forall x: nat | start * blockSize <= x < next * blockSize
      ensures Resolve(ms, x) == LayerSource(build, bits, blockSize, x)
    {
      BlockOf(x, blockSize, start);
      BlockOf(x, blockSize, next);
      UnmappedBeyond(ms, start * blockSize, x);
    }
  }

  /** Appending the entry of a run does too, and the storage cursor advances by the run. */
  lemma AppendRun(ms: seq<BuildMap>, build: BuildId, bits: Bits, blockSize: nat, start: nat, len: nat)
    requires blockSize > 0 && MapsBelow(ms, build, bits, blockSize, start * blockSize)
    requires forall j :: start <= j < start + len ==> Has(bits, j)
    ensures MapsBelow(ms + [RunEntry(build, bits, blockSize, start, len)], build, bits, blockSize, (start + len) * blockSize)
  {
    var e := RunEntry(build, bits, blockSize, start, len);
    assert e.End() == (start + len) * blockSize by { MulMono(start, start + len, blockSize); }
    forall x: nat | x < e.End()
      ensures Resolve(ms + [e], x) == LayerSource(build, bits, blockSize, x)
    {
      ResolveSnoc(ms, e, x);
      if e.offset <= x {
        UnmappedBeyond(ms, e.offset, x);
        BlockOf(x, blockSize, start);
        BlockOf(x, blockSize, start + len);
        RankRun(bits, start, x / blockSize);
        MulMono(start, x / blockSize, blockSize);
        MulMono(Rank(bits, start), Rank(bits, x / blockSize), blockSize);
      }
    }
  }

  lemma RunEntryShape(build: BuildId, bits: Bits, blockSize: nat, start: nat, len: nat, size: nat)
    requires blockSize > 0 && 0 < len && start + len <= |bits| && |bits| * blockSize <= size
    ensures Clean([RunEntry(build, bits, blockSize, start, len)], blockSize, size)
  {
    MulMono(start, start + len, blockSize);
    MulMono(start + len, |bits|, blockSize);
    MulMono(1, len, blockSize);
    MulMod(start, blockSize);
    MulMod(start + len, blockSize);
  }

  lemma RankPastRun(bits: Bits, blockSize: nat, start: nat, len: nat, next: nat)
    requires start + len <= next
    requires forall j :: start <= j < start + len ==> Has(bits, j)
    requires forall j :: start + len <= j < next ==> !Has(bits, j)
    ensures Rank(bits, next) * blockSize == Rank(bits, start) * blockSize + len * blockSize
  {
    RankRun(bits, start, start + len);
    RankGap(bits, start + len, next);
    MulMono(Rank(bits, start), Rank(bits, next), blockSize);
  }

  lemma CleanSnoc(ms: seq<BuildMap>, e: BuildMap, blockSize: nat, size: nat)
    requires blockSize > 0 && Sorted(ms) && Clean(ms, blockSize, size) && Clean([e], blockSize, size)
    requires forall i :: 0 <= i < |ms| ==> ms[i].End() <= e.offset
    ensures Sorted(ms + [e]) && Clean(ms + [e], blockSize, size)
  {
    assert [e][0] == e;
  }

  /** Closing the run `[start, start + len)` at block `next`, as the loop of `CreateMapping` does. */
  lemma CloseRun(ms: seq<BuildMap>, build: BuildId, bits: Bits, blockSize: nat, start: nat, len: nat, next: nat, size: nat)
    requires blockSize > 0 && 0 < len && start + len <= next <= |bits| && |bits| * blockSize <= size
    requires forall j :: start <= j < start + len ==> Has(bits, j)
    requires forall j :: start + len <= j < next ==> !Has(bits, j)
    requires Sorted(ms) && Clean(ms, blockSize, size) && MapsBelow(ms, build, bits, blockSize, start * blockSize)
    ensures var ms' := ms + [RunEntry(build, bits, blockSize, start, len)];
            Sorted(ms') && Clean(ms', blockSize, size) && MapsBelow(ms', build, bits, blockSize, next * blockSize)
    ensures Rank(bits, next) * blockSize == Rank(bits, start) * blockSize + len * blockSize
  {
    var e := RunEntry(build, bits, blockSize, start, len);
    RunEntryShape(build, bits, blockSize, start, len, size);
    CleanSnoc(ms, e, blockSize, size);
    AppendRun(ms, build, bits, blockSize, start, len);
    SkipGap(ms + [e], build, bits, blockSize, start + len, next);
    RankPastRun(bits, blockSize, start, len, next);
  }

  /** `CreateMapping`: one entry per maximal run of set bits, stored back to back. */
  method CreateMapping(build: BuildId, bits: Bits, blockSize: nat, ghost size: nat) returns (mappings: seq<BuildMap>)
    requires blockSize > 0 && |bits| * blockSize <= size
    ensures Sorted(mappings) && Clean(mappings, blockSize, size)
    ensures forall x: nat :: Resolve(mappings, x) == LayerSource(build, bits, blockSize, x)
  {
    mappings := [];
    var start: nat, len: nat, storage: nat := 0, 0, 0;
    var block := NextSet(bits, 0);
    ghost var scanned: nat := 0;
    while block < |bits|
      invariant start + len <= scanned <= |bits| && block == NextSet(bits, scanned)
      invariant (len == 0 ==> start == 0) && forall j :: start <= j < start + len ==> bits[j]
      invariant forall j :: start + len <= j < scanned ==> !bits[j]
      invariant storage == Rank(bits, start) * blockSize
      invariant Sorted(mappings) && Clean(mappings, blockSize, size)
      invariant MapsBelow(mappings, build, bits, blockSize, start * blockSize)
      decreases |bits| - block
    {
      scanned := block + 1;
      if start + len == block {
        len := len + 1;
      } else {
        if len > 0 {
          CloseRun(mappings, build, bits, blockSize, start, len, block, size);
          mappings := mappings + [BuildMap(start * blockSize, len * blockSize, build, storage)];
          storage := storage + len * blockSize;
        } else {
          RankGap(bits, 0, block);
          SkipGap(mappings, build, bits, blockSize, 0, block);
        }
        start, len := block, 1;
      }
      block := NextSet(bits, block + 1);
    }
    if len > 0 {
      CloseRun(mappings, build, bits, blockSize, start, len, |bits|, size);
      mappings := mappings + [BuildMap(start * blockSize, len * blockSize, build, storage)];
    } else {
      SkipGap(mappings, build, bits, blockSize, 0, |bits|);
    }
    forall x: nat ensures Resolve(mappings, x) == LayerSource(build, bits, blockSize, x) {
      BlockOf(x, blockSize, |bits|);
      if |bits| * blockSize <= x { UnmappedBeyond(mappings, |bits| * blockSize, x); }
    }
  }

  // ---------------------------------------------------------------- headers and block lookup

  datatype Metadata = Metadata(version: nat, blockSize: nat, size: nat, generation: nat, build: BuildId, baseBuild: BuildId) {
    function NextGeneration(next: BuildId): Metadata { this.(generation := generation + 1, build := next) }
  }

  /** The metadata of the next snapshot: one generation on, with its own build, and everything else kept. */
  predicate NextMetadata(m: Metadata, build: BuildId, m': Metadata) {
    m' == Metadata(m.version, m.blockSize, m.size, m.generation + 1, build, m.baseBuild)
  }

  const NORMALIZE_FIX_VERSION := 3

  /** A header with its lookup index: the blocks at which entries start, and the entry of each. */
  datatype Header = Header(metadata: Metadata, mapping: seq<BuildMap>, starts: set<nat>, startMap: map<nat, BuildMap>) {
    predicate NormalizeFixApplied() { metadata.version >= NORMALIZE_FIX_VERSION }
  }

  /** The index `NewHeader` builds: a later entry at the same block replaces an earlier one. */
  function StartMap(ms: seq<BuildMap>, blockSize: nat): map<nat, BuildMap>
    requires blockSize > 0
  {
    if ms == [] then map[]
    else StartMap(ms[..|ms| - 1], blockSize)[ms[|ms| - 1].offset / blockSize := ms[|ms| - 1]]
  }

  ghost predicate Indexed(h: Header) {
    h.metadata.blockSize > 0 && h.startMap == StartMap(h.mapping, h.metadata.blockSize) && h.starts == h.startMap.Keys
  }

  method NewHeader(metadata: Metadata, mapping: seq<BuildMap>) returns (r: Fallible<Header>)
    ensures r.Ok? <==> metadata.blockSize != 0
    ensures r.Ok? ==> Indexed(r.value) && r.value.metadata == metadata
    ensures r.Ok? ==>
              r.value.mapping == if mapping == [] then [BuildMap(0, metadata.size, metadata.build, 0)] else mapping
  {
    if metadata.blockSize == 0 {
      return Err(());
    }
    var ms := if |mapping| == 0 then [BuildMap(0, metadata.size, metadata.build, 0)] else mapping;
    var starts, startMap := {}, map[];
    for i := 0 to |ms|
      invariant startMap == StartMap(ms[..i], metadata.blockSize) && starts == startMap.Keys
    {
      assert ms[..i + 1][..i] == ms[..i];
      var block := ms[i].offset / metadata.blockSize;
      starts, startMap := starts + {block}, startMap[block := ms[i]];
    }
    assert ms[..|ms|] == ms;
    r := Ok(Header(metadata, ms, starts, startMap));
  }

  /** The largest member not above `b`, as the bit set's `PreviousSet` finds it. */
  function PreviousSet(starts: set<nat>, b: nat): (r: Fallible<nat>)
    ensures r.Ok? ==> r.value in starts && r.value <= b && forall s :: s in starts && s <= b ==> s <= r.value
    ensures r.Err? ==> forall s :: s in starts ==> b < s
  {
    if b in starts then Ok(b) else if b == 0 then Err(()) else PreviousSet(starts, b - 1)
  }

  datatype Location = Location(offset: int, length: int, build: BuildId)

  /** `GetShiftedMapping` with `getMapping` inlined: headers older than the normalization fix only
      warn where newer ones fail. */
  function GetShiftedMapping(h: Header, offset: nat): Fallible<Location>
    requires h.metadata.blockSize > 0
  {
    var strict, blockSize := h.NormalizeFixApplied(), h.metadata.blockSize;
    if strict && h.metadata.size <= offset then Err(())
    else if strict && offset % blockSize != 0 then Err(())
    else
      var block := offset / blockSize;
      var start := PreviousSet(h.starts, block);
      if start.Err? || start.value !in h.startMap then Err(())
      else
        var m := h.startMap[start.value];
        var shift := (block - start.value) * blockSize;
        if strict && m.length <= shift then Err(())
        else if strict && m.length - shift < 0 then Err(())
        else Ok(Location(m.storage + shift, m.length - shift, m.build))
  }

  lemma {:induction false} StartMapKeys(ms: seq<BuildMap>, blockSize: nat, b: nat) returns (k: nat)
    requires blockSize > 0 && b in StartMap(ms, blockSize)
    ensures k < |ms| && ms[k].offset / blockSize == b
  {
    if ms[|ms| - 1].offset / blockSize == b {
      k := |ms| - 1;
    } else {
      k := StartMapKeys(ms[..|ms| - 1], blockSize, b);
    }
  }

  lemma {:induction false} StartMapLast(ms: seq<BuildMap>, blockSize: nat, k: nat)
    requires blockSize > 0 && k < |ms|
    requires forall j :: k < j < |ms| ==> ms[j].offset / blockSize != ms[k].offset / blockSize
    ensures ms[k].offset / blockSize in StartMap(ms, blockSize)
    ensures StartMap(ms, blockSize)[ms[k].offset / blockSize] == ms[k]
  {
    if k < |ms| - 1 {
      StartMapLast(ms[..|ms| - 1], blockSize, k);
    }
  }

  lemma DivMono(a: nat, b: nat, d: nat)
    requires a <= b && d > 0
    ensures a / d <= b / d
  {
    BlockOf(a, d, a / d);
    BlockOf(b, d, a / d);
  }

  /** Aligned positions are ordered like their blocks. */
  lemma AlignedBlocks(a: nat, b: nat, d: nat)
    requires a < b && d > 0 && a % d == 0 && b % d == 0
    ensures a / d < b / d
    ensures (b / d - a / d) * d == b - a
  {
    DivMono(a, b, d);
    BlockOf(a, d, a / d);
    BlockOf(b, d, b / d);
    MulMono(a / d, b / d, d);
  }

  ghost predicate Valid(h: Header) {
    && Indexed(h)
    && Tiles(h.mapping, 0, h.metadata.size)
    && forall i :: 0 <= i < |h.mapping| ==> h.mapping[i].offset % h.metadata.blockSize == 0
  }

  lemma ModuloSum(a: nat, b: nat, d: nat)
    requires d > 0 && a % d == 0 && b % d == 0
    ensures (a + b) % d == 0
  {
    BlockOf(a, d, 0);
    BlockOf(b, d, 0);
    assert a + b == (a / d + b / d) * d;
    MulMod(a / d + b / d, d);
  }

  /** Entries that follow each other with lengths in whole blocks start at whole blocks. */
  lemma {:induction false} AlignedOffsets(ms: seq<BuildMap>, blockSize: nat, k: nat)
    requires blockSize > 0 && Contiguous(ms, 0) && k < |ms|
    requires forall i :: 0 <= i < |ms| ==> ms[i].length % blockSize == 0
    ensures ms[k].offset % blockSize == 0
  {
    if k == 0 {
    } else {
      AlignedOffsets(ms, blockSize, k - 1);
      ModuloSum(ms[k - 1].offset, ms[k - 1].length, blockSize);
    }
  }

  /** What `ValidateMappings` accepts is what lookups rely on. */
  lemma AcceptedIsValid(h: Header)
    requires Indexed(h) && Tiles(h.mapping, 0, h.metadata.size)
    requires forall i :: 0 <= i < |h.mapping| ==> h.mapping[i].length % h.metadata.blockSize == 0
    ensures Valid(h)
  {
    forall i | 0 <= i < |h.mapping| ensures h.mapping[i].offset % h.metadata.blockSize == 0 {
      AlignedOffsets(h.mapping, h.metadata.blockSize, i);
    }
  }

  /** The bit-set lookup refines the meaning of the mapping: for every header that passes validation, it
      succeeds on the aligned offsets inside the image, and the location it returns is right for the whole
      stretch it announces; on every other offset a header of the current version fails. */
  lemma LookupIsResolve(h: Header, offset: nat)
    requires Valid(h)
    ensures var r := GetShiftedMapping(h, offset);
            var inside := offset < h.metadata.size && offset % h.metadata.blockSize == 0;
            && (inside ==> r.Ok?) && (r.Ok? && h.NormalizeFixApplied() ==> inside)
            && (inside ==> 0 < r.value.length && 0 <= r.value.offset && offset + r.value.length <= h.metadata.size)
            && (inside ==> forall y :: offset <= y < offset + r.value.length ==>
                             Resolve(h.mapping, y) == At(r.value.build, r.value.offset + (y - offset)))
  {
    var d, ms := h.metadata.blockSize, h.mapping;
    if offset < h.metadata.size && offset % d == 0 {
      TilesCover(ms, 0, h.metadata.size, offset);
      TilesSorted(ms, 0, h.metadata.size);
      var k := ResolveFinds(ms, offset);
      LookupFinds(h, offset, k);
      forall y | offset <= y < ms[k].End()
        ensures Resolve(ms, y) == At(ms[k].build, ms[k].storage + (y - ms[k].offset))
      {
        ResolveAt(ms, k, y);
      }
    }
  }

  lemma LookupFinds(h: Header, offset: nat, k: nat)
    requires Valid(h) && Sorted(h.mapping)
    requires offset < h.metadata.size && offset % h.metadata.blockSize == 0
    requires k < |h.mapping| && h.mapping[k].Covers(offset)
    ensures GetShiftedMapping(h, offset) ==
      Ok(Location(h.mapping[k].storage + (offset - h.mapping[k].offset), h.mapping[k].End() - offset, h.mapping[k].build))
  {
    var d, ms := h.metadata.blockSize, h.mapping;
    LookupStart(h, offset, k);
    AlignedDistance(ms[k].offset, offset, d);
  }

  /** The bit-set search lands on the start of the entry that covers the offset. */
  lemma LookupStart(h: Header, offset: nat, k: nat)
    requires Valid(h) && Sorted(h.mapping) && offset % h.metadata.blockSize == 0
    requires k < |h.mapping| && h.mapping[k].Covers(offset)
    ensures var d, at := h.metadata.blockSize, h.mapping[k].offset / h.metadata.blockSize;
            && PreviousSet(h.starts, offset / d) == Ok(at)
            && at in h.startMap && h.startMap[at] == h.mapping[k]
  {
    var d, ms := h.metadata.blockSize, h.mapping;
    var block, at := offset / d, ms[k].offset / d;
    forall j | k < j < |ms| ensures block < ms[j].offset / d && at < ms[j].offset / d {
      AlignedBlocks(offset, ms[j].offset, d);
      DivMono(ms[k].offset, offset, d);
    }
    StartMapLast(ms, d, k);
    DivMono(ms[k].offset, offset, d);
    var start := PreviousSet(h.starts, block);
    var k' := StartMapKeys(ms, d, start.value);
    if k' < k { DivMono(ms[k'].offset, ms[k].offset, d); }
  }

  lemma AlignedDistance(a: nat, b: nat, d: nat)
    requires a <= b && d > 0 && a % d == 0 && b % d == 0
    ensures (b / d - a / d) * d == b - a
  {
    if a < b { AlignedBlocks(a, b, d); }
  }

  // ---------------------------------------------------------------- stacking layers

  /** The blocks one snapshot changed: stored ones and those that became all zeroes. */
  datatype Layer = Layer(build: BuildId, dirty: Bits, empty: Bits)

  /** What byte `x` reads from after `layer` is put on top of a source `below`. */
  function Overlay(layer: Layer, blockSize: nat, x: nat, below: Source): Source
    requires blockSize > 0
  {
    if Has(layer.empty, x / blockSize) then At(NIL_BUILD, 0)
    else if Has(layer.dirty, x / blockSize) then LayerSource(layer.build, layer.dirty, blockSize, x)
    else below
  }

  /** Neighbouring bytes of one real build are neighbours in its data file. */
  ghost predicate Linear(ms: seq<BuildMap>) {
    forall x: nat :: StepLinear(Read(ms, x), Read(ms, x + 1))
  }

  predicate StepLinear(s: Source, t: Source) {
    s.At? && t.At? && s.build == t.build && s.build != NIL_BUILD ==> t.pos == s.pos + 1
  }

  /** The state of a header that every snapshot keeps. */
  ghost predicate Sound(h: Header) {
    && Valid(h) && 0 < h.metadata.size
    && Clean(h.mapping, h.metadata.blockSize, h.metadata.size)
    && Linear(h.mapping)
  }

  ghost predicate Fresh(h: Header, build: BuildId) {
    build != NIL_BUILD && forall x: nat :: Read(h.mapping, x).At? ==> Read(h.mapping, x).build != build
  }

  ghost predicate Fits(h: Header, layer: Layer) {
    |layer.dirty| * h.metadata.blockSize <= h.metadata.size && |layer.empty| * h.metadata.blockSize <= h.metadata.size
  }

  lemma Quotient(x: nat, q: nat, d: nat)
    requires d > 0 && q * d <= x < q * d + d
    ensures x / d == q && x % d == x - q * d
  {
    BlockOf(x, d, q);
    MulMono(q, q + 1, d);
    BlockOf(x, d, q + 1);
  }

  lemma NextByte(x: nat, d: nat)
    requires d > 0
    ensures x % d + 1 < d ==> (x + 1) / d == x / d && (x + 1) % d == x % d + 1
    ensures x % d + 1 == d ==> (x + 1) / d == x / d + 1 && (x + 1) % d == 0
  {
    var q := x / d;
    BlockOf(x, d, 0);
    MulMono(q, q + 1, d);
    if x % d + 1 < d {
      Quotient(x + 1, q, d);
    } else {
      Quotient(x + 1, q + 1, d);
    }
  }

  lemma LayerLinear(build: BuildId, bits: Bits, blockSize: nat, x: nat)
    requires blockSize > 0
    ensures StepLinear(LayerSource(build, bits, blockSize, x), LayerSource(build, bits, blockSize, x + 1))
  {
    var i := x / blockSize;
    NextByte(x, blockSize);
    if x % blockSize + 1 == blockSize && Has(bits, i) && Has(bits, i + 1) {
      MulMono(Rank(bits, i), Rank(bits, i + 1), blockSize);
    }
  }

  /** A linear tiling is joinable, so normalizing it is sound: `current` stands for entries joined so far, up to
      entry `k`. */
  lemma {:induction false} LinearJoinable(ms: seq<BuildMap>, size: nat, current: BuildMap, k: nat)
    requires Tiles(ms, 0, size) && Positive(ms) && Linear(ms) && 0 < k <= |ms|
    requires current.build == ms[k - 1].build && current.End() == ms[k - 1].End()
    requires current.build != NIL_BUILD ==> current.storage + current.length == ms[k - 1].storage + ms[k - 1].length
    ensures Joinable(current, ms[k..])
    decreases |ms| - k
  {
    if k == |ms| {
    } else {
      TilesSorted(ms, 0, size);
      var x := ms[k - 1].End() - 1;
      ResolveAt(ms, k - 1, x);
      ResolveAt(ms, k, x + 1);
      assert StepLinear(Read(ms, x), Read(ms, x + 1));
      assert ms[k..][1..] == ms[k + 1..];
      LinearJoinable(ms, size, if ms[k].build == current.build then current.(length := current.length + ms[k].length) else ms[k], k + 1);
    }
  }

  /** The merged list before normalization: its meaning is the overlay, and it is a linear tiling. */
  lemma OverlayMeaning(h: Header, layer: Layer, dirty: seq<BuildMap>, empty: seq<BuildMap>, merged: seq<BuildMap>, x: nat)
    requires Sound(h) && Fits(h, layer)
    requires forall y: nat :: Resolve(dirty, y) == LayerSource(layer.build, layer.dirty, h.metadata.blockSize, y)
    requires forall y: nat :: Resolve(empty, y) == LayerSource(NIL_BUILD, layer.empty, h.metadata.blockSize, y)
    requires forall y: nat :: Resolve(merged, y) == Else(Else(Resolve(empty, y), Resolve(dirty, y)), Resolve(h.mapping, y))
    ensures Read(merged, x) == Canon(Overlay(layer, h.metadata.blockSize, x, Read(h.mapping, x)))
  {
    assert Resolve(merged, x) == Else(Else(Resolve(empty, x), Resolve(dirty, x)), Resolve(h.mapping, x));
  }

  lemma OverlayLinear(h: Header, layer: Layer, x: nat)
    requires Sound(h) && Fresh(h, layer.build)
    ensures StepLinear(Canon(Overlay(layer, h.metadata.blockSize, x, Read(h.mapping, x))),
                       Canon(Overlay(layer, h.metadata.blockSize, x + 1, Read(h.mapping, x + 1))))
  {
    LayerLinear(layer.build, layer.dirty, h.metadata.blockSize, x);
    assert StepLinear(Read(h.mapping, x), Read(h.mapping, x + 1));
    assert Read(h.mapping, x).At? ==> Read(h.mapping, x).build != layer.build;
    assert Read(h.mapping, x + 1).At? ==> Read(h.mapping, x + 1).build != layer.build;
  }

  /** `h'` is `h` with `layer` on top. */
  ghost predicate Stacked(h: Header, layer: Layer, h': Header)
    requires h.metadata.blockSize > 0
  {
    && NextMetadata(h.metadata, layer.build, h'.metadata)
    && forall x: nat :: Read(h'.mapping, x) == Canon(Overlay(layer, h.metadata.blockSize, x, Read(h.mapping, x)))
  }

  /** The image the layer's bits reach into, at least that of the header. */
  ghost function Reach(h: Header, layer: Layer): nat {
    var dirty, empty := |layer.dirty| * h.metadata.blockSize, |layer.empty| * h.metadata.blockSize;
    if dirty <= h.metadata.size && empty <= h.metadata.size then h.metadata.size else dirty + empty
  }

  /** `ToDiffHeader`.  A header of the current version comes out only valid, an older one always; and on a sound
      header, for a fresh build and bits inside the image, it never fails and the new header is sound and
      reads as the overlay of the layer on the old one. */
  method ToDiffHeader(h: Header, layer: Layer) returns (r: Fallible<Header>)
    requires 0 < h.metadata.blockSize && Sorted(h.mapping)
    ensures r.Ok? ==> Indexed(r.value) && NextMetadata(h.metadata, layer.build, r.value.metadata)
    ensures r.Ok? && h.NormalizeFixApplied() ==> Valid(r.value)
    ensures !h.NormalizeFixApplied() ==> r.Ok?
    ensures Sound(h) && Fresh(h, layer.build) && Fits(h, layer) ==> r.Ok? && Sound(r.value) && Stacked(h, layer, r.value)
  {
    var blockSize := h.metadata.blockSize;
    var dirty := CreateMapping(layer.build, layer.dirty, blockSize, Reach(h, layer));
    var empty := CreateMapping(NIL_BUILD, layer.empty, blockSize, Reach(h, layer));
    var diff := MergeMappings(dirty, empty);
    var merged := MergeMappings(h.mapping, diff);
    var mapping := NormalizeMappings(merged);
    if Sound(h) && Fresh(h, layer.build) && Fits(h, layer) {
      MergedShape(h, layer, dirty, empty, diff, merged);
      NormalizedShape(h, layer, merged);
    }
    var made := NewHeader(h.metadata.NextGeneration(layer.build), mapping);
    if made.Err? {
      return Err(());
    }
    var v := ValidateMappings(made.value.mapping, made.value.metadata.size, made.value.metadata.blockSize);
    if v.Accepted? { AcceptedIsValid(made.value); }
    var strict := made.value.NormalizeFixApplied();
    if strict && v.Rejected? {
      return Err(());
    }
    r := made;
  }

  lemma MergedShape(h: Header, layer: Layer, dirty: seq<BuildMap>, empty: seq<BuildMap>, diff: seq<BuildMap>, merged: seq<BuildMap>)
    requires Sound(h) && Fresh(h, layer.build) && Fits(h, layer) && Sorted(h.mapping)
    requires Sorted(dirty) && Clean(dirty, h.metadata.blockSize, h.metadata.size)
    requires Sorted(empty) && Clean(empty, h.metadata.blockSize, h.metadata.size)
    requires forall y: nat :: Resolve(dirty, y) == LayerSource(layer.build, layer.dirty, h.metadata.blockSize, y)
    requires forall y: nat :: Resolve(empty, y) == LayerSource(NIL_BUILD, layer.empty, h.metadata.blockSize, y)
    requires diff == Merged(dirty, empty) && merged == Merged(h.mapping, diff)
    ensures Tiles(merged, 0, h.metadata.size) && Clean(merged, h.metadata.blockSize, h.metadata.size) && Linear(merged)
    ensures forall x: nat :: Read(merged, x) == Canon(Overlay(layer, h.metadata.blockSize, x, Read(h.mapping, x)))
  {
    var blockSize, size := h.metadata.blockSize, h.metadata.size;
    forall y: nat
      ensures Resolve(merged, y) == Else(Else(Resolve(empty, y), Resolve(dirty, y)), Resolve(h.mapping, y))
    {
      MergeIsOverride(dirty, empty, y);
      MergeIsOverride(h.mapping, diff, y);
    }
    MergedTiles(h, dirty, empty, diff, merged);
    forall x: nat
      ensures Read(merged, x) == Canon(Overlay(layer, blockSize, x, Read(h.mapping, x)))
    {
      OverlayMeaning(h, layer, dirty, empty, merged, x);
    }
    forall x: nat ensures StepLinear(Read(merged, x), Read(merged, x + 1)) {
      OverlayLinear(h, layer, x);
    }
  }

  /** Laying entries inside the image over a tiling gives a tiling. */
  lemma MergedTiles(h: Header, dirty: seq<BuildMap>, empty: seq<BuildMap>, diff: seq<BuildMap>, merged: seq<BuildMap>)
    requires Sound(h) && Sorted(h.mapping)
    requires Sorted(dirty) && Clean(dirty, h.metadata.blockSize, h.metadata.size)
    requires Sorted(empty) && Clean(empty, h.metadata.blockSize, h.metadata.size)
    requires diff == Merged(dirty, empty) && merged == Merged(h.mapping, diff)
    ensures Tiles(merged, 0, h.metadata.size) && Clean(merged, h.metadata.blockSize, h.metadata.size)
  {
    var blockSize, size := h.metadata.blockSize, h.metadata.size;
    MergeIsOverride(dirty, empty, 0);
    MergeIsOverride(h.mapping, diff, 0);
    if empty != [] { MergeAllClean(Merge([], dirty, empty), blockSize, size); }
    if diff != [] { MergeAllClean(Merge([], h.mapping, diff), blockSize, size); }
    forall x: nat | x < size ensures Resolve(merged, x) != Unmapped {
      MergeIsOverride(h.mapping, diff, x);
      TilesCover(h.mapping, 0, size, x);
    }
    CoverTiles(merged, 0, size);
  }

  lemma NormalizedShape(h: Header, layer: Layer, merged: seq<BuildMap>)
    requires Sound(h)
    requires Tiles(merged, 0, h.metadata.size) && Clean(merged, h.metadata.blockSize, h.metadata.size) && Linear(merged)
    ensures var ms := Normalized(merged);
            && ms != [] && Tiles(ms, 0, h.metadata.size) && Clean(ms, h.metadata.blockSize, h.metadata.size) && Linear(ms)
            && (forall i :: 0 <= i < |ms| ==> ms[i].length % h.metadata.blockSize == 0)
            && (forall x: nat :: Read(ms, x) == Read(merged, x))
  {
    var blockSize, size := h.metadata.blockSize, h.metadata.size;
    assert merged != [];
    assert [merged[0]] + merged[1..] == merged;
    TilesSorted(merged, 0, size);
    LinearJoinable(merged, size, merged[0], 1);
    NormalizeIffJoinable(merged);
    NormalizeKeepsTiles(merged[0], merged[1..], size);
    NormalizeKeepsClean(merged[0], merged[1..], blockSize, size);
    var ms := Normalized(merged);
    CleanLengths(ms, blockSize, size);
    forall x: nat ensures StepLinear(Read(ms, x), Read(ms, x + 1)) {
      assert Read(ms, x) == Read(merged, x) && Read(ms, x + 1) == Read(merged, x + 1);
    }
  }

  lemma CleanLengths(ms: seq<BuildMap>, blockSize: nat, size: nat)
    requires blockSize > 0 && Clean(ms, blockSize, size)
    ensures forall i :: 0 <= i < |ms| ==> ms[i].length % blockSize == 0
  {
    forall i | 0 <= i < |ms| ensures ms[i].length % blockSize == 0 {
      AlignedBlocks(ms[i].offset, ms[i].End(), blockSize);
      MulMod(ms[i].End() / blockSize - ms[i].offset / blockSize, blockSize);
    }
  }
}

/** Whole snapshot histories: stacking any number of layers, and reading every block of the image
    back from the layers' data files. */
module SnapshotImages {
  import opened BuildMappings
  import opened SnapshotHeader
  import opened Wrappers

  // ---------------------------------------------------------------- histories of layers

  /** The reference meaning of a history: the last layer that touched a byte decides. */
  function LastWriter(below: Source, layers: seq<Layer>, blockSize: nat, x: nat): Source
    requires blockSize > 0
  {
    if layers == [] then below
    else
      var top := layers[|layers| - 1];
      Canon(Overlay(top, blockSize, x, LastWriter(below, layers[..|layers| - 1], blockSize, x)))
  }

  ghost predicate History(h: Header, layers: seq<Layer>) {
    && Sound(h)
    && (forall i :: 0 <= i < |layers| ==> Fits(h, layers[i]) && Fresh(h, layers[i].build))
    && (forall i, j :: 0 <= i < j < |layers| ==> layers[i].build != layers[j].build)
  }

  /** Every byte of `h` reads from the last of the layers on top of `base` that wrote it. */
  ghost predicate ReadsLastWriter(h: Header, base: Header, layers: seq<Layer>) {
    && 0 < base.metadata.blockSize
    && forall x: nat ::
         Read(h.mapping, x) == LastWriter(Read(base.mapping, x), layers, base.metadata.blockSize, x)
  }

  lemma {:induction false} WriterBuild(below: Source, layers: seq<Layer>, blockSize: nat, x: nat, build: BuildId)
    requires blockSize > 0 && build != NIL_BUILD && (below.At? ==> below.build != build)
    requires forall i :: 0 <= i < |layers| ==> layers[i].build != build
    ensures var w := LastWriter(below, layers, blockSize, x); w.At? ==> w.build != build
  {
    if layers == [] {
    } else {
      WriterBuild(below, layers[..|layers| - 1], blockSize, x, build);
    }
  }

  /** Taking a snapshot after another always succeeds, and the header of every history reads each byte
      from the last layer that wrote it. */
  method StackLayers(base: Header, layers: seq<Layer>) returns (h: Header)
    requires History(base, layers)
    ensures Sound(h)
    ensures h.metadata == base.metadata.(generation := base.metadata.generation + |layers|, build := h.metadata.build)
    ensures h.metadata.build == if layers == [] then base.metadata.build else layers[|layers| - 1].build
    ensures ReadsLastWriter(h, base, layers)
  {
    h := base;
    assert layers[..0] == [];
    for i := 0 to |layers|
      invariant Sound(h) && h.metadata == base.metadata.(generation := base.metadata.generation + i, build := h.metadata.build)
      invariant h.metadata.build == if i == 0 then base.metadata.build else layers[i - 1].build
      invariant forall x: nat ::
                  Read(h.mapping, x) == LastWriter(Read(base.mapping, x), layers[..i], base.metadata.blockSize, x)
    {
      forall x: nat ensures Read(h.mapping, x).At? ==> Read(h.mapping, x).build != layers[i].build {
        WriterBuild(Read(base.mapping, x), layers[..i], base.metadata.blockSize, x, layers[i].build);
      }
      TilesSorted(h.mapping, 0, h.metadata.size);
      var r := ToDiffHeader(h, layers[i]);
      h := r.value;
      assert layers[..i + 1][..i] == layers[..i];
    }
    assert layers[..|layers|] == layers;
  }

  /** The header of a fresh template, whose single build holds the whole image, starts a history. */
  method TemplateHeader(build: BuildId, blockSize: nat, size: nat) returns (h: Header)
    requires 0 < blockSize && 0 < size && size % blockSize == 0
    ensures Sound(h) && h.metadata == Metadata(3, blockSize, size, 0, build, build)
    ensures forall x: nat :: x < size ==> Resolve(h.mapping, x) == At(build, x)
  {
    var r := NewHeader(Metadata(3, blockSize, size, 0, build, build), []);
    h := r.value;
    WholeImage(build, size);
  }

  lemma WholeImage(build: BuildId, size: nat)
    ensures var ms := [BuildMap(0, size, build, 0)];
            && (forall x: nat :: Resolve(ms, x) == if x < size then At(build, x) else Unmapped)
            && Linear(ms)
  {
    var ms := [BuildMap(0, size, build, 0)];
    forall x: nat ensures Resolve(ms, x) == if x < size then At(build, x) else Unmapped {
      ResolveCons(ms[0], [], x);
    }
  }

  // ---------------------------------------------------------------- block data

  type Block = seq<bv8>

  const ROOTFS_BLOCK_SIZE := 4096
  const HUGEPAGE_SIZE := 2097152

  /** The block sizes `IsEmptyBlock` knows. */
  predicate Supported(blockSize: nat) { blockSize == HUGEPAGE_SIZE || blockSize == ROOTFS_BLOCK_SIZE }

  function ZeroBlock(blockSize: nat): Block { seq(blockSize, _ => 0) }

  /** The data file of a layer: its dirty blocks in increasing block order. */
  function Stored(image: seq<Block>, bits: Bits, n: nat): seq<Block>
    requires n <= |image|
  {
    if n == 0 then []
    else Stored(image, bits, n - 1) + if Has(bits, n - 1) then [image[n - 1]] else []
  }

  lemma {:induction false} StoredAtRank(image: seq<Block>, bits: Bits, n: nat, i: nat)
    requires i < n <= |image| && Has(bits, i)
    ensures |Stored(image, bits, n)| == Rank(bits, n)
    ensures Rank(bits, i) < Rank(bits, n) && Stored(image, bits, n)[Rank(bits, i)] == image[i]
  {
    StoredLength(image, bits, n - 1);
    if i < n - 1 {
      StoredAtRank(image, bits, n - 1, i);
    }
  }

  lemma {:induction false} StoredLength(image: seq<Block>, bits: Bits, n: nat)
    requires n <= |image|
    ensures |Stored(image, bits, n)| == Rank(bits, n)
  {
    if n == 0 {
    } else {
      StoredLength(image, bits, n - 1);
    }
  }

  /** Collects one snapshot: each changed block is either recorded as empty or appended to the data file. */
  class DiffMetadataBuilder {
    var dirty: Bits
    var empty: Bits
    var out: seq<Block>
    const blockSize: nat

    constructor (blockSize: nat)
      ensures this.blockSize == blockSize && dirty == [] && empty == [] && out == []
    {
      this.blockSize := blockSize;
      dirty, empty, out := [], [], [];
    }

    /** The data file holds exactly the dirty blocks of `image` below block `n`, in order; the zero
        blocks below `n` that were processed are marked, and nothing at or above `n` is. */
    ghost predicate Collected(image: seq<Block>, n: nat)
      reads this
    {
      && n <= |image| && |dirty| <= n && |empty| <= n
      && out == Stored(image, dirty, n)
      && (forall j :: 0 <= j < n && Has(empty, j) ==> image[j] == ZeroBlock(blockSize))
      && (forall j: nat :: !(Has(dirty, j) && Has(empty, j)))
    }

    /** `writes` says whether the data file accepts the write. */
    method Process(block: Block, offset: nat, writes: bool, ghost image: seq<Block>, ghost n: nat) returns (ok: bool)
      requires blockSize > 0
      modifies this
      ensures ok <==> Supported(blockSize) && (block == ZeroBlock(blockSize) || writes)
      ensures var i := offset / blockSize;
              ok ==> if block == ZeroBlock(blockSize)
                     then empty == SetBit(old(empty), i) && dirty == old(dirty) && out == old(out)
                     else dirty == SetBit(old(dirty), i) && empty == old(empty) && out == old(out) + [block]
      ensures var i := offset / blockSize;
              ok && old(Collected(image, n)) && n <= i < |image| && block == image[i] ==> Collected(image, i + 1)
    {
      var i := offset / blockSize;
      if blockSize != HUGEPAGE_SIZE && blockSize != ROOTFS_BLOCK_SIZE {
        return false;
      }
      ghost var bits := dirty;
      if block == ZeroBlock(blockSize) {
        empty := SetBit(empty, i);
        if old(Collected(image, n)) && n <= i < |image| {
          StoredStable(image, bits, bits, n, n);
          StoredPad(image, bits, n, i + 1);
        }
        return true;
      }
      dirty := SetBit(dirty, i);
      if !writes {
        return false;
      }
      out := out + [block];
      if old(Collected(image, n)) && n <= i < |image| && block == image[i] {
        StoredStable(image, bits, dirty, n, n);
        StoredPad(image, dirty, n, i);
      }
      ok := true;
    }
  }

  lemma {:induction false} StoredStable(image: seq<Block>, a: Bits, b: Bits, n: nat, m: nat)
    requires n <= m <= |image| && forall j: nat :: j < m ==> Has(a, j) == Has(b, j)
    ensures Stored(image, a, n) == Stored(image, b, n)
  {
    if n == 0 {
    } else {
      StoredStable(image, a, b, n - 1, m);
    }
  }

  lemma {:induction false} StoredPad(image: seq<Block>, bits: Bits, n: nat, m: nat)
    requires n <= m <= |image| && forall j: nat :: n <= j < m ==> !Has(bits, j)
    ensures Stored(image, bits, m) == Stored(image, bits, n)
  {
    if n == m {
    } else {
      StoredPad(image, bits, n, m - 1);
    }
  }

  // ---------------------------------------------------------------- reading an image back

  type Files = map<BuildId, seq<Block>>

  function Fetch(files: Files, s: Source, blockSize: nat): Fallible<Block>
    requires blockSize > 0
  {
    match s
    case Unmapped => Err(())
    case At(b, pos) =>
      if b == NIL_BUILD then Ok(ZeroBlock(blockSize))
      else if b in files && pos / blockSize < |files[b]| then Ok(files[b][pos / blockSize])
      else Err(())
  }

  /** Reading a block the way the pagers do: header lookup, then the data file of the build found. */
  function ReadBlock(h: Header, files: Files, i: nat): Fallible<Block>
    requires h.metadata.blockSize > 0
  {
    var r := GetShiftedMapping(h, i * h.metadata.blockSize);
    if r.Err? || r.value.offset < 0 then Err(())
    else Fetch(files, At(r.value.build, r.value.offset), h.metadata.blockSize)
  }

  /** `layer` records how `next` differs from `prev`, and `data` holds its dirty blocks. */
  ghost predicate Records(prev: seq<Block>, next: seq<Block>, layer: Layer, data: seq<Block>, blockSize: nat) {
    && |prev| == |next|
    && (forall i :: 0 <= i < |next| && Has(layer.empty, i) ==> next[i] == ZeroBlock(blockSize))
    && (forall i :: 0 <= i < |next| && !Has(layer.empty, i) && !Has(layer.dirty, i) ==> next[i] == prev[i])
    && data == Stored(next, layer.dirty, |next|)
  }

  ghost predicate Captures(prev: seq<Block>, next: seq<Block>, layer: Layer, files: Files, blockSize: nat) {
    layer.build in files && Records(prev, next, layer, files[layer.build], blockSize)
  }

  ghost predicate Captured(images: seq<seq<Block>>, layers: seq<Layer>, files: Files, blockSize: nat) {
    && |images| == |layers| + 1
    && forall k :: 0 <= k < |layers| ==> Captures(images[k], images[k + 1], layers[k], files, blockSize)
  }

  lemma {:induction false} WriterHoldsImage(below: Source, layers: seq<Layer>, images: seq<seq<Block>>, files: Files,
                                            blockSize: nat, i: nat)
    requires blockSize > 0 && Captured(images, layers, files, blockSize)
    requires forall k :: 0 <= k < |layers| ==> layers[k].build != NIL_BUILD
    requires i < |images[0]| && Fetch(files, below, blockSize) == Ok(images[0][i])
    ensures |images[|layers|]| == |images[0]|
    ensures Fetch(files, LastWriter(below, layers, blockSize, i * blockSize), blockSize) == Ok(images[|layers|][i])
  {
    var n := |layers|;
    if n == 0 {
    } else {
      var front := images[..n];
      assert front[0] == images[0] && front[n - 1] == images[n - 1];
      WriterHoldsImage(below, layers[..n - 1], front, files, blockSize, i);
      assert Captures(images[n - 1], images[n], layers[n - 1], files, blockSize);
      LayerHoldsImage(LastWriter(below, layers[..n - 1], blockSize, i * blockSize), layers[n - 1],
                      images[n - 1], images[n], files, blockSize, i);
    }
  }

  /** One layer: reading through it gives the captured block. */
  lemma LayerHoldsImage(below: Source, top: Layer, prev: seq<Block>, next: seq<Block>, files: Files, blockSize: nat, i: nat)
    requires blockSize > 0 && top.build != NIL_BUILD && Captures(prev, next, top, files, blockSize)
    requires i < |prev| && Fetch(files, below, blockSize) == Ok(prev[i])
    ensures Fetch(files, Canon(Overlay(top, blockSize, i * blockSize, below)), blockSize) == Ok(next[i])
  {
    MulMod(i, blockSize);
    if !Has(top.empty, i) && Has(top.dirty, i) {
      StoredAtRank(next, top.dirty, |next|, i);
      MulMod(Rank(top.dirty, i), blockSize);
    }
  }

  /** The snapshot round trip: whatever the history, looking any block up in the final header and
      reading the data file it names returns that block of the last captured image. */
  lemma RestoreImage(base: Header, layers: seq<Layer>, h: Header, images: seq<seq<Block>>, files: Files, i: nat)
    requires History(base, layers) && Sound(h) && Captured(images, layers, files, base.metadata.blockSize)
    requires h.metadata.size == base.metadata.size && h.metadata.blockSize == base.metadata.blockSize
    requires ReadsLastWriter(h, base, layers)
    requires i < |images[0]| && |images[0]| * base.metadata.blockSize <= base.metadata.size
    requires forall j :: 0 <= j < |images[0]| ==> ReadBlock(base, files, j) == Ok(images[0][j])
    ensures |images[|layers|]| == |images[0]|
    ensures ReadBlock(h, files, i) == Ok(images[|layers|][i])
  {
    var d := base.metadata.blockSize;
    var x := i * d;
    MulMono(i + 1, |images[0]|, d);
    MulMono(i, i + 1, d);
    ReadIsFetch(base, files, i);
    ReadIsFetch(h, files, i);
    WriterHoldsImage(Read(base.mapping, x), layers, images, files, d, i);
  }

  lemma ReadIsFetch(h: Header, files: Files, i: nat)
    requires Sound(h) && i * h.metadata.blockSize < h.metadata.size
    ensures ReadBlock(h, files, i) == Fetch(files, Read(h.mapping, i * h.metadata.blockSize), h.metadata.blockSize)
  {
    var x := i * h.metadata.blockSize;
    MulMod(i, h.metadata.blockSize);
    LookupIsResolve(h, x);
    var r := GetShiftedMapping(h, x);
    assert Resolve(h.mapping, x) == At(r.value.build, r.value.offset + (x - x));
  }

  // ---------------------------------------------------------------- capturing and restoring a history

  /** The blocks a caller hands to the builder: in increasing order, and at least all that differ. */
  ghost predicate Covers(prev: seq<Block>, next: seq<Block>, changed: seq<nat>) {
    && |prev| == |next|
    && (forall i :: 0 <= i < |changed| ==> changed[i] < |next|)
    && (forall i, j :: 0 <= i < j < |changed| ==> changed[i] < changed[j])
    && (forall i :: 0 <= i < |next| && next[i] != prev[i] ==> i in changed)
  }

  /** Feeding the changed blocks to the builder gives a layer and a data file that capture the new image, unless
      a write fails or the block size is not one of the two supported ones. */
  method CaptureLayer(prev: seq<Block>, next: seq<Block>, changed: seq<nat>, build: BuildId, blockSize: nat, writes: nat -> bool)
      returns (ok: bool, layer: Layer, data: seq<Block>)
    requires blockSize > 0 && Covers(prev, next, changed)
    ensures ok ==> |layer.dirty| <= |next| && |layer.empty| <= |next| && layer.build == build
    ensures ok ==> Records(prev, next, layer, data, blockSize)
    ensures Supported(blockSize) && (forall i: nat :: writes(i)) ==> ok
  {
    var b := new DiffMetadataBuilder(blockSize);
    ghost var n := 0;
    for k := 0 to |changed|
      invariant fresh(b) && b.blockSize == blockSize
      invariant n == (if k == 0 then 0 else changed[k - 1] + 1) && b.Collected(next, n)
      invariant forall j :: 0 <= j < k ==> Has(b.dirty, changed[j]) || Has(b.empty, changed[j])
    {
      var i := changed[k];
      MulMod(i, blockSize);
      var done := b.Process(next[i], i * blockSize, writes(i), next, n);
      if !done {
        return false, Layer(build, [], []), [];
      }
      n := i + 1;
    }
    StoredPad(next, b.dirty, n, |next|);
    assert forall i :: i in changed ==> Has(b.dirty, i) || Has(b.empty, i);
    ok, layer, data := true, Layer(build, b.dirty, b.empty), b.out;
  }

  /** Reading a header is not affected by the data file of a build it does not mention. */
  lemma OtherFile(h: Header, files: Files, build: BuildId, data: seq<Block>, i: nat)
    requires Sound(h) && Fresh(h, build) && i * h.metadata.blockSize < h.metadata.size
    ensures ReadBlock(h, files[build := data], i) == ReadBlock(h, files, i)
  {
    ReadIsFetch(h, files, i);
    ReadIsFetch(h, files[build := data], i);
  }

  lemma CapturesStay(prev: seq<Block>, next: seq<Block>, layer: Layer, files: Files, blockSize: nat, build: BuildId, data: seq<Block>)
    requires Captures(prev, next, layer, files, blockSize) && layer.build != build
    ensures Captures(prev, next, layer, files[build := data], blockSize)
  {
  }

  /** A base header whose data files hold the first image, and unused builds for the snapshots to come. */
  ghost predicate CanCapture(base: Header, files: Files, images: seq<seq<Block>>, changes: seq<seq<nat>>, builds: seq<BuildId>) {
    && Sound(base) && |images| == |builds| + 1 && |changes| == |builds|
    && |images[0]| * base.metadata.blockSize <= base.metadata.size
    && (forall j :: 0 <= j < |images[0]| ==> ReadBlock(base, files, j) == Ok(images[0][j]))
    && (forall k :: 0 <= k < |builds| ==> Fresh(base, builds[k]) && Covers(images[k], images[k + 1], changes[k]))
    && (forall j, k :: 0 <= j < k < |builds| ==> builds[j] != builds[k])
  }

  lemma {:induction false} SameSizes(images: seq<seq<Block>>, changes: seq<seq<nat>>, k: nat)
    requires |images| == |changes| + 1 && k < |images|
    requires forall i :: 0 <= i < |changes| ==> Covers(images[i], images[i + 1], changes[i])
    ensures |images[k]| == |images[0]|
  {
    if k == 0 {
    } else {
      SameSizes(images, changes, k - 1);
      assert Covers(images[k - 1], images[k], changes[k - 1]);
    }
  }

  lemma BlockInside(i: nat, n: nat, d: nat, size: nat)
    requires i < n && n * d <= size && 0 < d
    ensures i * d < size
  {
    MulMono(i + 1, n, d);
    MulMono(i, i + 1, d);
  }

  lemma LayerFits(base: Header, layer: Layer, n: nat)
    requires Sound(base) && |layer.dirty| <= n && |layer.empty| <= n && n * base.metadata.blockSize <= base.metadata.size
    ensures Fits(base, layer)
  {
    MulMono(|layer.dirty|, n, base.metadata.blockSize);
    MulMono(|layer.empty|, n, base.metadata.blockSize);
  }

  /** Capture every image after the first, stack the layers, and read: each block of the final header is that block
      of the last image.  Only a failing write or an unsupported block size stops it. */
  method CaptureAndRestore(base: Header, files0: Files, images: seq<seq<Block>>, changes: seq<seq<nat>>, builds: seq<BuildId>,
                           writes: nat -> bool)
      returns (ok: bool, h: Header, files: Files)
    requires CanCapture(base, files0, images, changes, builds)
    ensures ok ==> Sound(h) && h.metadata.blockSize == base.metadata.blockSize
    ensures ok ==> |images[|builds|]| == |images[0]|
    ensures ok ==> forall i :: 0 <= i < |images[0]| ==> ReadBlock(h, files, i) == Ok(images[|builds|][i])
    ensures Supported(base.metadata.blockSize) && (forall i: nat :: writes(i)) ==> ok
  {
    h, files := base, files0;
    var layers: seq<Layer> := [];
    var blockSize := base.metadata.blockSize;
    for k := 0 to |builds|
      invariant |layers| == k
      invariant forall j :: 0 <= j < k ==> layers[j].build == builds[j] && Fits(base, layers[j])
      invariant forall j :: 0 <= j < k ==> Captures(images[j], images[j + 1], layers[j], files, blockSize)
      invariant forall j :: 0 <= j < |images[0]| ==> ReadBlock(base, files, j) == Ok(images[0][j])
    {
      var done, layer, data := CaptureLayer(images[k], images[k + 1], changes[k], builds[k], blockSize, writes);
      if !done {
        return false, base, files0;
      }
      SameSizes(images, changes, k + 1);
      LayerFits(base, layer, |images[0]|);
      forall j | 0 <= j < |images[0]| ensures ReadBlock(base, files[builds[k] := data], j) == Ok(images[0][j]) {
        BlockInside(j, |images[0]|, blockSize, base.metadata.size);
        OtherFile(base, files, builds[k], data, j);
      }
      forall j | 0 <= j < k ensures Captures(images[j], images[j + 1], layers[j], files[builds[k] := data], blockSize) {
        CapturesStay(images[j], images[j + 1], layers[j], files, blockSize, builds[k], data);
      }
      layers, files := layers + [layer], files[builds[k] := data];
    }
    h := StackLayers(base, layers);
    SameSizes(images, changes, |builds|);
    forall i | 0 <= i < |images[0]| ensures ReadBlock(h, files, i) == Ok(images[|builds|][i]) {
      RestoreImage(base, layers, h, images, files, i);
    }
    ok := true;
  }
}

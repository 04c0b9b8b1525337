/** Snapshot layer mappings: which build, and which byte of that build's data file, holds each byte
    of a layered image.  A mapping list is given a meaning (`Resolve`); merging, creating and
    normalizing lists are specified by what they do to that meaning. */
module BuildMappings {

  type BuildId = nat

  /** The nil UUID: blocks mapped to it read as zeroes, so their storage position means nothing. */
  const NIL_BUILD: BuildId := 0

  datatype BuildMap = BuildMap(offset: nat, length: nat, build: BuildId, storage: nat) {
    function End(): nat { offset + length }
    predicate Covers(x: nat) { offset <= x < End() }
    function SourceOf(x: nat): Source
      requires Covers(x)
    {
      At(build, storage + (x - offset))
    }
  }

  /** Where a byte of the image lives. */
  datatype Source = Unmapped | At(build: BuildId, pos: nat)

  /** The meaning of a mapping list: the first entry that covers a byte decides. */
  function Resolve(ms: seq<BuildMap>, x: nat): Source {
    if ms == [] then Unmapped
    else if ms[0].Covers(x) then ms[0].SourceOf(x)
    else Resolve(ms[1..], x)
  }

  /** Entries in increasing order without overlap. */
  ghost predicate Sorted(ms: seq<BuildMap>) {
    forall i, j :: 0 <= i < j < |ms| ==> ms[i].End() <= ms[j].offset
  }

  /** Every entry starts where its predecessor ended; the first starts at `from`. */
  ghost predicate Contiguous(ms: seq<BuildMap>, from: nat) {
    && (ms != [] ==> ms[0].offset == from)
    && forall i :: 0 < i < |ms| ==> ms[i].offset == ms[i - 1].End()
  }

  ghost predicate Before(ms: seq<BuildMap>, rest: seq<BuildMap>) {
    forall i, j :: 0 <= i < |ms| && 0 <= j < |rest| ==> ms[i].End() <= rest[j].offset
  }

  function Else(s: Source, t: Source): Source {
    if s.Unmapped? then t else s
  }

  // ---------------------------------------------------------------- meaning of concatenations

  lemma {:induction false} ResolveConcat(a: seq<BuildMap>, b: seq<BuildMap>, x: nat)
    ensures Resolve(a + b, x) == Else(Resolve(a, x), Resolve(b, x))
  {
    if a == [] {
      assert a + b == b;
    } else {
      assert (a + b)[1..] == a[1..] + b;
      ResolveConcat(a[1..], b, x);
    }
  }

  lemma {:induction false} ResolveBelow(ms: seq<BuildMap>, x: nat)
    requires forall i :: 0 <= i < |ms| ==> x < ms[i].offset
    ensures Resolve(ms, x) == Unmapped
  {
    if ms == [] {
    } else {
      ResolveBelow(ms[1..], x);
    }
  }

  lemma {:induction false} ResolveAt(ms: seq<BuildMap>, k: nat, x: nat)
    requires Sorted(ms) && k < |ms| && ms[k].Covers(x)
    ensures Resolve(ms, x) == ms[k].SourceOf(x)
  {
    if k == 0 {
    } else {
      assert ms[0].End() <= ms[k].offset;
      ResolveAt(ms[1..], k - 1, x);
    }
  }

  lemma {:induction false} ResolveFinds(ms: seq<BuildMap>, x: nat) returns (k: nat)
    requires Resolve(ms, x) != Unmapped
    ensures k < |ms| && ms[k].Covers(x) && Resolve(ms, x) == ms[k].SourceOf(x)
  {
    if ms[0].Covers(x) {
      k := 0;
    } else {
      k := ResolveFinds(ms[1..], x);
      k := k + 1;
    }
  }

  // ---------------------------------------------------------------- merging

  /** The loop state of a merge: what is emitted and what remains of both lists. */
  datatype Merge = Merge(out: seq<BuildMap>, base: seq<BuildMap>, diff: seq<BuildMap>) {
    ghost predicate Ok() {
      Sorted(out) && Sorted(base) && Sorted(diff) && Before(out, base) && Before(out, diff)
    }
    /** The diff list shadows the base list; emitted entries shadow both. */
    function Meaning(x: nat): Source {
      Else(Resolve(out, x), Else(Resolve(diff, x), Resolve(base, x)))
    }
  }

  function Piece(b: BuildMap, from: nat, to: nat): BuildMap
    requires b.offset <= from <= to
  {
    BuildMap(from, to - from, b.build, b.storage + (from - b.offset))
  }

  /** One iteration of the merge loop. */
  function MergeStep(m: Merge): (r: Merge)
    requires m.base != [] && m.diff != []
    ensures 2 * |r.diff| + |r.base| < 2 * |m.diff| + |m.base|
  {
    var base, diff := m.base[0], m.diff[0];
    if base.length == 0 then m.(base := m.base[1..])
    else if diff.length == 0 then m.(diff := m.diff[1..])
    else if base.End() <= diff.offset then m.(out := m.out + [base], base := m.base[1..])
    else if diff.End() <= base.offset then m.(out := m.out + [diff], diff := m.diff[1..])
    else if diff.offset <= base.offset && base.End() <= diff.End() then m.(base := m.base[1..])
    else if base.offset <= diff.offset && diff.End() <= base.End() then
      var left := if base.offset < diff.offset then [Piece(base, base.offset, diff.offset)] else [];
      var right := if diff.End() < base.End() then [Piece(base, diff.End(), base.End())] else [];
      Merge(m.out + left + [diff], right + m.base[1..], m.diff[1..])
    else if diff.offset < base.offset then
      Merge(m.out + [diff], [Piece(base, diff.End(), base.End())] + m.base[1..], m.diff[1..])
    else
      m.(out := m.out + [Piece(base, base.offset, diff.offset)], base := m.base[1..])
  }

  lemma {:induction false} HeadOf(ms: seq<BuildMap>, x: nat)
    requires Sorted(ms) && ms != []
    ensures ms[0].Covers(x) ==> Resolve(ms, x) == ms[0].SourceOf(x)
    ensures !ms[0].Covers(x) ==> Resolve(ms, x) == Resolve(ms[1..], x)
    ensures x < ms[0].End() ==> Resolve(ms[1..], x) == Unmapped
    ensures x < ms[0].offset ==> Resolve(ms, x) == Unmapped
  {
    if x < ms[0].End() {
      ResolveBelow(ms[1..], x);
    }
  }

  lemma {:induction false} ResolveSnoc(ms: seq<BuildMap>, e: BuildMap, x: nat)
    ensures Resolve(ms + [e], x) == Else(Resolve(ms, x), if e.Covers(x) then e.SourceOf(x) else Unmapped)
  {
    ResolveConcat(ms, [e], x);
    assert Resolve([e][1..], x) == Unmapped;
  }

  lemma {:induction false} ResolveCons(e: BuildMap, ms: seq<BuildMap>, x: nat)
    ensures Resolve([e] + ms, x) == if e.Covers(x) then e.SourceOf(x) else Resolve(ms, x)
  {
    assert ([e] + ms)[1..] == ms;
  }

  /** Emitting an entry that ends no later than everything that remains keeps the merge in order. */
  lemma {:induction false} Emit(m: Merge, e: BuildMap)
    requires m.Ok() && Before([e], m.base) && Before([e], m.diff) && Before(m.out, [e])
    ensures m.(out := m.out + [e]).Ok()
  {
    var out := m.out + [e];
    forall i, j | 0 <= i < |out| && 0 <= j < |m.base| ensures out[i].End() <= m.base[j].offset {
      if i == |m.out| { assert out[i] == [e][0]; }
    }
    forall i, j | 0 <= i < |out| && 0 <= j < |m.diff| ensures out[i].End() <= m.diff[j].offset {
      if i == |m.out| { assert out[i] == [e][0]; }
    }
    forall i, j | 0 <= i < j < |out| ensures out[i].End() <= out[j].offset {
      if j == |m.out| { assert out[j] == [e][0]; }
    }
  }

  /** Dropping the head of either list, or its first bytes, keeps the merge in order. */
  lemma {:induction false} Shrink(m: Merge, from: nat)
    requires m.Ok() && m.base != [] && m.base[0].offset <= from <= m.base[0].End()
    ensures m.(base := m.base[1..]).Ok()
    ensures m.(base := [Piece(m.base[0], from, m.base[0].End())] + m.base[1..]).Ok()
    ensures m.diff != [] ==> m.(diff := m.diff[1..]).Ok()
  {
    var cut := [Piece(m.base[0], from, m.base[0].End())] + m.base[1..];
    assert forall i :: 0 <= i < |cut| ==> cut[i].End() == m.base[i].End() && m.base[i].offset <= cut[i].offset;
  }

  lemma {:induction false} HeadBeforeTail(ms: seq<BuildMap>)
    requires Sorted(ms) && ms != []
    ensures Before([ms[0]], ms[1..])
  {
  }

  lemma {:induction false} MergeStepOrder(m: Merge)
    requires m.Ok() && m.base != [] && m.diff != []
    ensures MergeStep(m).Ok()
  {
    var base, diff := m.base[0], m.diff[0];
    HeadBeforeTail(m.base);
    HeadBeforeTail(m.diff);
    var noBase, noDiff := m.(base := m.base[1..]), m.(diff := m.diff[1..]);
    Shrink(m, base.offset);
    assert Before(m.out, [base]) && Before(m.out, [diff]);
    if base.length == 0 || diff.length == 0 {
    } else if base.End() <= diff.offset {
      Emit(noBase, base);
    } else if diff.End() <= base.offset {
      Emit(noDiff, diff);
    } else if diff.offset <= base.offset && base.End() <= diff.End() {
    } else if base.offset <= diff.offset && diff.End() <= base.End() {
      MergeInsideOrder(m);
    } else if diff.offset < base.offset {
      Shrink(m, diff.End());
      Shrink(m.(base := [Piece(base, diff.End(), base.End())] + m.base[1..]), diff.End());
      Emit(MergeStep(m).(out := m.out), diff);
    } else {
      Emit(noBase, Piece(base, base.offset, diff.offset));
    }
  }

  /** Emitting the head of the diff list. */
  lemma {:induction false} EmitDiff(m: Merge)
    requires m.Ok() && m.diff != [] && Before([m.diff[0]], m.base)
    ensures m.(out := m.out + [m.diff[0]], diff := m.diff[1..]).Ok()
  {
    HeadBeforeTail(m.diff);
    assert Before(m.out, [m.diff[0]]);
    Emit(m.(diff := m.diff[1..]), m.diff[0]);
  }

  /** What remains of the base list to the right of a diff entry inside its head. */
  lemma {:induction false} InsideRest(m: Merge) returns (rest: Merge)
    requires m.Ok() && m.base != [] && m.diff != []
    requires m.base[0].offset <= m.diff[0].offset && m.diff[0].End() <= m.base[0].End()
    ensures rest.Ok() && rest.out == m.out && rest.diff == m.diff && Before([m.diff[0]], rest.base)
    ensures rest.base == if m.diff[0].End() < m.base[0].End()
                         then [Piece(m.base[0], m.diff[0].End(), m.base[0].End())] + m.base[1..] else m.base[1..]
  {
    var base, diff := m.base[0], m.diff[0];
    HeadBeforeTail(m.base);
    Shrink(m, diff.End());
    rest := m.(base := if diff.End() < base.End() then [Piece(base, diff.End(), base.End())] + m.base[1..] else m.base[1..]);
  }

  /** The case of a diff entry inside a base entry, which emits up to two entries and splits the base. */
  lemma {:induction false} MergeInsideOrder(m: Merge)
    requires m.Ok() && m.base != [] && m.diff != []
    requires m.base[0].offset <= m.diff[0].offset && m.diff[0].End() <= m.base[0].End()
    requires 0 < m.base[0].length && 0 < m.diff[0].length
    requires !(m.diff[0].offset <= m.base[0].offset && m.base[0].End() <= m.diff[0].End())
    ensures MergeStep(m).Ok()
  {
    var base, diff := m.base[0], m.diff[0];
    var rest := InsideRest(m);
    if base.offset < diff.offset {
      var left := Piece(base, base.offset, diff.offset);
      EmitLeft(rest, base, left);
      EmitDiff(rest.(out := m.out + [left]));
    } else {
      EmitDiff(rest);
    }
  }

  lemma {:induction false} EmitLeft(rest: Merge, base: BuildMap, left: BuildMap)
    requires rest.Ok() && rest.diff != [] && Before([rest.diff[0]], rest.base) && Before(rest.out, [base])
    requires left.offset == base.offset && left.End() == rest.diff[0].offset
    ensures rest.(out := rest.out + [left]).Ok()
  {
    forall j | 0 <= j < |rest.base| ensures left.End() <= rest.base[j].offset {
      assert [rest.diff[0]][0].End() <= rest.base[j].offset;
    }
    forall i | 0 <= i < |rest.out| ensures rest.out[i].End() <= left.offset {
      assert rest.out[i].End() <= [base][0].offset;
    }
    Emit(rest, left);
  }

  lemma {:induction false} MergeStepMeaning(m: Merge, x: nat)
    requires m.Ok() && m.base != [] && m.diff != []
    ensures MergeStep(m).Meaning(x) == m.Meaning(x)
  {
    var base, diff := m.base[0], m.diff[0];
    HeadOf(m.base, x);
    HeadOf(m.diff, x);
    if base.length == 0 || diff.length == 0 {
    } else if base.End() <= diff.offset {
      ResolveSnoc(m.out, base, x);
    } else if diff.End() <= base.offset {
      ResolveSnoc(m.out, diff, x);
    } else if diff.offset <= base.offset && base.End() <= diff.End() {
    } else if base.offset <= diff.offset && diff.End() <= base.End() {
      MergeInsideMeaning(m, x);
    } else if diff.offset < base.offset {
      ResolveSnoc(m.out, diff, x);
      ResolveCons(Piece(base, diff.End(), base.End()), m.base[1..], x);
    } else {
      ResolveSnoc(m.out, Piece(base, base.offset, diff.offset), x);
    }
  }

  lemma {:induction false} MergeInsideMeaning(m: Merge, x: nat)
    requires m.Ok() && m.base != [] && m.diff != []
    requires m.base[0].offset <= m.diff[0].offset && m.diff[0].End() <= m.base[0].End()
    requires 0 < m.base[0].length && 0 < m.diff[0].length
    requires !(m.diff[0].offset <= m.base[0].offset && m.base[0].End() <= m.diff[0].End())
    ensures MergeStep(m).Meaning(x) == m.Meaning(x)
  {
    var base, diff, r := m.base[0], m.diff[0], MergeStep(m);
    HeadOf(m.base, x);
    HeadOf(m.diff, x);
    var left := if base.offset < diff.offset then [Piece(base, base.offset, diff.offset)] else [];
    ResolveSnoc(m.out + left, diff, x);
    if base.offset < diff.offset {
      ResolveSnoc(m.out, left[0], x);
    } else {
      assert m.out + left == m.out;
    }
    if diff.End() < base.End() {
      ResolveCons(Piece(base, diff.End(), base.End()), m.base[1..], x);
    } else {
      assert r.base == m.base[1..];
    }
  }

  /** The merge loop run to its end. */
  function MergeAll(m: Merge): (r: seq<BuildMap>)
    decreases 2 * |m.diff| + |m.base|
  {
    if m.base == [] || m.diff == [] then m.out + m.base + m.diff else MergeAll(MergeStep(m))
  }

  function Merged(base: seq<BuildMap>, diff: seq<BuildMap>): seq<BuildMap> {
    if diff == [] then base else MergeAll(Merge([], base, diff))
  }

  lemma {:induction false} MergeAllMeaning(m: Merge, x: nat)
    requires m.Ok()
    ensures Resolve(MergeAll(m), x) == m.Meaning(x)
    ensures Sorted(MergeAll(m))
    decreases 2 * |m.diff| + |m.base|
  {
    if m.base == [] || m.diff == [] {
      ResolveConcat(m.out + m.base, m.diff, x);
      ResolveConcat(m.out, m.base, x);
    } else {
      MergeStepOrder(m);
      MergeStepMeaning(m, x);
      MergeAllMeaning(MergeStep(m), x);
    }
  }

  /** Merging is pointwise override: the diff wins wherever it maps a byte, the base everywhere else. */
  lemma {:induction false} MergeIsOverride(base: seq<BuildMap>, diff: seq<BuildMap>, x: nat)
    requires Sorted(base) && Sorted(diff)
    ensures Resolve(Merged(base, diff), x) == Else(Resolve(diff, x), Resolve(base, x))
    ensures Sorted(Merged(base, diff))
  {
    if diff != [] {
      MergeAllMeaning(Merge([], base, diff), x);
    }
  }

  /** `MergeMappings`: the source's loop over two cursors, rewriting the head of a private copy of the
      base list when a diff entry splits it. */
  method MergeMappings(base: seq<BuildMap>, diff: seq<BuildMap>) returns (mappings: seq<BuildMap>)
    requires Sorted(base) && Sorted(diff)
    ensures mappings == Merged(base, diff)
    ensures Sorted(mappings)
    ensures forall x :: Resolve(mappings, x) == Else(Resolve(diff, x), Resolve(base, x))
  {
    if |diff| == 0 {
      return base;
    }
    var bases := base;
    mappings := [];
    var b, d := 0, 0;
    while b < |bases| && d < |diff|
      invariant b <= |bases| && d <= |diff|
      invariant MergeAll(Merge(mappings, bases[b..], diff[d..])) == Merged(base, diff)
      decreases 2 * (|diff| - d) + |bases| - b
    {
      ghost var m := Merge(mappings, bases[b..], diff[d..]);
      assert bases[b + 1..] == m.base[1..] && diff[d + 1..] == m.diff[1..];
      var e, f := bases[b], diff[d];
      if e.length == 0 {
        b := b + 1;
      } else if f.length == 0 {
        d := d + 1;
      } else if e.End() <= f.offset {
        mappings, b := mappings + [e], b + 1;
      } else if f.End() <= e.offset {
        mappings, d := mappings + [f], d + 1;
      } else if f.offset <= e.offset && e.End() <= f.End() {
        b := b + 1;
      } else if e.offset <= f.offset && f.End() <= e.End() {
        if e.offset < f.offset {
          mappings := mappings + [Piece(e, e.offset, f.offset)];
        } else {
          assert m.out + [] == m.out;
        }
        mappings, d := mappings + [f], d + 1;
        if f.End() < e.End() {
          bases := bases[b := Piece(e, f.End(), e.End())];
          assert bases[b..] == [Piece(e, f.End(), e.End())] + m.base[1..];
        } else {
          b := b + 1;
          assert bases[b..] == [] + m.base[1..];
        }
      } else if f.offset < e.offset {
        mappings, d := mappings + [f], d + 1;
        bases := bases[b := Piece(e, f.End(), e.End())];
        assert bases[b..] == [Piece(e, f.End(), e.End())] + m.base[1..];
      } else {
        mappings, b := mappings + [Piece(e, e.offset, f.offset)], b + 1;
      }
      assert Merge(mappings, bases[b..], diff[d..]) == MergeStep(m);
    }
    mappings := mappings + bases[b..] + diff[d..];
    MergeIsOverride(base, diff, 0);
    forall x ensures Resolve(mappings, x) == Else(Resolve(diff, x), Resolve(base, x)) {
      MergeIsOverride(base, diff, x);
    }
  }

  // ---------------------------------------------------------------- shape of merged lists

  /** Non-empty entries whose ends are block-aligned and which stay inside the image. */
  ghost predicate Clean(ms: seq<BuildMap>, blockSize: nat, size: nat)
    requires blockSize > 0
  {
    forall i :: 0 <= i < |ms| ==>
      && 0 < ms[i].length && ms[i].End() <= size
      && ms[i].offset % blockSize == 0 && ms[i].End() % blockSize == 0
  }

  lemma {:induction false} MergeAllClean(m: Merge, blockSize: nat, size: nat)
    requires blockSize > 0
    requires Clean(m.out, blockSize, size) && Clean(m.base, blockSize, size) && Clean(m.diff, blockSize, size)
    ensures Clean(MergeAll(m), blockSize, size)
    decreases 2 * |m.diff| + |m.base|
  {
    if m.base != [] && m.diff != [] {
      MergeAllClean(MergeStep(m), blockSize, size);
    }
  }

  /** A list that covers the image `[from, size)` without gaps, as `ValidateMappings` demands. */
  ghost predicate Tiles(ms: seq<BuildMap>, from: nat, size: nat) {
    && Contiguous(ms, from)
    && (if ms == [] then from == size else ms[|ms| - 1].End() == size)
  }

  lemma {:induction false} ContiguousIsSorted(ms: seq<BuildMap>, from: nat, i: nat, j: nat)
    requires Contiguous(ms, from) && i < j < |ms|
    ensures ms[i].End() <= ms[j].offset
  {
    if i + 1 < j {
      ContiguousIsSorted(ms, from, i, j - 1);
    }
  }

  lemma {:induction false} TilesSorted(ms: seq<BuildMap>, from: nat, size: nat)
    requires Tiles(ms, from, size)
    ensures Sorted(ms)
    ensures forall i :: 0 <= i < |ms| ==> from <= ms[i].offset && ms[i].End() <= size
  {
    forall i, j | 0 <= i < j < |ms| ensures ms[i].End() <= ms[j].offset {
      ContiguousIsSorted(ms, from, i, j);
    }
    forall i | 0 <= i < |ms| ensures from <= ms[i].offset && ms[i].End() <= size {
      if 0 < i { ContiguousIsSorted(ms, from, 0, i); }
      if i < |ms| - 1 { ContiguousIsSorted(ms, from, i, |ms| - 1); }
    }
  }

  /** A tiling maps every byte of the image. */
  lemma {:induction false} TilesCover(ms: seq<BuildMap>, from: nat, size: nat, x: nat)
    requires Tiles(ms, from, size) && from <= x < size
    ensures Resolve(ms, x) != Unmapped
  {
    if !ms[0].Covers(x) {
      TilesCover(ms[1..], ms[0].End(), size, x);
    }
  }

  /** Conversely, a sorted list of non-empty entries that maps every byte of the image is a tiling. */
  lemma {:induction false} CoverTiles(ms: seq<BuildMap>, from: nat, size: nat)
    requires Sorted(ms) && from <= size
    requires forall i :: 0 <= i < |ms| ==> 0 < ms[i].length && from <= ms[i].offset && ms[i].End() <= size
    requires forall x :: from <= x < size ==> Resolve(ms, x) != Unmapped
    ensures Tiles(ms, from, size)
  {
    if ms == [] {
      assert from < size ==> Resolve(ms, from) != Unmapped;
    } else {
      if from < ms[0].offset {
        HeadOf(ms, from);
      }
      forall x | ms[0].End() <= x < size ensures Resolve(ms[1..], x) != Unmapped {
        HeadOf(ms, x);
      }
      CoverTiles(ms[1..], ms[0].End(), size);
    }
  }

  // ---------------------------------------------------------------- validation

  /** The source's error, and the index out of range it runs into while reporting one about an empty list. */
  datatype Validation = Accepted | Rejected | Panics

  /** `ValidateMappings`: accepts exactly the block-aligned tilings of the image. */
  method ValidateMappings(ms: seq<BuildMap>, size: nat, blockSize: nat) returns (v: Validation)
    requires blockSize > 0
    ensures v.Accepted? <==> Tiles(ms, 0, size) && forall i :: 0 <= i < |ms| ==> ms[i].length % blockSize == 0
    ensures v.Panics? <==> ms == [] && size != 0
  {
    var current := 0;
    for k := 0 to |ms|
      invariant current == if k == 0 then 0 else ms[k - 1].End()
      invariant Contiguous(ms[..k], 0)
      invariant forall i :: 0 <= i < k ==> ms[i].length % blockSize == 0
      invariant current <= size
    {
      assert ms[..k + 1][..k] == ms[..k];
      if current != ms[k].offset {
        return Rejected;
      }
      if ms[k].length % blockSize != 0 {
        return Rejected;
      }
      if current + ms[k].length > size {
        if Tiles(ms, 0, size) { TilesSorted(ms, 0, size); }
        return Rejected;
      }
      current := current + ms[k].length;
    }
    assert ms[..|ms|] == ms;
    if current != size {
      return if |ms| == 0 then Panics else Rejected;
    }
    return Accepted;
  }

  // ---------------------------------------------------------------- normalizing

  /** The meaning up to the storage position of nil-build bytes, which are never read from storage. */
  function Canon(s: Source): Source {
    if s.At? && s.build == NIL_BUILD then At(NIL_BUILD, 0) else s
  }

  function Read(ms: seq<BuildMap>, x: nat): Source { Canon(Resolve(ms, x)) }

  function NormalizeFrom(current: BuildMap, ms: seq<BuildMap>): (r: seq<BuildMap>)
    ensures r != [] && r[0].offset == current.offset && r[0].build == current.build
    ensures r[0].storage == current.storage && current.length <= r[0].length
    decreases |ms|
  {
    if ms == [] then [current]
    else if ms[0].build != current.build then [current] + NormalizeFrom(ms[0], ms[1..])
    else NormalizeFrom(current.(length := current.length + ms[0].length), ms[1..])
  }

  function Normalized(ms: seq<BuildMap>): seq<BuildMap> {
    if ms == [] then [] else NormalizeFrom(ms[0], ms[1..])
  }

  method NormalizeMappings(ms: seq<BuildMap>) returns (result: seq<BuildMap>)
    ensures result == Normalized(ms)
  {
    if |ms| == 0 {
      return [];
    }
    result := [];
    var current := ms[0];
    for i := 1 to |ms|
      invariant result + NormalizeFrom(current, ms[i..]) == Normalized(ms)
    {
      ghost var rest := ms[i..];
      if ms[i].build != current.build {
        assert result + ([current] + NormalizeFrom(rest[0], rest[1..]))
            == (result + [current]) + NormalizeFrom(rest[0], rest[1..]);
        result := result + [current];
        current := ms[i];
      } else {
        current := current.(length := current.length + ms[i].length);
      }
      assert rest[1..] == ms[i + 1..];
    }
    result := result + [current];
  }

  /** An entry that is joined follows its predecessor in the image and, for a real build, in the data file: the
      condition a caller of `NormalizeMappings` can check before joining.  Empty entries never matter. */
  predicate Joinable(current: BuildMap, ms: seq<BuildMap>)
    decreases |ms|
  {
    if ms == [] then true
    else if ms[0].build != current.build then Joinable(ms[0], ms[1..])
    else
      && (ms[0].length == 0 || Follows(current, ms[0]))
      && Joinable(current.(length := current.length + ms[0].length), ms[1..])
  }

  predicate Follows(current: BuildMap, m: BuildMap) {
    m.offset == current.End() && (current.build == NIL_BUILD || m.storage == current.storage + current.length)
  }

  ghost predicate Positive(ms: seq<BuildMap>) {
    forall i :: 0 <= i < |ms| ==> 0 < ms[i].length
  }

  lemma {:induction false} SortedCons(e: BuildMap, ms: seq<BuildMap>)
    ensures Sorted([e] + ms) <==> Sorted(ms) && forall i :: 0 <= i < |ms| ==> e.End() <= ms[i].offset
  {
    var all := [e] + ms;
    assert forall i :: 0 <= i < |ms| ==> all[i + 1] == ms[i];
    if Sorted(all) {
      forall i, j | 0 <= i < j < |ms| ensures ms[i].End() <= ms[j].offset {
        assert all[i + 1].End() <= all[j + 1].offset;
      }
      forall i | 0 <= i < |ms| ensures e.End() <= ms[i].offset {
        assert all[0].End() <= all[i + 1].offset;
      }
    }
  }

  lemma {:induction false} SortedTail(current: BuildMap, ms: seq<BuildMap>)
    requires Sorted([current] + ms) && ms != []
    ensures current.End() <= ms[0].offset && Sorted([ms[0]] + ms[1..]) && Sorted([current] + ms[1..])
    ensures [ms[0]] + ms[1..] == ms && forall i :: 0 <= i < |ms| ==> ms[0].offset <= ms[i].offset
    ensures ms[0].offset == current.End() ==> Sorted([current.(length := current.length + ms[0].length)] + ms[1..])
  {
    SortedCons(current, ms);
    assert [ms[0]] + ms[1..] == ms;
    SortedCons(ms[0], ms[1..]);
    SortedCons(current, ms[1..]);
    SortedCons(current.(length := current.length + ms[0].length), ms[1..]);
  }

  lemma {:induction false} ContiguousTail(current: BuildMap, ms: seq<BuildMap>)
    requires Contiguous([current] + ms, current.offset) && ms != []
    ensures ms[0].offset == current.End()
    ensures [ms[0]] + ms[1..] == ms && Contiguous(ms, ms[0].offset)
    ensures var longer := current.(length := current.length + ms[0].length);
            Contiguous([longer] + ms[1..], current.offset)
  {
    var all := [current] + ms;
    assert all[1].offset == all[0].End();
    forall i | 0 < i < |ms| ensures ms[i].offset == ms[i - 1].End() {
      assert all[i + 1].offset == all[i].End();
    }
  }

  lemma {:induction false} NormalizeKeepsMeaning(current: BuildMap, ms: seq<BuildMap>, x: nat)
    requires Sorted([current] + ms) && Joinable(current, ms)
    ensures Read(NormalizeFrom(current, ms), x) == Read([current] + ms, x)
    decreases |ms|
  {
    ResolveCons(current, ms, x);
    if ms == [] {
      assert [current] + ms == [current];
    } else {
      SortedTail(current, ms);
      if ms[0].build != current.build {
        NormalizeKeepsMeaning(ms[0], ms[1..], x);
        ResolveCons(current, NormalizeFrom(ms[0], ms[1..]), x);
      } else {
        var longer := current.(length := current.length + ms[0].length);
        NormalizeKeepsMeaning(longer, ms[1..], x);
        JoinedMeaning(current, ms, x);
      }
    }
  }

  /** Joining an entry that follows its predecessor keeps what every byte reads. */
  lemma {:induction false} JoinedMeaning(current: BuildMap, ms: seq<BuildMap>, x: nat)
    requires ms != [] && ms[0].build == current.build && (ms[0].length == 0 || Follows(current, ms[0]))
    ensures Read([current.(length := current.length + ms[0].length)] + ms[1..], x) == Read([current] + ms, x)
  {
    ResolveCons(current.(length := current.length + ms[0].length), ms[1..], x);
    ResolveCons(current, ms, x);
  }

  lemma {:induction false} UnmappedGap(current: BuildMap, ms: seq<BuildMap>)
    requires ms != [] && current.End() < ms[0].offset && forall i :: 0 <= i < |ms| ==> ms[0].offset <= ms[i].offset
    ensures Resolve([current] + ms, current.End()) == Unmapped
  {
    ResolveCons(current, ms, current.End());
    ResolveBelow(ms, current.End());
  }

  /** Joining an entry that does not follow its predecessor changes the meaning of some byte. */
  lemma {:induction false} NormalizeChangesMeaning(current: BuildMap, ms: seq<BuildMap>) returns (x: nat)
    requires Sorted([current] + ms) && !Joinable(current, ms)
    ensures current.End() <= x
    ensures Read(NormalizeFrom(current, ms), x) != Read([current] + ms, x)
    decreases |ms|
  {
    SortedTail(current, ms);
    var longer := current.(length := current.length + ms[0].length);
    if ms[0].build != current.build {
      x := NormalizeChangesMeaning(ms[0], ms[1..]);
      ResolveCons(current, NormalizeFrom(ms[0], ms[1..]), x);
      ResolveCons(current, ms, x);
    } else if ms[0].length == 0 || Follows(current, ms[0]) {
      x := NormalizeChangesMeaning(longer, ms[1..]);
      ResolveCons(longer, ms[1..], x);
      ResolveCons(current, ms, x);
    } else if ms[0].offset != current.End() {
      x := current.End();
      UnmappedGap(current, ms);
      assert NormalizeFrom(current, ms)[0].Covers(x);
    } else {
      x := ms[0].offset;
      ResolveCons(current, ms, x);
      assert NormalizeFrom(current, ms)[0].Covers(x);
    }
  }

  /** Normalizing keeps the meaning of a sorted list if and only if every entry it joins follows its
      predecessor. */
  lemma {:induction false} NormalizeIffJoinable(ms: seq<BuildMap>)
    requires Sorted(ms)
    ensures (ms == [] || Joinable(ms[0], ms[1..])) <==> forall x :: Read(Normalized(ms), x) == Read(ms, x)
  {
    if ms != [] {
      assert [ms[0]] + ms[1..] == ms;
      if Joinable(ms[0], ms[1..]) {
        forall x ensures Read(Normalized(ms), x) == Read(ms, x) {
          NormalizeKeepsMeaning(ms[0], ms[1..], x);
        }
      } else {
        var x := NormalizeChangesMeaning(ms[0], ms[1..]);
      }
    }
  }

  lemma {:induction false} NormalizeKeepsTiles(current: BuildMap, ms: seq<BuildMap>, size: nat)
    requires Tiles([current] + ms, current.offset, size)
    ensures Tiles(NormalizeFrom(current, ms), current.offset, size)
    decreases |ms|
  {
    if ms == [] {
      assert [current] + ms == [current];
    } else {
      ContiguousTail(current, ms);
      var all, longer := [current] + ms, current.(length := current.length + ms[0].length);
      assert all[|all| - 1] == ms[|ms| - 1];
      if ms[0].build != current.build {
        NormalizeKeepsTiles(ms[0], ms[1..], size);
        TilesCons(current, NormalizeFrom(ms[0], ms[1..]), size);
      } else {
        var shorter := [longer] + ms[1..];
        assert shorter[|shorter| - 1].End() == ms[|ms| - 1].End();
        NormalizeKeepsTiles(longer, ms[1..], size);
      }
    }
  }

  lemma {:induction false} TilesCons(e: BuildMap, ms: seq<BuildMap>, size: nat)
    requires ms != [] && Tiles(ms, e.End(), size)
    ensures Tiles([e] + ms, e.offset, size)
  {
    var r := [e] + ms;
    assert r[|r| - 1] == ms[|ms| - 1];
    forall i | 0 < i < |r| ensures r[i].offset == r[i - 1].End() {
      if i > 1 { assert ms[i - 1].offset == ms[i - 2].End(); }
    }
  }

  lemma {:induction false} NormalizeKeepsClean(current: BuildMap, ms: seq<BuildMap>, blockSize: nat, size: nat)
    requires blockSize > 0 && Contiguous([current] + ms, current.offset) && Clean([current] + ms, blockSize, size)
    ensures Clean(NormalizeFrom(current, ms), blockSize, size)
    decreases |ms|
  {
    if ms == [] {
      assert [current] + ms == [current];
    } else {
      ContiguousTail(current, ms);
      var all, longer := [current] + ms, current.(length := current.length + ms[0].length);
      assert all[0] == current && forall i :: 0 <= i < |ms| ==> ms[i] == all[i + 1];
      if ms[0].build != current.build {
        NormalizeKeepsClean(ms[0], ms[1..], blockSize, size);
      } else {
        NormalizeKeepsClean(longer, ms[1..], blockSize, size);
      }
    }
  }
}

/** Parallel multipart upload: how many parts a file gets (a floating-point ceiling), what each part
    holds, and what the completed object is, for any order in which the parts finish. */
module MultipartUpload {
  import opened Wrappers

  const CHUNK_SIZE := 52428800  // 50 * 1024 * 1024
  const TWO_TO_53 := 9007199254740992
  const TWO_TO_63 := 9223372036854775808

  type Byte = bv8

  // ---------------------------------------------------------------- float64 rounding

  function Pow2(e: int): real
    decreases if e < 0 then -e else e
  {
    if e == 0 then 1.0 else if e > 0 then 2.0 * Pow2(e - 1) else Pow2(e + 1) / 2.0
  }

  /** The finite float64 values: 53-bit significands at the format's exponents. */
  ghost predicate IsFloat(y: real) {
    exists m: int, e: int :: -TWO_TO_53 < m < TWO_TO_53 && -1074 <= e <= 971 && y == FloatValue(m, e)
  }

  function FloatValue(m: int, e: int): real { m as real * Pow2(e) }

  function Abs(x: real): real { if x < 0.0 then -x else x }

  /** `y` is a correctly rounded result for the exact value `q`; ties may go either way. */
  ghost predicate Rounds(y: real, q: real) {
    IsFloat(y) && forall z: real :: IsFloat(z) ==> Abs(y - q) <= Abs(z - q)
  }

  function Ceil(y: real): int { -((-y).Floor) }

  function CeilDiv(n: nat, d: nat): nat
    requires d > 0
  {
    (n + d - 1) / d
  }

  lemma SmallIntegersAreFloats(n: int)
    requires -TWO_TO_53 < n < TWO_TO_53
    ensures IsFloat(n as real)
  {
    assert Pow2(0) == 1.0;
    assert n as real == FloatValue(n, 0);
  }

  // ---------------------------------------------------------------- powers of two

  lemma Pow2Step(e: int)
    ensures Pow2(e + 1) == 2.0 * Pow2(e)
  {
    if e >= 0 {
    } else {
      assert Pow2(e) == Pow2(e + 1) / 2.0;
    }
  }

  lemma {:induction false} Pow2Add(a: int, b: nat)
    ensures Pow2(a + b) == Pow2(a) * Pow2(b)
  {
    if b == 0 {
    } else {
      Pow2Add(a, b - 1);
      Pow2Step(a + b - 1);
      Pow2Step(b - 1);
    }
  }

  lemma {:induction false} Pow2IsPositive(e: int)
    ensures 0.0 < Pow2(e)
    decreases if e < 0 then -e else e
  {
    if e == 0 {
    } else if e > 0 {
      Pow2IsPositive(e - 1);
    } else {
      Pow2IsPositive(e + 1);
    }
  }

  lemma {:induction false} Pow2Grows(a: int, b: int)
    requires a <= b
    ensures Pow2(a) <= Pow2(b)
    decreases b - a
  {
    if a == b {
    } else {
      Pow2Grows(a, b - 1);
      Pow2IsPositive(b - 1);
      Pow2Step(b - 1);
    }
  }

  lemma Pow2Values()
    ensures Pow2(21) == 2097152.0 && Pow2(25) == 33554432.0 && Pow2(53) == TWO_TO_53 as real && Pow2(63) == TWO_TO_63 as real
  {
    assert Pow2(5) == 32.0;
    Pow2Add(5, 5);
    Pow2Add(10, 10);
    Pow2Step(20);
    Pow2Add(20, 5);
    Pow2Add(25, 25);
    Pow2Step(50);
    Pow2Step(51);
    Pow2Step(52);
    Pow2Add(53, 10);
  }

  // ---------------------------------------------------------------- the part count

  lemma ScaleUp(a: real, b: real, w: real)
    requires a <= b && 0.0 <= w
    ensures a * w <= b * w
  {
    var d := b - a;
    assert 0.0 <= d * w;
    assert b * w == (a + d) * w == a * w + d * w;
  }

  lemma ScaleDown(a: real, b: real, w: real)
    requires a * w < b * w && 0.0 < w
    ensures a < b
  {
    if b <= a { ScaleUp(b, a, w); }
  }

  lemma TimesTwoTo53(e: int)
    ensures Pow2(e + 53) == 9007199254740992.0 * Pow2(e)
  {
    Pow2Add(e, 53);
    Pow2Values();
  }

  lemma TooSmall(m: int, f: int, e: int)
    requires m < TWO_TO_53 && f < e
    ensures FloatValue(m, f) < Pow2(52 + e)
  {
    Pow2IsPositive(f);
    Pow2Grows(f, e - 1);
    TimesTwoTo53(e - 1);
    assert e - 1 + 53 == 52 + e;
    ScaleUp(m as real, 9007199254740991.0, Pow2(f));
    assert FloatValue(m, f) <= 9007199254740991.0 * Pow2(f) <= 9007199254740991.0 * Pow2(e - 1);
  }

  /** The same number on a finer grid. */
  lemma {:induction false} Refine(m: int, f: int, e: int) returns (k: int)
    requires e <= f
    ensures FloatValue(m, f) == FloatValue(k, e)
    decreases f - e
  {
    if e == f {
      k := m;
    } else {
      Pow2Step(f - 1);
      Double(m, Pow2(f - 1));
      k := Refine(2 * m, f - 1, e);
    }
  }

  lemma Double(m: int, p: real)
    ensures m as real * (2.0 * p) == (2 * m) as real * p
  {
  }

  lemma GridBound(j: int, w: real, x: real)
    requires 0.0 < w && x == j as real * w && 0.0 < x < 9007199254740992.0 * w
    ensures 0 < j < TWO_TO_53
  {
    ScaleDown(j as real, 9007199254740992.0, w);
    ScaleDown(0.0, j as real, w);
  }

  /** A float between 2^(52+e) and 2^(53+e) is a multiple of 2^e. */
  lemma FloatsLieOnGrid(x: real, e: nat) returns (k: nat)
    requires IsFloat(x) && Pow2(52 + e) <= x < Pow2(53 + e)
    ensures x == k as real * Pow2(e) && k < TWO_TO_53
  {
    var m, f: int :| -TWO_TO_53 < m < TWO_TO_53 && -1074 <= f <= 971 && x == FloatValue(m, f);
    if f < e { TooSmall(m, f, e); }
    var j := Refine(m, f, e);
    TimesTwoTo53(e);
    Pow2IsPositive(e);
    Pow2IsPositive(52 + e);
    GridBound(j, Pow2(e), x);
    k := j;
  }

  lemma ScaledDistance(m: int, k: int, v: real, w: real, q: real) returns (z: real)
    requires -12 <= 25 * m - 16 * k <= 12 && 0.0 <= w == 33554432.0 * v && q * 52428800.0 == k as real * w
    ensures z == m as real * v && -12.0 * w <= (z - q) * 838860800.0 <= 12.0 * w
  {
    z := m as real * v;
    var d, p, r := (25 * m - 16 * k) as real, m as real * v, k as real * v;
    ScaleUp(-12.0, d, v);
    ScaleUp(d, 12.0, v);
    assert d * v == 25.0 * p - 16.0 * r;
    assert k as real * w == 33554432.0 * r;
  }

  /** The numerator over 2^25 that is closest to k / 52428800. */
  lemma CloseNumerator(k: nat) returns (m: nat)
    requires k < TWO_TO_53
    ensures m < TWO_TO_53 && -12 <= 25 * m - 16 * k <= 12
  {
    m := (16 * k + 12) / 25;
  }

  /** Some float lies within 12/16 of the distance that separates the quotient from the next grid point. */
  lemma CloseFloat(k: nat, e: nat, q: real) returns (z: real)
    requires k < TWO_TO_53 && e <= 12 && q * 52428800.0 == k as real * Pow2(e)
    ensures IsFloat(z)
    ensures -12.0 * Pow2(e) <= (z - q) * 838860800.0 <= 12.0 * Pow2(e)
  {
    var m := CloseNumerator(k);
    Times2To25(e - 25);
    assert e - 25 + 25 == e;
    Pow2IsPositive(e);
    z := ScaledDistance(m, k, Pow2(e - 25), Pow2(e), q);
    assert z == FloatValue(m, e - 25);
  }

  lemma Times2To25(e: int)
    ensures Pow2(e + 25) == 33554432.0 * Pow2(e)
  {
    Pow2Add(e, 25);
    Pow2Values();
  }

  /** Rounding never passes a float. */
  lemma RoundingIsMonotone(y: real, q: real, z: real)
    requires Rounds(y, q) && IsFloat(z)
    ensures z <= q ==> z <= y
    ensures q <= z ==> y <= z
  {
    assert Abs(y - q) <= Abs(z - q);
  }

  /** Whole numbers of chunks below 2^63 bytes are floats. */
  lemma ChunksAreFloats(c: nat)
    requires c * CHUNK_SIZE <= TWO_TO_63 + CHUNK_SIZE
    ensures IsFloat((c * CHUNK_SIZE) as real) && IsFloat(c as real)
  {
    Pow2Values();
    assert (c * CHUNK_SIZE) as real == FloatValue(25 * c, 21);
    SmallIntegersAreFloats(c);
  }

  lemma {:induction false} FindExponent(x: real, from: nat) returns (e: nat)
    requires Pow2(52 + from) <= x < Pow2(65) && from <= 12
    ensures from <= e <= 12 && Pow2(52 + e) <= x < Pow2(53 + e)
    decreases 12 - from
  {
    if x < Pow2(53 + from) {
      e := from;
    } else {
      if from == 12 { assert false; }
      e := FindExponent(x, from + 1);
    }
  }

  lemma LargePowersAreFloats()
    ensures IsFloat(TWO_TO_53 as real) && IsFloat(TWO_TO_63 as real)
  {
    assert Pow2(1) == 2.0;
    assert TWO_TO_53 as real == FloatValue(TWO_TO_53 / 2, 1);
    assert Pow2(5) == 32.0;
    Pow2Add(5, 5);
    Pow2Step(10);
    assert TWO_TO_63 as real == FloatValue(TWO_TO_53 / 2, 11);
  }

  lemma LargeSize(n: nat, x: real)
    requires TWO_TO_53 <= n < TWO_TO_63 && Rounds(x, n as real)
    ensures Pow2(53) <= x < Pow2(65)
  {
    LargePowersAreFloats();
    RoundingIsMonotone(x, n as real, TWO_TO_53 as real);
    RoundingIsMonotone(x, n as real, TWO_TO_63 as real);
    Pow2Values();
    Pow2Step(63);
    Pow2Step(64);
  }

  lemma LargeSizeOnGrid(n: nat, x: real) returns (k: nat, e: nat)
    requires TWO_TO_53 <= n < TWO_TO_63 && Rounds(x, n as real)
    ensures k < TWO_TO_53 && e <= 12 && x == k as real * Pow2(e)
  {
    LargeSize(n, x);
    assert 52 + 1 == 53;
    e := FindExponent(x, 1);
    k := FloatsLieOnGrid(x, e);
  }

  /** The converted size as a multiple of a power of two that divides every chunk boundary. */
  lemma SizeOnGrid(n: nat, x: real) returns (k: nat, e: nat)
    requires n < TWO_TO_63 && Rounds(x, n as real)
    ensures k < TWO_TO_53 && e <= 12 && x == k as real * Pow2(e)
  {
    if n < TWO_TO_53 {
      SmallIntegersAreFloats(n);
      RoundingIsMonotone(x, n as real, n as real);
      k, e := n, 0;
      assert Pow2(0) == 1.0;
    } else {
      k, e := LargeSizeOnGrid(n, x);
    }
  }

  /** Chunk boundaries lie on every grid the size can be converted to. */
  lemma BoundaryOnGrid(c: nat, e: nat) returns (b: int)
    requires e <= 12
    ensures c as real * 52428800.0 == b as real * Pow2(e)
  {
    b := Refine(25 * c, 21, e);
    Pow2Values();
  }

  lemma NextInteger(b: int, k: int)
    requires (b as real) < k as real
    ensures b as real + 1.0 <= k as real
  {
    assert b + 1 <= k;
    assert (b + 1) as real <= k as real;
  }

  lemma OneMore(x: real, w: real)
    ensures (x + 1.0) * w == x * w + w
  {
  }

  lemma NextGridPoint(b: int, k: int, w: real, r: real, p: real)
    requires 0.0 < w && b as real * w == r < p == k as real * w
    ensures r + w <= p
  {
    ScaleDown(b as real, k as real, w);
    NextInteger(b, k);
    OneMore(b as real, w);
    ScaleUp(b as real + 1.0, k as real, w);
  }

  lemma StaysBeyond(c: real, q: real, y: real, z: real, w: real)
    requires 0.0 < w && c * 52428800.0 + w <= q * 52428800.0
    requires -12.0 * w <= (z - q) * 838860800.0 <= 12.0 * w && Abs(y - q) <= Abs(z - q)
    ensures c < y
  {
  }

  lemma GridQuotient(c: real, b: int, k: int, w: real, q: real, y: real, z: real)
    requires 0.0 < w && c * 52428800.0 == b as real * w && q * 52428800.0 == k as real * w && c < q
    requires -12.0 * w <= (z - q) * 838860800.0 <= 12.0 * w && Abs(y - q) <= Abs(z - q)
    ensures c < y
  {
    NextGridPoint(b, k, w, c * 52428800.0, q * 52428800.0);
    StaysBeyond(c, q, y, z, w);
  }

  /** Beyond a chunk boundary the rounded quotient stays beyond it. */
  lemma QuotientPassesBoundary(c: nat, k: nat, e: nat, q: real, y: real)
    requires k < TWO_TO_53 && e <= 12 && q * 52428800.0 == k as real * Pow2(e) && Rounds(y, q) && (c as real) < q
    ensures c as real < y
  {
    var z := CloseFloat(k, e, q);
    Pow2IsPositive(e);
    var b := BoundaryOnGrid(c, e);
    GridQuotient(c as real, b, k, Pow2(e), q, y, z);
  }

  lemma SizeBetweenBoundaries(n: nat, x: real)
    requires n < TWO_TO_63 && Rounds(x, n as real)
    ensures var c := (n / CHUNK_SIZE) as real; c * CHUNK_SIZE as real <= x <= (c + 1.0) * CHUNK_SIZE as real
    ensures n % CHUNK_SIZE == 0 ==> x == n as real
  {
    var c := n / CHUNK_SIZE;
    ChunksAreFloats(c);
    ChunksAreFloats(c + 1);
    RoundingIsMonotone(x, n as real, (c * CHUNK_SIZE) as real);
    RoundingIsMonotone(x, n as real, ((c + 1) * CHUNK_SIZE) as real);
  }

  /** The part count for every size a file can have: it is exact if and only if the size is a whole number of
      chunks or its conversion to float64 did not fall back to the last chunk boundary; otherwise it is one short. */
  lemma PartCountIff(n: nat, x: real, y: real)
    requires n < TWO_TO_63 && Rounds(x, n as real) && Rounds(y, x / CHUNK_SIZE as real)
    ensures Ceil(y) == CeilDiv(n, CHUNK_SIZE) <==> n % CHUNK_SIZE == 0 || (n / CHUNK_SIZE * CHUNK_SIZE) as real < x
    ensures Ceil(y) == CeilDiv(n, CHUNK_SIZE) || Ceil(y) == CeilDiv(n, CHUNK_SIZE) - 1 == n / CHUNK_SIZE
  {
    var c, q := n / CHUNK_SIZE, x / CHUNK_SIZE as real;
    SizeBetweenBoundaries(n, x);
    SmallIntegersAreFloats(c);
    SmallIntegersAreFloats(c + 1);
    RoundingIsMonotone(y, q, c as real);
    RoundingIsMonotone(y, q, (c + 1) as real);
    if x == c as real * CHUNK_SIZE as real {
      assert y == c as real;
    } else {
      var k, e := SizeOnGrid(n, x);
      QuotientPassesBoundary(c, k, e, q, y);
      assert Ceil(y) == c + 1;
    }
  }

  /** For every file below 2^53 bytes the rounded division and its ceiling give the exact part count. */
  lemma PartCountIsExact(n: nat, x: real, y: real)
    requires n < TWO_TO_53 && Rounds(x, n as real) && Rounds(y, x / CHUNK_SIZE as real)
    ensures Ceil(y) == CeilDiv(n, CHUNK_SIZE)
  {
    SmallIntegersAreFloats(n);
    RoundingIsMonotone(x, n as real, n as real);
    PartCountIff(n, x, y);
    assert (n / CHUNK_SIZE * CHUNK_SIZE) as real <= n as real;
  }

  // ---------------------------------------------------------------- at 2^53 and beyond

  lemma EvenIsNotOdd(k: int, n: nat, z: real)
    requires z == k as real * 2.0 && n % 2 == 1
    ensures 1.0 <= Abs(z - n as real)
  {
    assert z == (2 * k) as real && 2 * k != n;
  }

  /** Above 2^53 every float is an even integer or at least as far away, so an odd size is never exact. */
  lemma OddSizesAreNotFloats(n: nat, z: real)
    requires TWO_TO_53 < n && n % 2 == 1 && IsFloat(z)
    ensures 1.0 <= Abs(z - n as real)
  {
    var m, e: int :| -TWO_TO_53 < m < TWO_TO_53 && -1074 <= e <= 971 && z == FloatValue(m, e);
    if e < 1 {
      TooSmall(m, e, 1);
      Pow2Values();
    } else {
      var k := Refine(m, e, 1);
      assert Pow2(1) == 2.0;
      EvenIsNotOdd(k, n, z);
    }
  }

  /** The bound is needed: for this size the nearest double drops the last byte, and one part too few
      is uploaded. */
  lemma PartCountCanFallShort() returns (n: nat, x: real, y: real)
    ensures n > TWO_TO_53 && Rounds(x, n as real) && Rounds(y, x / CHUNK_SIZE as real)
    ensures Ceil(y) == CeilDiv(n, CHUNK_SIZE) - 1
  {
    var k := 171798692;
    n := k * CHUNK_SIZE + 1;
    x, y := (n - 1) as real, k as real;
    assert Pow2(1) == 2.0;
    assert x == FloatValue((n - 1) / 2, 1);
    forall z: real | IsFloat(z) ensures Abs(x - n as real) <= Abs(z - n as real) {
      OddSizesAreNotFloats(n, z);
    }
    SmallIntegersAreFloats(k);
    assert x / CHUNK_SIZE as real == y;
  }

  // ---------------------------------------------------------------- parts

  function Min(a: nat, b: nat): nat { if a <= b then a else b }

  /** The bytes of part `p`, counted from 1. */
  function PartData(file: seq<Byte>, p: nat): seq<Byte>
    requires 0 < p && (p - 1) * CHUNK_SIZE <= |file|
  {
    file[(p - 1) * CHUNK_SIZE..Min(p * CHUNK_SIZE, |file|)]
  }

  /** `numParts` after the adjustment for empty files. */
  function NumParts(size: nat): (n: nat)
    ensures 0 < n && (n - 1) * CHUNK_SIZE <= size <= n * CHUNK_SIZE
  {
    if size == 0 then 1 else CeilDiv(size, CHUNK_SIZE)
  }

  type ETag = nat

  datatype Part = Part(number: nat, etag: ETag)

  /** A schedule in which every part number runs once. */
  ghost predicate IsSchedule(order: seq<nat>, n: nat) {
    && (forall i :: 0 <= i < |order| ==> 1 <= order[i] <= n)
    && (forall i, j :: 0 <= i < j < |order| ==> order[i] != order[j])
    && (forall p :: 1 <= p <= n ==> p in order)
  }

  /** Part `p` has been uploaded and its slot of the result array filled. */
  predicate Done(file: seq<Byte>, etags: nat -> ETag, uploads: map<nat, seq<Byte>>, slot: Part, p: nat)
    requires 0 < p && (p - 1) * CHUNK_SIZE <= |file|
  {
    p in uploads && uploads[p] == PartData(file, p) && slot == Part(p, etags(p))
  }

  /** The bytes one worker reads. */
  method ReadChunk(file: seq<Byte>, p: nat) returns (chunk: seq<Byte>)
    requires 0 < p && (p - 1) * CHUNK_SIZE <= |file|
    ensures chunk == PartData(file, p)
  {
    var offset := (p - 1) * CHUNK_SIZE;
    var size := if offset + CHUNK_SIZE > |file| then |file| - offset else CHUNK_SIZE;
    chunk := file[offset..offset + size];
  }

  /** `uploadParts`: workers finish in the order of the schedule and fill their own slot of the result
      array.  `fails` decides reads and uploads; after a failure the remaining workers give up. */
  method UploadParts(file: seq<Byte>, numParts: nat, order: seq<nat>, etags: nat -> ETag, fails: nat -> bool)
      returns (r: Fallible<seq<Part>>, uploads: map<nat, seq<Byte>>)
    requires 0 < numParts && (numParts - 1) * CHUNK_SIZE <= |file| && IsSchedule(order, numParts)
    ensures r.Ok? <==> forall p :: 1 <= p <= numParts ==> !fails(p)
    ensures r.Ok? ==> |r.value| == numParts && forall i: nat :: i < numParts ==> Done(file, etags, uploads, r.value[i], i + 1)
  {
    var parts := new Part[numParts](_ => Part(0, 0));
    uploads := map[];
    var cancelled := false;
    for i := 0 to |order|
      invariant cancelled ==> exists p :: 1 <= p <= numParts && fails(p)
      invariant !cancelled ==> forall j :: 0 <= j < i ==>
          !fails(order[j]) && Done(file, etags, uploads, parts[order[j] - 1], order[j])
    {
      var p := order[i];
      if !cancelled {
        if fails(p) {
          cancelled := true;
        } else {
          var chunk := ReadChunk(file, p);
          assert forall j :: 0 <= j < i ==> order[j] != p;
          uploads := uploads[p := chunk];
          parts[p - 1] := Part(p, etags(p));
        }
      }
    }
    if cancelled {
      return Err(()), uploads;
    }
    forall i: nat | i < numParts ensures !fails(i + 1) && Done(file, etags, uploads, parts[i], i + 1) {
      assert i + 1 in order;
      var j :| 0 <= j < |order| && order[j] == i + 1;
    }
    forall p | 1 <= p <= numParts ensures !fails(p) {
      var i := p - 1;
      assert Done(file, etags, uploads, parts[i], i + 1);
    }
    r := Ok(parts[..]);
  }

  // ---------------------------------------------------------------- completion

  ghost predicate Ascending(parts: seq<Part>) {
    forall i, j :: 0 <= i < j < |parts| ==> parts[i].number <= parts[j].number
  }

  /** What the service assembles from a completion request: the named parts, in the listed order. */
  function Assemble(uploads: map<nat, seq<Byte>>, parts: seq<Part>): seq<Byte>
    requires forall i :: 0 <= i < |parts| ==> parts[i].number in uploads
  {
    if parts == [] then [] else Assemble(uploads, parts[..|parts| - 1]) + uploads[parts[|parts| - 1].number]
  }

  ghost predicate Numbered(parts: seq<Part>) {
    forall i :: 0 <= i < |parts| ==> parts[i].number == i + 1
  }

  lemma PeelLast(parts: seq<Part>, sorted: seq<Part>)
    requires Numbered(parts) && parts != []
    requires multiset(sorted) == multiset(parts) && |sorted| == |parts| && Ascending(sorted)
    ensures sorted[|sorted| - 1] == parts[|parts| - 1]
    ensures Numbered(parts[..|parts| - 1]) && Ascending(sorted[..|sorted| - 1])
  {
    var n := |parts| - 1;
    assert parts[n] in multiset(sorted) && sorted[n] in multiset(parts);
    var k :| 0 <= k < |sorted| && sorted[k] == parts[n];
    var m :| 0 <= m < |parts| && parts[m] == sorted[n];
    assert m + 1 == sorted[n].number >= sorted[k].number == n + 1;
  }

  lemma RemoveLast(a: seq<Part>, b: seq<Part>, x: Part)
    requires multiset(a + [x]) == multiset(b + [x])
    ensures multiset(a) == multiset(b)
  {
    assert multiset(a) == multiset(a + [x]) - multiset{x};
    assert multiset(b) == multiset(b + [x]) - multiset{x};
  }

  /** Sorting by part number gives the one list numbered 1, 2, ... n. */
  lemma {:induction false} SortedByNumber(parts: seq<Part>, sorted: seq<Part>)
    requires Numbered(parts)
    requires multiset(sorted) == multiset(parts) && |sorted| == |parts| && Ascending(sorted)
    ensures sorted == parts
    decreases |parts|
  {
    if parts == [] {
    } else {
      var n := |parts| - 1;
      PeelLast(parts, sorted);
      var a, b, x := sorted[..n], parts[..n], parts[n];
      assert sorted == a + [x] && parts == b + [x];
      RemoveLast(a, b, x);
      SortedByNumber(b, a);
    }
  }

  lemma SameLength(parts: seq<Part>, sorted: seq<Part>)
    requires multiset(sorted) == multiset(parts)
    ensures |sorted| == |parts|
  {
    assert |multiset(sorted)| == |multiset(parts)|;
  }

  lemma {:induction false} AssembleFile(file: seq<Byte>, uploads: map<nat, seq<Byte>>, parts: seq<Part>, n: nat)
    requires n <= |parts| && (|parts| - 1) * CHUNK_SIZE <= |file| && forall i :: 0 <= i < |parts| ==> parts[i].number == i + 1
    requires forall p :: 1 <= p <= |parts| ==> p in uploads && uploads[p] == PartData(file, p)
    ensures Assemble(uploads, parts[..n]) == file[..Min(n * CHUNK_SIZE, |file|)]
  {
    if n == 0 {
    } else {
      AssembleFile(file, uploads, parts, n - 1);
      assert parts[..n][..n - 1] == parts[..n - 1];
      var lo, hi := (n - 1) * CHUNK_SIZE, Min(n * CHUNK_SIZE, |file|);
      assert lo <= |file|;
      assert file[..lo] + file[lo..hi] == file[..hi];
    }
  }

  /** Different parts hold disjoint ranges, and only an empty file has an empty part. */
  lemma PartsPartition(file: seq<Byte>, p: nat, q: nat)
    requires 1 <= p < q <= NumParts(|file|)
    ensures p * CHUNK_SIZE <= (q - 1) * CHUNK_SIZE && |PartData(file, p)| == CHUNK_SIZE
    ensures 0 < |PartData(file, q)| <= CHUNK_SIZE
  {
  }

  /** Whatever the sort does, the uploaded parts assemble to the beginning of the file that they cover. */
  lemma AssembleSorted(file: seq<Byte>, etags: nat -> ETag, uploads: map<nat, seq<Byte>>, slots: seq<Part>, sorted: seq<Part>)
    requires slots != [] && (|slots| - 1) * CHUNK_SIZE <= |file|
    requires forall i: nat :: i < |slots| ==> Done(file, etags, uploads, slots[i], i + 1)
    requires multiset(sorted) == multiset(slots) && Ascending(sorted)
    ensures forall i :: 0 <= i < |sorted| ==> sorted[i].number in uploads
    ensures Assemble(uploads, sorted) == file[..Min(|slots| * CHUNK_SIZE, |file|)]
  {
    forall i | 0 <= i < |slots| ensures slots[i].number == i + 1 {
      assert Done(file, etags, uploads, slots[i], i + 1);
    }
    forall p | 1 <= p <= |slots| ensures p in uploads && uploads[p] == PartData(file, p) {
      assert Done(file, etags, uploads, slots[p - 1], (p - 1) + 1);
    }
    SameLength(slots, sorted);
    SortedByNumber(slots, sorted);
    AssembleFile(file, uploads, sorted, |sorted|);
    assert sorted[..|sorted|] == sorted;
  }

  /** The number of parts the code uploads: the float64 ceiling, and at least one. */
  function UsedParts(quotient: real): int { if Ceil(quotient) == 0 then 1 else Ceil(quotient) }

  /** Every part the code uploads starts inside the file, and they cover it exactly when the count is right. */
  lemma UsedPartsFit(n: nat, size: real, quotient: real)
    requires n < TWO_TO_63 && Rounds(size, n as real) && Rounds(quotient, size / CHUNK_SIZE as real)
    ensures 0 < UsedParts(quotient) <= NumParts(n) && (UsedParts(quotient) - 1) * CHUNK_SIZE <= n
    ensures n <= UsedParts(quotient) * CHUNK_SIZE <==> CountIsRight(n, size)
  {
    PartCountIff(n, size, quotient);
    if n < CHUNK_SIZE { PartCountIsExact(n, size, quotient); }
  }

  /** The caller's test: the size is a whole number of chunks, or its float64 is past the last chunk boundary. */
  predicate CountIsRight(n: nat, size: real) {
    n % CHUNK_SIZE == 0 || (n / CHUNK_SIZE * CHUNK_SIZE) as real < size
  }

  /** The whole upload.  `size` and `quotient` are the doubles of the part count, and `sort` is whatever
      the library makes of the part list.  If the call succeeds, the object the service assembles is the
      file, whatever order the workers finished in, if and only if the part count is right; otherwise the
      bytes after the last chunk boundary are missing. */
  method UploadFileInParallel(file: seq<Byte>, size: real, quotient: real, order: seq<nat>, etags: nat -> ETag,
                              fails: nat -> bool, completes: bool, sort: seq<Part> -> seq<Part>)
      returns (r: Fallible<nat>, stored: seq<Byte>)
    requires |file| < TWO_TO_63 && Rounds(size, |file| as real) && Rounds(quotient, size / CHUNK_SIZE as real)
    requires IsSchedule(order, if UsedParts(quotient) < 0 then 0 else UsedParts(quotient))
    requires forall ps :: multiset(sort(ps)) == multiset(ps) && Ascending(sort(ps))
    ensures r.Ok? <==> completes && forall p :: 1 <= p <= UsedParts(quotient) ==> !fails(p)
    ensures r.Ok? ==> r.value == |file| && (stored == file <==> CountIsRight(|file|, size))
    ensures r.Ok? && !CountIsRight(|file|, size) ==> stored == file[..|file| / CHUNK_SIZE * CHUNK_SIZE]
  {
    stored := [];
    var numParts := Ceil(quotient);
    if numParts == 0 {
      numParts := 1;
    }
    UsedPartsFit(|file|, size, quotient);
    var uploaded, uploads := UploadParts(file, numParts, order, etags, fails);
    if uploaded.Err? {
      return Err(()), [];
    }
    var parts := sort(uploaded.value);
    if !completes {
      return Err(()), [];
    }
    AssembleSorted(file, etags, uploads, uploaded.value, parts);
    StoredPrefix(file, size, quotient);
    stored := Assemble(uploads, parts);
    r := Ok(|file|);
  }

  lemma StoredPrefix(file: seq<Byte>, size: real, quotient: real)
    requires |file| < TWO_TO_63 && Rounds(size, |file| as real) && Rounds(quotient, size / CHUNK_SIZE as real)
    ensures 0 < UsedParts(quotient)
    ensures var stored := file[..Min(UsedParts(quotient) * CHUNK_SIZE, |file|)];
            if CountIsRight(|file|, size) then stored == file
            else stored != file && stored == file[..|file| / CHUNK_SIZE * CHUNK_SIZE]
  {
    UsedPartsFit(|file|, size, quotient);
    PartCountIff(|file|, size, quotient);
    if CountIsRight(|file|, size) {
      assert file[..|file|] == file;
    }
  }
}

/** The stored form of a snapshot header: a fixed-size metadata record followed by fixed-size mapping
    records, all integers little-endian. */
module HeaderFormat {
  import opened BuildMappings
  import H = SnapshotHeader
  import opened Wrappers

  type Byte = b: nat | b < 256

  const METADATA_SIZE := 64
  const MAPPING_SIZE := 40

  // ---------------------------------------------------------------- little-endian integers

  function Pow256(k: nat): nat { if k == 0 then 1 else 256 * Pow256(k - 1) }

  function Le(n: nat, k: nat): (s: seq<Byte>)
    ensures |s| == k
  {
    if k == 0 then [] else [n % 256] + Le(n / 256, k - 1)
  }

  function FromLe(s: seq<Byte>): nat {
    if s == [] then 0 else s[0] + 256 * FromLe(s[1..])
  }

  lemma {:induction false} FromLeOfLe(n: nat, k: nat)
    requires n < Pow256(k)
    ensures FromLe(Le(n, k)) == n
  {
    if k == 0 {
    } else {
      FromLeOfLe(n / 256, k - 1);
      assert Le(n, k)[1..] == Le(n / 256, k - 1);
    }
  }

  lemma {:induction false} LeOfFromLe(s: seq<Byte>)
    ensures Le(FromLe(s), |s|) == s && FromLe(s) < Pow256(|s|)
  {
    if s == [] {
    } else {
      LeOfFromLe(s[1..]);
      assert FromLe(s) % 256 == s[0] && FromLe(s) / 256 == FromLe(s[1..]);
      assert s == [s[0]] + s[1..];
    }
  }

  lemma Quotient(n: nat, d: nat, q: nat, r: nat)
    requires n == d * q + r && r < d
    ensures n / d == q
  {
    var diff := n / d - q;
    assert d * (n / d) + n % d == n;
    assert d * diff == r - n % d;
    assert diff >= 1 ==> d * diff >= d;
    assert diff <= -1 ==> d * diff <= -1 * d;
  }

  lemma DivideTwice(n: nat, d: nat)
    requires 0 < d
    ensures n / 256 / d == n / (256 * d)
  {
    var m := n / 256;
    var q, r := m / d, m % d;
    assert m == d * q + r;
    assert n == 256 * (d * q + r) + n % 256;
    assert 256 * (d * q) == 256 * d * q;
    Quotient(n, 256 * d, q, 256 * r + n % 256);
  }

  lemma {:induction false} Pow256Positive(k: nat)
    ensures 0 < Pow256(k)
  {
    if k == 0 {
    } else {
      Pow256Positive(k - 1);
    }
  }

  /** Byte `i` holds the digit of weight 256 to the power `i`. */
  lemma {:induction false} LeByte(n: nat, k: nat, i: nat)
    requires i < k
    ensures 0 < Pow256(i) && Le(n, k)[i] == n / Pow256(i) % 256
  {
    Pow256Positive(i);
    if i == 0 {
    } else {
      Pow256Positive(i - 1);
      LeByte(n / 256, k - 1, i - 1);
      DivideTwice(n, Pow256(i - 1));
    }
  }

  // ---------------------------------------------------------------- records

  /** The fields of a record with their widths. */
  function Encode(fields: seq<nat>, widths: seq<nat>): (s: seq<Byte>)
    requires |fields| == |widths|
  {
    if fields == [] then [] else Le(fields[0], widths[0]) + Encode(fields[1..], widths[1..])
  }

  function Total(widths: seq<nat>): nat {
    if widths == [] then 0 else widths[0] + Total(widths[1..])
  }

  function Decode(s: seq<Byte>, widths: seq<nat>): (fields: seq<nat>)
    requires |s| == Total(widths)
    ensures |fields| == |widths|
    decreases |widths|
  {
    if widths == [] then [] else [FromLe(s[..widths[0]])] + Decode(s[widths[0]..], widths[1..])
  }

  ghost predicate FitsIn(fields: seq<nat>, widths: seq<nat>) {
    |fields| == |widths| && forall i :: 0 <= i < |fields| ==> fields[i] < Pow256(widths[i])
  }

  lemma {:induction false} DecodeOfEncode(fields: seq<nat>, widths: seq<nat>)
    requires FitsIn(fields, widths)
    ensures |Encode(fields, widths)| == Total(widths) && Decode(Encode(fields, widths), widths) == fields
  {
    if fields == [] {
    } else {
      var s := Encode(fields, widths);
      DecodeOfEncode(fields[1..], widths[1..]);
      FromLeOfLe(fields[0], widths[0]);
      assert s[..widths[0]] == Le(fields[0], widths[0]) && s[widths[0]..] == Encode(fields[1..], widths[1..]);
    }
  }

  lemma {:induction false} EncodeOfDecode(s: seq<Byte>, widths: seq<nat>)
    requires |s| == Total(widths)
    ensures FitsIn(Decode(s, widths), widths) && Encode(Decode(s, widths), widths) == s
    decreases |widths|
  {
    if widths != [] {
      var w := widths[0];
      EncodeOfDecode(s[w..], widths[1..]);
      LeOfFromLe(s[..w]);
      assert Decode(s, widths)[1..] == Decode(s[w..], widths[1..]);
      assert s == s[..w] + s[w..];
    } else {
      assert s == [];
    }
  }

  // ---------------------------------------------------------------- metadata and mappings

  const METADATA_WIDTHS: seq<nat> := [8, 8, 8, 8, 16, 16]
  const MAPPING_WIDTHS: seq<nat> := [8, 8, 16, 8]

  lemma Sizes()
    ensures Total(METADATA_WIDTHS) == METADATA_SIZE && Total(MAPPING_WIDTHS) == MAPPING_SIZE
  {
    assert Total([16, 16]) == 32 && Total([8, 16, 16]) == 40 && Total([8, 8, 16, 16]) == 48 && Total([16, 8]) == 24;
    assert METADATA_WIDTHS[1..] == [8, 8, 8, 16, 16] && [8, 8, 8, 16, 16][1..] == [8, 8, 16, 16];
    assert Total([8, 8, 8, 16, 16]) == 56;
    assert MAPPING_WIDTHS[1..] == [8, 16, 8] && [8, 16, 8][1..] == [16, 8];
  }

  function MetadataFields(m: H.Metadata): seq<nat> {
    [m.version, m.blockSize, m.size, m.generation, m.build, m.baseBuild]
  }

  function MetadataOf(f: seq<nat>): H.Metadata
    requires |f| == 6
  {
    H.Metadata(f[0], f[1], f[2], f[3], f[4], f[5])
  }

  function MappingFields(m: BuildMap): seq<nat> { [m.offset, m.length, m.build, m.storage] }

  function MappingOf(f: seq<nat>): BuildMap
    requires |f| == 4
  {
    BuildMap(f[0], f[1], f[2], f[3])
  }

  /** Integers of 64 bits and build ids of 128. */
  ghost predicate MetadataFits(m: H.Metadata) { FitsIn(MetadataFields(m), METADATA_WIDTHS) }

  ghost predicate MappingFits(m: BuildMap) { FitsIn(MappingFields(m), MAPPING_WIDTHS) }

  function EncodeMappings(ms: seq<BuildMap>): seq<Byte> {
    if ms == [] then [] else EncodeMappings(ms[..|ms| - 1]) + Encode(MappingFields(ms[|ms| - 1]), MAPPING_WIDTHS)
  }

  function Written(metadata: H.Metadata, ms: seq<BuildMap>): seq<Byte> {
    Encode(MetadataFields(metadata), METADATA_WIDTHS) + EncodeMappings(ms)
  }

  /** Where field `i` starts. */
  function Offset(widths: seq<nat>, i: nat): nat
    requires i <= |widths|
  {
    if i == 0 then 0 else widths[0] + Offset(widths[1..], i - 1)
  }

  lemma {:induction false} EncodeSize(fields: seq<nat>, widths: seq<nat>)
    requires |fields| == |widths|
    ensures |Encode(fields, widths)| == Total(widths)
  {
    if fields == [] {
    } else {
      EncodeSize(fields[1..], widths[1..]);
    }
  }

  lemma {:induction false} FieldAt(fields: seq<nat>, widths: seq<nat>, i: nat)
    requires i < |fields| == |widths|
    ensures Offset(widths, i) + widths[i] <= |Encode(fields, widths)|
    ensures Encode(fields, widths)[Offset(widths, i)..Offset(widths, i) + widths[i]] == Le(fields[i], widths[i])
  {
    if i == 0 {
    } else {
      FieldAt(fields[1..], widths[1..], i - 1);
      var first, rest := Le(fields[0], widths[0]), Encode(fields[1..], widths[1..]);
      var from, to := Offset(widths[1..], i - 1), Offset(widths[1..], i - 1) + widths[i];
      assert (first + rest)[widths[0] + from..widths[0] + to] == rest[from..to];
    }
  }

  lemma MappingOffsets()
    ensures Offset(MAPPING_WIDTHS, 0) == 0 && Offset(MAPPING_WIDTHS, 1) == 8 && Offset(MAPPING_WIDTHS, 2) == 16 && Offset(MAPPING_WIDTHS, 3) == 32
  {
    assert MAPPING_WIDTHS[1..] == [8, 16, 8] && [8, 16, 8][1..] == [16, 8];
    assert Offset([16, 8], 1) == 16 && Offset([8, 16, 8], 1) == 8 && Offset([8, 16, 8], 2) == 24;
  }

  lemma MetadataOffsets()
    ensures Offset(METADATA_WIDTHS, 0) == 0 && Offset(METADATA_WIDTHS, 1) == 8 && Offset(METADATA_WIDTHS, 2) == 16
    ensures Offset(METADATA_WIDTHS, 3) == 24 && Offset(METADATA_WIDTHS, 4) == 32 && Offset(METADATA_WIDTHS, 5) == 48
  {
    var a, b, c, d := [8, 8, 8, 16, 16], [8, 8, 16, 16], [8, 16, 16], [16, 16];
    assert METADATA_WIDTHS[1..] == a && a[1..] == b && b[1..] == c && c[1..] == d;
    assert Offset(d, 1) == 16 && Offset(c, 1) == 8 && Offset(c, 2) == 24;
    assert Offset(b, 1) == 8 && Offset(b, 2) == 16 && Offset(b, 3) == 32;
    assert Offset(a, 1) == 8 && Offset(a, 2) == 16 && Offset(a, 3) == 24 && Offset(a, 4) == 40;
  }

  /** Where the fields of a mapping lie in its record. */
  lemma MappingLayout(m: BuildMap)
    ensures var s := Encode(MappingFields(m), MAPPING_WIDTHS);
            && |s| == MAPPING_SIZE
            && s[0..8] == Le(m.offset, 8) && s[8..16] == Le(m.length, 8)
            && s[16..32] == Le(m.build, 16) && s[32..40] == Le(m.storage, 8)
  {
    Sizes();
    EncodeSize(MappingFields(m), MAPPING_WIDTHS);
    MappingOffsets();
    FieldAt(MappingFields(m), MAPPING_WIDTHS, 0);
    FieldAt(MappingFields(m), MAPPING_WIDTHS, 1);
    FieldAt(MappingFields(m), MAPPING_WIDTHS, 2);
    FieldAt(MappingFields(m), MAPPING_WIDTHS, 3);
  }

  /** Where the fields of the metadata lie in its record. */
  lemma MetadataLayout(m: H.Metadata)
    ensures var s := Encode(MetadataFields(m), METADATA_WIDTHS);
            && |s| == METADATA_SIZE
            && s[0..8] == Le(m.version, 8) && s[8..16] == Le(m.blockSize, 8)
            && s[16..24] == Le(m.size, 8) && s[24..32] == Le(m.generation, 8)
            && s[32..48] == Le(m.build, 16) && s[48..64] == Le(m.baseBuild, 16)
  {
    Sizes();
    EncodeSize(MetadataFields(m), METADATA_WIDTHS);
    MetadataOffsets();
    FieldAt(MetadataFields(m), METADATA_WIDTHS, 0);
    FieldAt(MetadataFields(m), METADATA_WIDTHS, 1);
    FieldAt(MetadataFields(m), METADATA_WIDTHS, 2);
    FieldAt(MetadataFields(m), METADATA_WIDTHS, 3);
    FieldAt(MetadataFields(m), METADATA_WIDTHS, 4);
    FieldAt(MetadataFields(m), METADATA_WIDTHS, 5);
  }

  lemma {:induction false} MappingsSize(ms: seq<BuildMap>)
    ensures |EncodeMappings(ms)| == |ms| * MAPPING_SIZE
  {
    if ms == [] {
    } else {
      MappingsSize(ms[..|ms| - 1]);
      RecordSize(ms[|ms| - 1]);
    }
  }

  lemma RecordSize(m: BuildMap)
    ensures |Encode(MappingFields(m), MAPPING_WIDTHS)| == MAPPING_SIZE
  {
    Sizes();
    EncodeSize(MappingFields(m), MAPPING_WIDTHS);
  }

  /** Record `i` of a sequence of records. */
  function Record(s: seq<Byte>, i: nat): seq<Byte>
    requires (i + 1) * MAPPING_SIZE <= |s|
  {
    s[i * MAPPING_SIZE..(i + 1) * MAPPING_SIZE]
  }

  lemma OneMoreRecord(front: seq<Byte>, last: seq<Byte>, n: nat, i: nat)
    requires |front| == n * MAPPING_SIZE && |last| == MAPPING_SIZE && i <= n
    ensures Record(front + last, i) == if i < n then Record(front, i) else last
  {
  }

  lemma {:induction false} MappingAt(ms: seq<BuildMap>, i: nat)
    requires i < |ms|
    ensures |EncodeMappings(ms)| == |ms| * MAPPING_SIZE
    ensures Record(EncodeMappings(ms), i) == Encode(MappingFields(ms[i]), MAPPING_WIDTHS)
  {
    var n := |ms| - 1;
    MappingsSize(ms[..n]);
    RecordSize(ms[n]);
    OneMoreRecord(EncodeMappings(ms[..n]), Encode(MappingFields(ms[n]), MAPPING_WIDTHS), n, i);
    if i < n { MappingAt(ms[..n], i); }
  }

  lemma BehindMetadata(front: seq<Byte>, records: seq<Byte>, i: nat)
    requires |front| == METADATA_SIZE && (i + 1) * MAPPING_SIZE <= |records|
    ensures var at := METADATA_SIZE + i * MAPPING_SIZE; (front + records)[at..at + MAPPING_SIZE] == Record(records, i)
  {
  }

  /** The stored bytes: the metadata record first, and mapping `i` in the record at `METADATA_SIZE + i * MAPPING_SIZE`. */
  lemma WrittenLayout(metadata: H.Metadata, ms: seq<BuildMap>, i: nat)
    requires i < |ms|
    ensures |Written(metadata, ms)| == METADATA_SIZE + |ms| * MAPPING_SIZE
    ensures Written(metadata, ms)[..METADATA_SIZE] == Encode(MetadataFields(metadata), METADATA_WIDTHS)
    ensures var at := METADATA_SIZE + i * MAPPING_SIZE;
            Written(metadata, ms)[at..at + MAPPING_SIZE] == Encode(MappingFields(ms[i]), MAPPING_WIDTHS)
  {
    Sizes();
    EncodeSize(MetadataFields(metadata), METADATA_WIDTHS);
    MappingAt(ms, i);
    BehindMetadata(Encode(MetadataFields(metadata), METADATA_WIDTHS), EncodeMappings(ms), i);
  }

  method Serialize(metadata: H.Metadata, ms: seq<BuildMap>) returns (data: seq<Byte>)
    ensures data == Written(metadata, ms)
  {
    data := Encode(MetadataFields(metadata), METADATA_WIDTHS);
    ghost var start := data;
    for i := 0 to |ms|
      invariant data == start + EncodeMappings(ms[..i])
    {
      assert ms[..i + 1][..i] == ms[..i];
      data := data + Encode(MappingFields(ms[i]), MAPPING_WIDTHS);
    }
    assert ms[..|ms|] == ms;
  }

  method ReadMetadata(record: seq<Byte>) returns (m: H.Metadata)
    requires |record| == METADATA_SIZE
    ensures MetadataFits(m) && Encode(MetadataFields(m), METADATA_WIDTHS) == record
  {
    Sizes();
    m := MetadataOf(Decode(record, METADATA_WIDTHS));
    EncodeOfDecode(record, METADATA_WIDTHS);
    assert MetadataFields(m) == Decode(record, METADATA_WIDTHS);
  }

  method ReadMapping(record: seq<Byte>) returns (m: BuildMap)
    requires |record| == MAPPING_SIZE
    ensures MappingFits(m) && Encode(MappingFields(m), MAPPING_WIDTHS) == record
  {
    Sizes();
    m := MappingOf(Decode(record, MAPPING_WIDTHS));
    EncodeOfDecode(record, MAPPING_WIDTHS);
    assert MappingFields(m) == Decode(record, MAPPING_WIDTHS);
  }

  /** `DeserializeBytes` up to the header: `binary.Read` fails on a partial record and reports a clean end only
      between records.  Whatever is accepted would be written as the same bytes. */
  method ReadRecords(data: seq<Byte>) returns (r: Fallible<(H.Metadata, seq<BuildMap>)>)
    ensures r.Ok? <==> METADATA_SIZE <= |data| && (|data| - METADATA_SIZE) % MAPPING_SIZE == 0
    ensures r.Ok? ==> MetadataFits(r.value.0) && (forall i :: 0 <= i < |r.value.1| ==> MappingFits(r.value.1[i]))
    ensures r.Ok? ==> Written(r.value.0, r.value.1) == data
  {
    if |data| < METADATA_SIZE {
      return Err(());
    }
    var metadata := ReadMetadata(data[..METADATA_SIZE]);
    var ms: seq<BuildMap> := [];
    var pos := METADATA_SIZE;
    while pos < |data|
      invariant pos <= |data| && (pos - METADATA_SIZE) % MAPPING_SIZE == 0
      invariant Written(metadata, ms) == data[..pos]
      invariant forall i :: 0 <= i < |ms| ==> MappingFits(ms[i])
    {
      if |data| - pos < MAPPING_SIZE {
        return Err(());
      }
      var record := data[pos..pos + MAPPING_SIZE];
      var m := ReadMapping(record);
      WrittenGrows(metadata, ms, m);
      assert data[..pos] + record == data[..pos + MAPPING_SIZE];
      ms := ms + [m];
      pos := pos + MAPPING_SIZE;
    }
    assert data[..pos] == data;
    r := Ok((metadata, ms));
  }

  lemma WrittenGrows(metadata: H.Metadata, ms: seq<BuildMap>, m: BuildMap)
    ensures Written(metadata, ms + [m]) == Written(metadata, ms) + Encode(MappingFields(m), MAPPING_WIDTHS)
  {
    assert (ms + [m])[..|ms|] == ms;
  }

  lemma {:induction false} WrittenSize(metadata: H.Metadata, ms: seq<BuildMap>)
    requires MetadataFits(metadata) && forall i :: 0 <= i < |ms| ==> MappingFits(ms[i])
    ensures |Written(metadata, ms)| == METADATA_SIZE + |ms| * MAPPING_SIZE
  {
    Sizes();
    if ms == [] {
      DecodeOfEncode(MetadataFields(metadata), METADATA_WIDTHS);
    } else {
      var n := |ms| - 1;
      WrittenSize(metadata, ms[..n]);
      DecodeOfEncode(MappingFields(ms[n]), MAPPING_WIDTHS);
      assert ms == ms[..n] + [ms[n]];
      WrittenGrows(metadata, ms[..n], ms[n]);
    }
  }

  /** Two headers whose fields fit are written alike only if they are the same. */
  lemma {:induction false} WrittenIsInjective(a: H.Metadata, ms: seq<BuildMap>, b: H.Metadata, ns: seq<BuildMap>)
    requires MetadataFits(a) && MetadataFits(b)
    requires forall i :: 0 <= i < |ms| ==> MappingFits(ms[i])
    requires forall i :: 0 <= i < |ns| ==> MappingFits(ns[i])
    requires Written(a, ms) == Written(b, ns)
    ensures a == b && ms == ns
    decreases |ms|
  {
    WrittenSize(a, ms);
    WrittenSize(b, ns);
    DecodeOfEncode(MetadataFields(a), METADATA_WIDTHS);
    DecodeOfEncode(MetadataFields(b), METADATA_WIDTHS);
    if ms == [] {
      assert Encode(MetadataFields(a), METADATA_WIDTHS) == Written(a, ms) == Written(b, ns) == Encode(MetadataFields(b), METADATA_WIDTHS);
      assert MetadataFields(a)[0] == MetadataFields(b)[0] && MetadataFields(a)[1] == MetadataFields(b)[1];
    } else {
      LastRecord(a, ms, b, ns);
      WrittenIsInjective(a, ms[..|ms| - 1], b, ns[..|ns| - 1]);
      assert ms == ms[..|ms| - 1] + [ms[|ms| - 1]] && ns == ns[..|ns| - 1] + [ns[|ns| - 1]];
    }
  }

  lemma SplitEnd(p: seq<Byte>, x: seq<Byte>, q: seq<Byte>, y: seq<Byte>)
    requires p + x == q + y && |x| == |y|
    ensures p == q && x == y
  {
    assert (p + x)[..|p|] == p && (q + y)[..|q|] == q && (p + x)[|p|..] == x && (q + y)[|q|..] == y;
  }

  lemma MappingBytesDiffer(m: BuildMap, n: BuildMap)
    requires MappingFits(m) && MappingFits(n)
    ensures |Encode(MappingFields(m), MAPPING_WIDTHS)| == |Encode(MappingFields(n), MAPPING_WIDTHS)|
    ensures Encode(MappingFields(m), MAPPING_WIDTHS) == Encode(MappingFields(n), MAPPING_WIDTHS) ==> m == n
  {
    DecodeOfEncode(MappingFields(m), MAPPING_WIDTHS);
    DecodeOfEncode(MappingFields(n), MAPPING_WIDTHS);
    assert MappingOf(MappingFields(m)) == m && MappingOf(MappingFields(n)) == n;
  }

  lemma LastRecord(a: H.Metadata, ms: seq<BuildMap>, b: H.Metadata, ns: seq<BuildMap>)
    requires ms != [] && ns != [] && MappingFits(ms[|ms| - 1]) && MappingFits(ns[|ns| - 1]) && Written(a, ms) == Written(b, ns)
    ensures Written(a, ms[..|ms| - 1]) == Written(b, ns[..|ns| - 1]) && ms[|ms| - 1] == ns[|ns| - 1]
  {
    var m, n := ms[|ms| - 1], ns[|ns| - 1];
    LastWritten(a, ms);
    LastWritten(b, ns);
    MappingBytesDiffer(m, n);
    SplitEnd(Written(a, ms[..|ms| - 1]), Encode(MappingFields(m), MAPPING_WIDTHS),
             Written(b, ns[..|ns| - 1]), Encode(MappingFields(n), MAPPING_WIDTHS));
  }

  lemma LastWritten(metadata: H.Metadata, ms: seq<BuildMap>)
    requires ms != []
    ensures Written(metadata, ms) == Written(metadata, ms[..|ms| - 1]) + Encode(MappingFields(ms[|ms| - 1]), MAPPING_WIDTHS)
  {
    assert ms == ms[..|ms| - 1] + [ms[|ms| - 1]];
    WrittenGrows(metadata, ms[..|ms| - 1], ms[|ms| - 1]);
  }

  /** What was serialized comes back as the header it was, with its index rebuilt. */
  method RoundTrip(metadata: H.Metadata, ms: seq<BuildMap>) returns (h: Fallible<H.Header>)
    requires MetadataFits(metadata) && forall i :: 0 <= i < |ms| ==> MappingFits(ms[i])
    ensures h.Ok? <==> metadata.blockSize != 0
    ensures h.Ok? ==> H.Indexed(h.value) && h.value.metadata == metadata
    ensures h.Ok? ==> h.value.mapping == if ms == [] then [BuildMap(0, metadata.size, metadata.build, 0)] else ms
  {
    var data := Serialize(metadata, ms);
    WrittenSize(metadata, ms);
    assert (|data| - METADATA_SIZE) % MAPPING_SIZE == 0;
    var read := ReadRecords(data);
    WrittenIsInjective(metadata, ms, read.value.0, read.value.1);
    h := H.NewHeader(read.value.0, read.value.1);
  }
}

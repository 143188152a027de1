/** IDX1: its bytes, its validation, and the facts that its bytes fix its own length and contents. */
module DirIndex {
  import opened Binary
  import opened Common
  import opened Rows
  import opened HashRanges

  datatype Index = Index(flags: u32, generation: u64, dirOffset: u64, dirSize: u64, dirCRC: u32,
                         rows: seq<Row>, ranges: seq<HashRange>)

  const MAGIC_INDEX: Bytes := [73, 68, 88, 49]  // "IDX1"
  const INDEX_VERSION := 1
  const INDEX_HEADER := 64
  const ROW_SIZE := 24
  const RANGE_SIZE := 16

  // ---------- bytes ----------

  function RowBytes(r: Row): (b: Bytes)
    ensures |b| == ROW_SIZE
  {
    LE(r.entryOff, 4) + (LE(r.entrySize, 4) + (LE(r.pathHash, 8) + (LE(r.pathOff, 4) + LE(r.pathSize, 4))))
  }

  function RangeBytes(g: HashRange): (b: Bytes)
    ensures |b| == RANGE_SIZE
  {
    LE(g.pathHash, 8) + (LE(g.first, 4) + LE(g.span, 4))
  }

  function RowsBytes(rows: seq<Row>): (b: Bytes)
    ensures |b| == ROW_SIZE * |rows|
  {
    if |rows| == 0 then [] else RowsBytes(rows[..|rows| - 1]) + RowBytes(rows[|rows| - 1])
  }

  function RangesBytes(gs: seq<HashRange>): (b: Bytes)
    ensures |b| == RANGE_SIZE * |gs|
  {
    if |gs| == 0 then [] else RangesBytes(gs[..|gs| - 1]) + RangeBytes(gs[|gs| - 1])
  }

  /** Bytes 0 to 24: magic, version, header size, flags, record sizes, four unused bytes. */
  function PrologueWith(idx: Index, pad: Bytes): (b: Bytes)
    requires |pad| == 4
    ensures |b| == 24
  {
    MAGIC_INDEX + (LE(INDEX_VERSION, 2) + (LE(INDEX_HEADER, 2) + (LE(idx.flags, 4)
    + (LE(ROW_SIZE, 4) + (LE(RANGE_SIZE, 4) + pad)))))
  }

  /** The writer leaves the unused bytes zero. */
  function Prologue(idx: Index): (b: Bytes)
    ensures |b| == 24
  {
    PrologueWith(idx, Zeros(4))
  }

  /** Bytes 24 to 60: generation, directory tuple and counts. */
  function Identity(idx: Index): (b: Bytes)
    ensures |b| == 36
  {
    LE(idx.generation, 8) + (LE(idx.dirOffset, 8) + (LE(idx.dirSize, 8) + (LE(idx.dirCRC, 4)
    + (LE(|idx.rows|, 4) + LE(|idx.ranges|, 4)))))
  }

  function IndexHead(p: Primitives, idx: Index): (b: Bytes)
    ensures |b| == INDEX_HEADER
  {
    Prologue(idx) + Identity(idx) + LE(p.crc(Prologue(idx) + Identity(idx)), 4)
  }

  function IndexBytes(p: Primitives, idx: Index): (b: Bytes)
    ensures |b| == INDEX_HEADER + ROW_SIZE * |idx.rows| + RANGE_SIZE * |idx.ranges|
  {
    IndexHead(p, idx) + (RowsBytes(idx.rows) + RangesBytes(idx.ranges))
  }

  /** `MarshalBinary`. */
  function Marshal(p: Primitives, idx: Index): Result<Bytes>
  {
    if |idx.rows| >= U32 || |idx.ranges| >= U32 then Err(InvalidFormat) else Ok(IndexBytes(p, idx))
  }

  // ---------- validation ----------

  predicate RowsValid(rows: seq<Row>)
  {
    && (forall i :: 0 <= i < |rows| ==> rows[i].entrySize != 0 && rows[i].pathSize != 0)
    && (forall i, j :: 0 <= i < j < |rows| ==> rows[i].entryOff <= rows[j].entryOff)
  }

  /** What `validateDirIndexV1` accepts; disjointness of all pairs, not of neighbours in some order. */
  predicate ValidIndex(idx: Index)
  {
    RowsValid(idx.rows) && Sound(idx.rows, idx.ranges) && HashSorted(idx.ranges) && Disjoint(idx.ranges)
  }

  /** Every row of the range is in the table and has its hash. */
  ghost predicate OverRows(rows: seq<Row>, g: HashRange)
  {
    forall x :: InRange(g, x) ==> x < |rows| && rows[x].pathHash == g.pathHash
  }

  /** Some row is in both ranges. */
  ghost predicate Meet(g: HashRange, h: HashRange)
  {
    exists x :: InRange(g, x) && InRange(h, x)
  }

  /** Nonempty entries in the order of their offsets, nonempty ranges in the order of their hashes, each over rows of its
      hash, and no row in two of them. */
  lemma ValidIff(idx: Index)
    ensures ValidIndex(idx) <==>
            && (forall i :: 0 <= i < |idx.rows| ==> idx.rows[i].entrySize > 0 && idx.rows[i].pathSize > 0)
            && (forall i :: 0 < i < |idx.rows| ==> idx.rows[i - 1].entryOff <= idx.rows[i].entryOff)
            && (forall a :: 0 <= a < |idx.ranges| ==> idx.ranges[a].span > 0)
            && (forall a :: 0 <= a < |idx.ranges| ==> OverRows(idx.rows, idx.ranges[a]))
            && (forall a :: 0 < a < |idx.ranges| ==> idx.ranges[a - 1].pathHash <= idx.ranges[a].pathHash)
            && (forall a, b :: 0 <= a < b < |idx.ranges| ==> !Meet(idx.ranges[a], idx.ranges[b]))
  {
    hide RowsValid, Sound, HashSorted, Disjoint, OverRows, Meet;
    RowsValidIff(idx.rows);
    SoundIff(idx.rows, idx.ranges);
    HashSortedIff(idx.ranges);
    if forall a :: 0 <= a < |idx.ranges| ==> idx.ranges[a].span > 0 { DisjointIff(idx.ranges); }
  }

  lemma RowsValidIff(rows: seq<Row>)
    ensures RowsValid(rows) <==>
            && (forall i :: 0 <= i < |rows| ==> rows[i].entrySize > 0 && rows[i].pathSize > 0)
            && forall i :: 0 < i < |rows| ==> rows[i - 1].entryOff <= rows[i].entryOff
  {
    if forall i :: 0 < i < |rows| ==> rows[i - 1].entryOff <= rows[i].entryOff { RowsGrow(rows, |rows|); }
  }

  lemma HashSortedIff(gs: seq<HashRange>)
    ensures HashSorted(gs) <==> forall a :: 0 < a < |gs| ==> gs[a - 1].pathHash <= gs[a].pathHash
  {
    if forall a :: 0 < a < |gs| ==> gs[a - 1].pathHash <= gs[a].pathHash { HashesGrow(gs, |gs|); }
  }

  lemma SoundIff(rows: seq<Row>, gs: seq<HashRange>)
    ensures Sound(rows, gs) <==>
            && (forall a :: 0 <= a < |gs| ==> gs[a].span > 0)
            && forall a :: 0 <= a < |gs| ==> OverRows(rows, gs[a])
  {
    forall a | 0 <= a < |gs| && gs[a].span > 0
      ensures SoundRange(rows, gs[a]) <==> OverRows(rows, gs[a])
    {
      assert InRange(gs[a], gs[a].first + gs[a].span - 1);
    }
  }

  lemma DisjointIff(gs: seq<HashRange>)
    requires forall a :: 0 <= a < |gs| ==> gs[a].span > 0
    ensures Disjoint(gs) <==> forall a, b :: 0 <= a < b < |gs| ==> !Meet(gs[a], gs[b])
  {
    hide Apart, Meet;
    forall a, b | 0 <= a < b < |gs|
      ensures Apart(gs[a], gs[b]) <==> !Meet(gs[a], gs[b])
    {
      ApartIff(gs[a], gs[b]);
    }
  }

  lemma ApartIff(g: HashRange, h: HashRange)
    requires g.span > 0 && h.span > 0
    ensures Apart(g, h) <==> !Meet(g, h)
  {
    assert InRange(g, g.first) && InRange(h, h.first);
  }

  lemma {:induction false} RowsGrow(rows: seq<Row>, n: nat)
    requires n <= |rows| && forall i :: 0 < i < |rows| ==> rows[i - 1].entryOff <= rows[i].entryOff
    ensures forall i, j :: 0 <= i < j < n ==> rows[i].entryOff <= rows[j].entryOff
  {
    if n > 1 {
      RowsGrow(rows, n - 1);
      assert rows[n - 1 - 1].entryOff <= rows[n - 1].entryOff;
    }
  }

  lemma {:induction false} HashesGrow(gs: seq<HashRange>, n: nat)
    requires n <= |gs| && forall a :: 0 < a < |gs| ==> gs[a - 1].pathHash <= gs[a].pathHash
    ensures forall a, b :: 0 <= a < b < n ==> gs[a].pathHash <= gs[b].pathHash
  {
    if n > 1 {
      HashesGrow(gs, n - 1);
      assert gs[n - 1 - 1].pathHash <= gs[n - 1].pathHash;
    }
  }

  // ---------- parsing ----------

  function ParseRow(b: Bytes, off: nat): Row
    requires off + ROW_SIZE <= |b|
  {
    Row(Get32(b, off), Get32(b, off + 4), Get64(b, off + 8), Get32(b, off + 16), Get32(b, off + 20))
  }

  function ParseRange(b: Bytes, off: nat): HashRange
    requires off + RANGE_SIZE <= |b|
  {
    HashRange(Get64(b, off), Get32(b, off + 8), Get32(b, off + 12))
  }

  function ParseRows(b: Bytes, off: nat, n: nat): (rows: seq<Row>)
    requires off + ROW_SIZE * n <= |b|
    ensures |rows| == n
  {
    if n == 0 then [] else ParseRows(b, off, n - 1) + [ParseRow(b, off + ROW_SIZE * (n - 1))]
  }

  function ParseRanges(b: Bytes, off: nat, n: nat): (gs: seq<HashRange>)
    requires off + RANGE_SIZE * n <= |b|
    ensures |gs| == n
  {
    if n == 0 then [] else ParseRanges(b, off, n - 1) + [ParseRange(b, off + RANGE_SIZE * (n - 1))]
  }

  /** The length an index blob must have, read from its own counts. */
  function DeclaredLength(b: Bytes): nat
    requires INDEX_HEADER <= |b|
  {
    INDEX_HEADER + ROW_SIZE * Get32(b, 52) + RANGE_SIZE * Get32(b, 56)
  }

  predicate HeadFixed(b: Bytes)
    requires INDEX_HEADER <= |b|
  {
    && b[0..4] == MAGIC_INDEX && Get16(b, 4) == INDEX_VERSION && Get16(b, 6) == INDEX_HEADER
    && Get32(b, 12) == ROW_SIZE && Get32(b, 16) == RANGE_SIZE
  }

  function ParseIndex(b: Bytes): Index
    requires INDEX_HEADER <= |b| && DeclaredLength(b) <= |b|
  {
    var n, m := Get32(b, 52), Get32(b, 56);
    Index(Get32(b, 8), Get64(b, 24), Get64(b, 32), Get64(b, 40), Get32(b, 48),
          ParseRows(b, INDEX_HEADER, n), ParseRanges(b, INDEX_HEADER + ROW_SIZE * n, m))
  }

  /** `UnmarshalDirIndexV1`. */
  function Unmarshal(p: Primitives, b: Bytes): Result<Index>
  {
    if |b| < INDEX_HEADER || !HeadFixed(b) then Err(InvalidFormat)
    else if p.crc(b[..60]) != Get32(b, 60) then Err(CRCMismatch)
    else if DeclaredLength(b) != |b| then Err(InvalidFormat)
    else if !ValidIndex(ParseIndex(b)) then Err(InvalidFormat)
    else Ok(ParseIndex(b))
  }

  /** `DecodeDirIndexV1`. */
  function DecodeIndex(p: Primitives, b: Bytes, crc: u32): Result<Index>
  {
    if p.crc(b) != crc then Err(CRCMismatch) else Unmarshal(p, b)
  }

  // ---------- printed pieces and parsed fields ----------

  lemma RowAt(b: Bytes, off: nat, r: Row)
    requires off + ROW_SIZE <= |b|
    ensures At(b, off, RowBytes(r)) <==> ParseRow(b, off) == r
  {
    hide At, LE, Get32, Get64;
    var f4 := LE(r.pathOff, 4) + LE(r.pathSize, 4);
    var f3 := LE(r.pathHash, 8) + f4;
    var f2 := LE(r.entrySize, 4) + f3;
    AtSplit(b, off, LE(r.entryOff, 4), f2);
    AtSplit(b, off + 4, LE(r.entrySize, 4), f3);
    AtSplit(b, off + 8, LE(r.pathHash, 8), f4);
    AtSplit(b, off + 16, LE(r.pathOff, 4), LE(r.pathSize, 4));
    Get32At(b, off, r.entryOff);
    Get32At(b, off + 4, r.entrySize);
    Get64At(b, off + 8, r.pathHash);
    Get32At(b, off + 16, r.pathOff);
    Get32At(b, off + 20, r.pathSize);
  }

  lemma RangeAt(b: Bytes, off: nat, g: HashRange)
    requires off + RANGE_SIZE <= |b|
    ensures At(b, off, RangeBytes(g)) <==> ParseRange(b, off) == g
  {
    hide At, LE, Get32, Get64;
    AtSplit(b, off, LE(g.pathHash, 8), LE(g.first, 4) + LE(g.span, 4));
    AtSplit(b, off + 8, LE(g.first, 4), LE(g.span, 4));
    Get64At(b, off, g.pathHash);
    Get32At(b, off + 8, g.first);
    Get32At(b, off + 12, g.span);
  }

  lemma {:induction false} RowsAt(b: Bytes, off: nat, rows: seq<Row>)
    requires off + ROW_SIZE * |rows| <= |b|
    ensures At(b, off, RowsBytes(rows)) <==> ParseRows(b, off, |rows|) == rows
  {
    hide At, RowBytes, ParseRow;
    if |rows| == 0 {
      AtEmpty(b, off);
    } else {
      var n := |rows| - 1;
      var last := off + ROW_SIZE * n;
      AtSplit(b, off, RowsBytes(rows[..n]), RowBytes(rows[n]));
      RowsAt(b, off, rows[..n]);
      RowAt(b, last, rows[n]);
      var ps := ParseRows(b, off, |rows|);
      assert ps[..n] == ParseRows(b, off, n) && ps[n] == ParseRow(b, last);
      assert rows == rows[..n] + [rows[n]];
    }
  }

  lemma {:induction false} RangesAt(b: Bytes, off: nat, gs: seq<HashRange>)
    requires off + RANGE_SIZE * |gs| <= |b|
    ensures At(b, off, RangesBytes(gs)) <==> ParseRanges(b, off, |gs|) == gs
  {
    hide At, RangeBytes, ParseRange;
    if |gs| == 0 {
      AtEmpty(b, off);
    } else {
      var n := |gs| - 1;
      var last := off + RANGE_SIZE * n;
      AtSplit(b, off, RangesBytes(gs[..n]), RangeBytes(gs[n]));
      RangesAt(b, off, gs[..n]);
      RangeAt(b, last, gs[n]);
      var ps := ParseRanges(b, off, |gs|);
      assert ps[..n] == ParseRanges(b, off, n) && ps[n] == ParseRange(b, last);
      assert gs == gs[..n] + [gs[n]];
    }
  }

  lemma PrologueFields(b: Bytes, idx: Index, pad: Bytes)
    requires INDEX_HEADER <= |b| && |pad| == 4
    ensures At(b, 0, PrologueWith(idx, pad)) <==> HeadFixed(b) && Get32(b, 8) == idx.flags && b[20..24] == pad
  {
    hide At, LE, Get16, Get32;
    var f6 := LE(RANGE_SIZE, 4) + pad;
    var f5 := LE(ROW_SIZE, 4) + f6;
    var f4 := LE(idx.flags, 4) + f5;
    var f3 := LE(INDEX_HEADER, 2) + f4;
    var f2 := LE(INDEX_VERSION, 2) + f3;
    AtSplit(b, 0, MAGIC_INDEX, f2);
    AtSplit(b, 4, LE(INDEX_VERSION, 2), f3);
    AtSplit(b, 6, LE(INDEX_HEADER, 2), f4);
    AtSplit(b, 8, LE(idx.flags, 4), f5);
    AtSplit(b, 12, LE(ROW_SIZE, 4), f6);
    AtSplit(b, 16, LE(RANGE_SIZE, 4), pad);
    FourBytes(b, 0, MAGIC_INDEX);
    FourBytes(b, 20, pad);
    Get16At(b, 4, INDEX_VERSION);
    Get16At(b, 6, INDEX_HEADER);
    Get32At(b, 8, idx.flags);
    Get32At(b, 12, ROW_SIZE);
    Get32At(b, 16, RANGE_SIZE);
  }

  lemma FourBytes(b: Bytes, off: nat, piece: Bytes)
    requires off + 4 <= |b| && |piece| == 4
    ensures At(b, off, piece) <==> b[off..off + 4] == piece
  {
  }

  ghost predicate SameIdentity(b: Bytes, idx: Index)
    requires INDEX_HEADER <= |b|
  {
    && Get64(b, 24) == idx.generation && Get64(b, 32) == idx.dirOffset && Get64(b, 40) == idx.dirSize
    && Get32(b, 48) == idx.dirCRC && Get32(b, 52) == |idx.rows| && Get32(b, 56) == |idx.ranges|
  }

  lemma IdentityFields(b: Bytes, idx: Index)
    requires INDEX_HEADER <= |b| && |idx.rows| < U32 && |idx.ranges| < U32
    ensures At(b, 24, Identity(idx)) <==> SameIdentity(b, idx)
  {
    hide At, LE, Get32, Get64;
    var f5 := LE(|idx.rows|, 4) + LE(|idx.ranges|, 4);
    var f4 := LE(idx.dirCRC, 4) + f5;
    var f3 := LE(idx.dirSize, 8) + f4;
    var f2 := LE(idx.dirOffset, 8) + f3;
    AtSplit(b, 24, LE(idx.generation, 8), f2);
    AtSplit(b, 32, LE(idx.dirOffset, 8), f3);
    AtSplit(b, 40, LE(idx.dirSize, 8), f4);
    AtSplit(b, 48, LE(idx.dirCRC, 4), f5);
    AtSplit(b, 52, LE(|idx.rows|, 4), LE(|idx.ranges|, 4));
    Get64At(b, 24, idx.generation);
    Get64At(b, 32, idx.dirOffset);
    Get64At(b, 40, idx.dirSize);
    Get32At(b, 48, idx.dirCRC);
    Get32At(b, 52, |idx.rows|);
    Get32At(b, 56, |idx.ranges|);
  }

  /** Any blob that begins with the head of idx declares the length of idx, whatever follows. */
  lemma HeadFixesLength(p: Primitives, b: Bytes, idx: Index)
    requires At(b, 0, IndexHead(p, idx)) && |idx.rows| < U32 && |idx.ranges| < U32
    ensures INDEX_HEADER <= |b| && HeadFixed(b) && Get32(b, 8) == idx.flags && SameIdentity(b, idx)
    ensures DeclaredLength(b) == |IndexBytes(p, idx)|
    ensures p.crc(b[..60]) == Get32(b, 60)
  {
    hide PrologueWith, Identity, HeadFixed;
    var first := Prologue(idx) + Identity(idx);
    AtSplit(b, 0, first, LE(p.crc(first), 4));
    AtSplit(b, 0, Prologue(idx), Identity(idx));
    PrologueFields(b, idx, Zeros(4));
    IdentityFields(b, idx);
    Get32At(b, 60, p.crc(first));
    assert b[..60] == b[0..0 + 60] == first;
  }

  /** Unmarshal accepts the marshalled index exactly when it is valid, and gives it back unchanged. */
  lemma UnmarshalOfMarshal(p: Primitives, idx: Index)
    requires |idx.rows| < U32 && |idx.ranges| < U32
    ensures Unmarshal(p, IndexBytes(p, idx)) == if ValidIndex(idx) then Ok(idx) else Err(InvalidFormat)
  {
    hide IndexHead, HeadFixed, RowsBytes, RangesBytes, ValidIndex, ParseRows, ParseRanges;
    var b := IndexBytes(p, idx);
    assert b[0..0 + |b|] == b;
    AtSplit(b, 0, IndexHead(p, idx), RowsBytes(idx.rows) + RangesBytes(idx.ranges));
    AtSplit(b, INDEX_HEADER, RowsBytes(idx.rows), RangesBytes(idx.ranges));
    HeadFixesLength(p, b, idx);
    RowsAt(b, INDEX_HEADER, idx.rows);
    RangesAt(b, INDEX_HEADER + ROW_SIZE * |idx.rows|, idx.ranges);
  }

  /** The bytes of an index with the four unused bytes as given. */
  function PaddedBytes(p: Primitives, idx: Index, pad: Bytes): Bytes
    requires |pad| == 4
  {
    var first := PrologueWith(idx, pad) + Identity(idx);
    first + LE(p.crc(first), 4) + (RowsBytes(idx.rows) + RangesBytes(idx.ranges))
  }

  /** Every field of idx, and the padding, read from b. */
  ghost predicate FieldsOf(p: Primitives, b: Bytes, idx: Index, pad: Bytes)
  {
    && |b| == INDEX_HEADER + ROW_SIZE * |idx.rows| + RANGE_SIZE * |idx.ranges|
    && HeadFixed(b) && Get32(b, 8) == idx.flags && b[20..24] == pad && SameIdentity(b, idx)
    && Get32(b, 60) == p.crc(b[..60])
    && ParseRows(b, INDEX_HEADER, |idx.rows|) == idx.rows
    && ParseRanges(b, INDEX_HEADER + ROW_SIZE * |idx.rows|, |idx.ranges|) == idx.ranges
  }

  lemma PaddedFields(p: Primitives, b: Bytes, idx: Index, pad: Bytes)
    requires |pad| == 4 && |idx.rows| < U32 && |idx.ranges| < U32
    ensures b == PaddedBytes(p, idx, pad) <==> FieldsOf(p, b, idx, pad)
  {
    hide RowsBytes, RangesBytes, ParseRows, ParseRanges, PrologueWith, Identity, HeadFixed, SameIdentity, LE, Get32;
    var first, tables := PrologueWith(idx, pad) + Identity(idx), RowsBytes(idx.rows) + RangesBytes(idx.ranges);
    if |b| == |PaddedBytes(p, idx, pad)| {
      assert b[0..0 + |b|] == b;
      assert b == PaddedBytes(p, idx, pad) <==> At(b, 0, PaddedBytes(p, idx, pad));
      AtSplit(b, 0, first + LE(p.crc(first), 4), tables);
      AtSplit(b, 0, first, LE(p.crc(first), 4));
      AtSplit(b, 0, PrologueWith(idx, pad), Identity(idx));
      AtSplit(b, INDEX_HEADER, RowsBytes(idx.rows), RangesBytes(idx.ranges));
      PrologueFields(b, idx, pad);
      IdentityFields(b, idx);
      Get32At(b, 60, p.crc(first));
      assert At(b, 0, first) <==> b[..60] == first by { assert b[0..0 + 60] == b[..60]; }
      RowsAt(b, INDEX_HEADER, idx.rows);
      RangesAt(b, INDEX_HEADER + ROW_SIZE * |idx.rows|, idx.ranges);
    }
  }

  lemma FieldsDecide(p: Primitives, b: Bytes, idx: Index)
    ensures Unmarshal(p, b) == Ok(idx) ==>
              ValidIndex(idx) && |idx.rows| < U32 && |idx.ranges| < U32 && |b| >= 24 && FieldsOf(p, b, idx, b[20..24])
    ensures ValidIndex(idx) && (exists pad :: |pad| == 4 && FieldsOf(p, b, idx, pad)) ==> Unmarshal(p, b) == Ok(idx)
  {
    hide ParseRows, ParseRanges, HeadFixed, ValidIndex, Get32, Get64;
  }

  /** Unmarshal accepts exactly the bytes of valid indexes, whatever their four unused bytes. */
  lemma UnmarshalIff(p: Primitives, b: Bytes, idx: Index)
    ensures Unmarshal(p, b) == Ok(idx) <==>
            && ValidIndex(idx) && |idx.rows| < U32 && |idx.ranges| < U32
            && exists pad :: |pad| == 4 && b == PaddedBytes(p, idx, pad)
  {
    hide PaddedBytes, FieldsOf, ValidIndex, Unmarshal;
    FieldsDecide(p, b, idx);
    if |idx.rows| < U32 && |idx.ranges| < U32 {
      forall pad: Bytes | |pad| == 4
        ensures b == PaddedBytes(p, idx, pad) <==> FieldsOf(p, b, idx, pad)
      {
        PaddedFields(p, b, idx, pad);
      }
      if Unmarshal(p, b) == Ok(idx) { assert b == PaddedBytes(p, idx, b[20..24]); }
    }
  }

  /** A blob read at the position of a marshalled index, with whatever length, either is that index
      exactly or is rejected: the index cannot be read with another index's size. */
  lemma IndexFixesItsLength(p: Primitives, file: Bytes, off: nat, size: nat, idx: Index)
    requires At(file, off, IndexBytes(p, idx)) && off + size <= |file|
    requires |idx.rows| < U32 && |idx.ranges| < U32
    ensures Unmarshal(p, file[off..off + size]).Ok? ==> size == |IndexBytes(p, idx)|
    ensures Unmarshal(p, file[off..off + size]).Err? ==>
              Unmarshal(p, file[off..off + size]).error in {InvalidFormat, CRCMismatch}
    ensures size == |IndexBytes(p, idx)| ==> file[off..off + size] == IndexBytes(p, idx)
  {
    hide IndexHead, HeadFixed, RowsBytes, RangesBytes, ValidIndex, ParseIndex, SameIdentity;
    var b := file[off..off + size];
    if INDEX_HEADER <= size {
      AtSplit(file, off, IndexHead(p, idx), RowsBytes(idx.rows) + RangesBytes(idx.ranges));
      assert b[0..INDEX_HEADER] == file[off..off + INDEX_HEADER];
      HeadFixesLength(p, b, idx);
    }
  }
}

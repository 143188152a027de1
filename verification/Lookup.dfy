/** Building the index of a directory, and finding one entry through it without decoding the rest. */
module Lookup {
  import opened Binary
  import opened Common
  import opened Directory
  import opened Catalog
  import opened Rows
  import opened HashRanges
  import opened DirIndex

  // ---------- building ----------

  function IndexOf(rows: seq<Row>, dirOffset: u64, dirSize: u64, dirCRC: u32, generation: u64): Index
    requires |rows| < U32
  {
    Index(0, generation, dirOffset, dirSize, dirCRC, rows, BuildRanges(rows))
  }

  /** `buildDirIndexBlob`. */
  function BuildIndex(p: Primitives, dirBlob: Bytes, dirOffset: u64, dirCRC: u32, generation: u64): Result<Bytes>
    requires FOOTER_SIZE <= |dirBlob| < U64
  {
    match Scan(p, dirBlob)
    case Err(x) => Err(x)
    case Ok(rows) =>
      if |rows| >= U32 then Err(InvalidFormat)
      else Marshal(p, IndexOf(rows, dirOffset, |dirBlob|, dirCRC, generation))
  }

  lemma EntryOffsetsGrow(es: seq<Entry>, i: nat, j: nat)
    requires i <= j <= |es|
    ensures EntryOffset(es, i) <= EntryOffset(es, j)
    decreases j - i
  {
    hide EntryBytes, EntriesBytes;
    if i != j {
      EntryOffsetsGrow(es, i, j - 1);
      EntriesAppend(es, j - 1);
    }
  }

  /** Rows that describe a decoded directory, with the ranges built from them, form a valid index. */
  lemma BuiltIndexValid(p: Primitives, es: seq<Entry>, rows: seq<Row>, off: u64, size: u64, crc: u32, gen: u64)
    requires AllCanonical(p, es) && Describes(rows, es) && |rows| < U32
    ensures ValidIndex(IndexOf(rows, off, size, crc, gen))
  {
    hide BuildRanges, Sound, HashSorted, Disjoint, EntryOffset;
    BuiltRangesPartition(rows);
    forall i | 0 <= i < |rows|
      ensures rows[i].entrySize != 0 && rows[i].pathSize != 0
    {
      assert DescribesAt(rows[i], es, i) && Canonical(p, es[i]);
    }
    forall i, j | 0 <= i < j < |rows|
      ensures rows[i].entryOff <= rows[j].entryOff
    {
      assert DescribesAt(rows[i], es, i) && DescribesAt(rows[j], es, j);
      EntryOffsetsGrow(es, i, j);
    }
  }

  /** The index of every decodable directory whose rows fit can be built, and reading it back yields exactly it; any
      other directory is too large for one. */
  lemma IndexRoundTrip(p: Primitives, b: Bytes, crc: u32, size: nat, off: u64, gen: u64)
    requires Decode(p, b, crc, size).Ok? && |b| < U64
    ensures FOOTER_SIZE <= |b|
    ensures var es := Decode(p, b, crc, size).value.entries;
            if !RowsFit(es, 0) then BuildIndex(p, b, off, crc, gen) == Err(LimitExceeded)
            else
              && BuildIndex(p, b, off, crc, gen).Ok?
              && exists rows: seq<Row> :: |rows| < U32 && Describes(rows, es)
                   && var idx := IndexOf(rows, off, |b|, crc, gen);
                      BuildIndex(p, b, off, crc, gen).value == IndexBytes(p, idx)
                      && Unmarshal(p, IndexBytes(p, idx)) == Ok(idx)
  {
    hide Decode, Scan, BuildRanges, ValidIndex, IndexBytes, Unmarshal, Describes, Canonical, DirBytes, ScanFrom, BodyBytes,
      UniquePaths, FitsRow;
    DecodedIsPrinted(p, b, crc, size, Decode(p, b, crc, size).value);
    var es := Decode(p, b, crc, size).value.entries;
    ThreeParsersAgree(p, b, crc, size);
    if !RowsFit(es, 0) { return; }
    var rows := Scan(p, b).value;
    assert |rows| == |es| by { DescribesLength(rows, es); }
    var idx := IndexOf(rows, off, |b|, crc, gen);
    assert |idx.ranges| <= |rows| by { RangesFewerThanRows(rows); }
    BuiltIndexValid(p, es, rows, off, |b|, crc, gen);
    UnmarshalOfMarshal(p, idx);
  }

  lemma RangesFewerThanRows(rows: seq<Row>)
    requires |rows| < U32
    ensures |BuildRanges(rows)| <= |rows|
  {
    GroupsCount(rows, HashOrder(rows, |rows|), 0);
  }

  lemma {:induction false} GroupsCount(rows: seq<Row>, order: seq<nat>, i: nat)
    requires i <= |order| && Indices(rows, order) && |rows| < U32
    ensures |Groups(rows, order, i)| <= |order| - i
    decreases |order| - i
  {
    hide Run, RunEnd;
    if i != |order| { GroupsCount(rows, order, FirstRun(rows, order, i) + 1); }
  }

  // ---------- lookup ----------

  /** The least position at which a range of this hash could stand. */
  function LowerBound(gs: seq<HashRange>, hash: u64): (i: nat)
    ensures i <= |gs| && (forall k :: 0 <= k < i ==> gs[k].pathHash < hash)
    ensures i < |gs| ==> gs[i].pathHash >= hash
  {
    if |gs| == 0 then 0
    else if gs[0].pathHash >= hash then 0
    else
      var i := 1 + LowerBound(gs[1..], hash);
      assert forall k :: 1 <= k < i ==> gs[k] == gs[1..][k - 1];
      i
  }

  function FindInRows(p: Primitives, b: Bytes, rows: seq<Row>, path: Bytes, j: nat, end: nat): Result<Option<Entry>>
    requires j <= end <= |rows|
    decreases end - j
  {
    if j == end then Ok(None)
    else match DecodeEntryAt(p, b, rows[j].entryOff, rows[j].entrySize)
      case Err(x) => Err(x)
      case Ok(e) => if e.path == path then Ok(Some(e)) else FindInRows(p, b, rows, path, j + 1, end)
  }

  function FindFrom(p: Primitives, b: Bytes, idx: Index, path: Bytes, i: nat): Result<Option<Entry>>
    requires i <= |idx.ranges|
    decreases |idx.ranges| - i
  {
    if i == |idx.ranges| || idx.ranges[i].pathHash != p.fnv(path) then Ok(None)
    else
      var g := idx.ranges[i];
      if g.first + g.span > |idx.rows| then Err(InvalidFormat)
      else match FindInRows(p, b, idx.rows, path, g.first, g.first + g.span)
        case Err(x) => Err(x)
        case Ok(Some(e)) => Ok(Some(e))
        case Ok(None) => FindFrom(p, b, idx, path, i + 1)
  }

  /** `findEntryByPathFromDirIndex`. */
  function Find(p: Primitives, b: Bytes, idx: Index, path: Bytes): Result<Option<Entry>>
  {
    FindFrom(p, b, idx, path, LowerBound(idx.ranges, p.fnv(path)))
  }

  /** Row j of the blob is an entry of this path. */
  ghost predicate RowHas(p: Primitives, b: Bytes, row: Row, path: Bytes, e: Entry)
  {
    DecodeEntryAt(p, b, row.entryOff, row.entrySize) == Ok(e) && e.path == path
  }

  lemma {:induction false} FoundInRows(p: Primitives, b: Bytes, rows: seq<Row>, path: Bytes, j: nat, end: nat)
    requires j <= end <= |rows|
    ensures var r := FindInRows(p, b, rows, path, j, end);
            r.Ok? && r.value.Some? ==> exists k :: j <= k < end && RowHas(p, b, rows[k], path, r.value.value)
    decreases end - j
  {
    hide DecodeEntryAt;
    if j != end {
      var r := FindInRows(p, b, rows, path, j, end);
      FoundInRows(p, b, rows, path, j + 1, end);
      if r.Ok? && r.value.Some? && !RowHas(p, b, rows[j], path, r.value.value) {
        var k :| j + 1 <= k < end && RowHas(p, b, rows[k], path, r.value.value);
      }
    }
  }

  lemma {:induction false} FoundFrom(p: Primitives, b: Bytes, idx: Index, path: Bytes, i: nat)
    requires i <= |idx.ranges|
    ensures var r := FindFrom(p, b, idx, path, i);
            r.Ok? && r.value.Some? ==> exists k :: 0 <= k < |idx.rows| && RowHas(p, b, idx.rows[k], path, r.value.value)
    decreases |idx.ranges| - i
  {
    hide FindInRows, RowHas;
    if i != |idx.ranges| {
      var g := idx.ranges[i];
      FoundFrom(p, b, idx, path, i + 1);
      if g.first + g.span <= |idx.rows| { FoundInRows(p, b, idx.rows, path, g.first, g.first + g.span); }
    }
  }

  /** Whatever the index, built here or not: an entry that is found has the path asked for, is canonical, and lies where
      one of the rows says. */
  lemma FoundIsThere(p: Primitives, b: Bytes, idx: Index, path: Bytes, e: Entry)
    requires Find(p, b, idx, path) == Ok(Some(e))
    ensures e.path == path && Canonical(p, e)
    ensures exists k :: 0 <= k < |idx.rows| && idx.rows[k].entrySize == EntrySize(e) && At(b, idx.rows[k].entryOff, EntryBytes(e))
  {
    hide FindFrom, DecodeEntryAt, EntryBytes, At, Canonical;
    FoundFrom(p, b, idx, path, LowerBound(idx.ranges, p.fnv(path)));
    var k :| 0 <= k < |idx.rows| && RowHas(p, b, idx.rows[k], path, e);
    DecodeEntryAtIff(p, b, idx.rows[k].entryOff, idx.rows[k].entrySize, e);
  }

  /** The binary search and the two scans of the source. */
  method FindEntryByPath(p: Primitives, b: Bytes, idx: Index, path: Bytes) returns (r: Result<Option<Entry>>)
    requires ValidIndex(idx)
    ensures r == Find(p, b, idx, path)
  {
    hide DecodeEntryAt, RowsValid, Sound, Disjoint;
    var hash, gs := p.fnv(path), idx.ranges;
    var i := SearchHash(gs, hash);
    while i < |gs| && gs[i].pathHash == hash
      invariant i <= |gs| && FindFrom(p, b, idx, path, i) == Find(p, b, idx, path)
    {
      var end := gs[i].first + gs[i].span;
      if end > |idx.rows| { return Err(InvalidFormat); }
      var j := gs[i].first;
      while j < end
        invariant gs[i].first <= j <= end
        invariant FindInRows(p, b, idx.rows, path, gs[i].first, end) == FindInRows(p, b, idx.rows, path, j, end)
      {
        var e := DecodeEntryAt(p, b, idx.rows[j].entryOff, idx.rows[j].entrySize);
        if e.Err? { return Err(e.error); }
        if e.value.path == path { return Ok(Some(e.value)); }
        j := j + 1;
      }
      i := i + 1;
    }
    r := Ok(None);
  }

  method SearchHash(gs: seq<HashRange>, hash: u64) returns (i: nat)
    requires HashSorted(gs)
    ensures i == LowerBound(gs, hash)
  {
    var lo, hi := 0, |gs|;
    while lo < hi
      invariant 0 <= lo <= hi <= |gs|
      invariant forall k :: 0 <= k < lo ==> gs[k].pathHash < hash
      invariant forall k :: hi <= k < |gs| ==> gs[k].pathHash >= hash
    {
      var mid := (lo + hi) / 2;
      if gs[mid].pathHash >= hash { hi := mid; } else { lo := mid + 1; }
    }
    i := lo;
    LowerBoundUnique(gs, hash, i);
  }

  lemma LowerBoundUnique(gs: seq<HashRange>, hash: u64, i: nat)
    requires i <= |gs|
    requires forall k :: 0 <= k < i ==> gs[k].pathHash < hash
    requires forall k :: i <= k < |gs| ==> gs[k].pathHash >= hash
    ensures i == LowerBound(gs, hash)
  {
    var lb := LowerBound(gs, hash);
    assert i < |gs| ==> gs[i].pathHash >= hash;
    assert lb < |gs| ==> gs[lb].pathHash >= hash;
  }

  // ---------- lazy lookup equals the map ----------

  ghost predicate FoundIn(r: Result<Option<Entry>>, es: seq<Entry>, path: Bytes, j: nat, end: nat)
    requires j <= end <= |es|
  {
    match r
    case Err(_) => false
    case Ok(Some(e)) => e.path == path && e in es[j..end]
    case Ok(None) => forall k :: j <= k < end ==> es[k].path != path
  }

  lemma {:induction false} FindInRowsFinds(p: Primitives, es: seq<Entry>, build: u64, rows: seq<Row>, path: Bytes,
      j: nat, end: nat)
    requires j <= end <= |es| && Describes(rows, es) && AllCanonical(p, es)
    ensures |rows| == |es| && FoundIn(FindInRows(p, DirBytes(p, es, build), rows, path, j, end), es, path, j, end)
    decreases end - j
  {
    hide DecodeEntryAt, DirBytes, DescribesAt, Canonical, At;
    if j != end {
      RowDecodes(p, es, build, rows, j);
      FindInRowsFinds(p, es, build, rows, path, j + 1, end);
      assert es[j..end] == [es[j]] + es[j + 1..end];
    }
  }

  /** Scanning from range i finds the entry with this path if it lies in a range from i on. */
  lemma {:induction false} FindFromFinds(p: Primitives, es: seq<Entry>, build: u64, idx: Index, path: Bytes, i: nat)
    requires i <= |idx.ranges| && Describes(idx.rows, es) && AllCanonical(p, es)
    requires Sound(idx.rows, idx.ranges) && HashSorted(idx.ranges)
    requires i < |idx.ranges| ==> idx.ranges[i].pathHash >= p.fnv(path)
    ensures var r := FindFrom(p, DirBytes(p, es, build), idx, path, i);
            && r.Ok?
            && (r.value.Some? ==> r.value.value.path == path && r.value.value in es)
            && (r.value.None? ==> forall a :: i <= a < |idx.ranges| ==> NotInRange(es, idx.ranges[a], path))
    decreases |idx.ranges| - i
  {
    hide DirBytes, DescribesAt, Canonical, FindInRows;
    var gs := idx.ranges;
    if i == |gs| {
    } else if gs[i].pathHash != p.fnv(path) {
      forall a | i <= a < |gs|
        ensures NotInRange(es, gs[a], path)
      {
        assert a == i || gs[i].pathHash <= gs[a].pathHash;
        OtherHash(p, es, idx.rows, gs[a], path);
      }
    } else {
      var g := gs[i];
      assert SoundRange(idx.rows, g);
      DescribesLength(idx.rows, es);
      FindInRowsFinds(p, es, build, idx.rows, path, g.first, g.first + g.span);
      FindFromFinds(p, es, build, idx, path, i + 1);
      forall e | e in es[g.first..g.first + g.span]
        ensures e in es
      {
      }
    }
  }

  ghost predicate NotInRange(es: seq<Entry>, g: HashRange, path: Bytes)
  {
    forall k :: 0 <= k < |es| && InRange(g, k) ==> es[k].path != path
  }

  lemma OtherHash(p: Primitives, es: seq<Entry>, rows: seq<Row>, g: HashRange, path: Bytes)
    requires Describes(rows, es) && AllCanonical(p, es) && SoundRange(rows, g) && g.pathHash != p.fnv(path)
    ensures NotInRange(es, g, path)
  {
    hide EntryOffset, ChunksFit;
    forall k | 0 <= k < |es| && InRange(g, k)
      ensures es[k].path != path
    {
      assert DescribesAt(rows[k], es, k) && Canonical(p, es[k]);
    }
  }

  /** For any hash function, collisions included: searching the index answers as the map does, even
      when colliding paths are not adjacent and one hash owns several ranges. */
  lemma LookupAnswersAsMap(p: Primitives, es: seq<Entry>, build: u64, idx: Index, path: Bytes)
    requires Describes(idx.rows, es) && AllCanonical(p, es) && UniquePaths(es)
    requires Sound(idx.rows, idx.ranges) && HashSorted(idx.ranges) && Complete(|idx.rows|, idx.ranges)
    ensures Find(p, DirBytes(p, es, build), idx, path)
            == Ok(if path in MapOf(es) then Some(MapOf(es)[path]) else None)
  {
    hide DirBytes, Sound, HashSorted, DescribesAt, Canonical, FindFrom, LowerBound;
    var gs, hash := idx.ranges, p.fnv(path);
    var lo := LowerBound(gs, hash);
    FindFromFinds(p, es, build, idx, path, lo);
    MapOfMembers(es);
    if path in MapOf(es) {
      var k :| 0 <= k < |es| && es[k].path == path;
      DescribesLength(idx.rows, es);
      assert Covered(gs, k);
      var a :| 0 <= a < |gs| && InRange(gs[a], k);
      EntryRange(p, es, idx, k, a);
      assert lo <= a;
      assert !NotInRange(es, gs[a], path);
    }
  }

  lemma EntryRange(p: Primitives, es: seq<Entry>, idx: Index, k: nat, a: nat)
    requires Describes(idx.rows, es) && AllCanonical(p, es) && Sound(idx.rows, idx.ranges)
    requires k < |es| && a < |idx.ranges| && InRange(idx.ranges[a], k)
    ensures idx.ranges[a].pathHash == p.fnv(es[k].path)
  {
    hide EntryOffset, ChunksFit;
    assert SoundRange(idx.rows, idx.ranges[a]) && DescribesAt(idx.rows[k], es, k) && Canonical(p, es[k]);
  }

  /** The same for the index the builder makes of a decoded directory: a lookup through the index, a
      lookup in the map read through the index, and a lookup in the decoded map agree. */
  lemma LazyEqualsEager(p: Primitives, es: seq<Entry>, build: u64, rows: seq<Row>, off: u64, size: u64, crc: u32,
      gen: u64, path: Bytes)
    requires Describes(rows, es) && AllCanonical(p, es) && UniquePaths(es) && |rows| < U32
    ensures var b, idx := DirBytes(p, es, build), IndexOf(rows, off, size, crc, gen);
            && ReadRows(p, b, idx.rows) == Ok(MapOf(es))
            && Find(p, b, idx, path) == Ok(if path in MapOf(es) then Some(MapOf(es)[path]) else None)
  {
    hide DirBytes, Find, ReadRows, BuildRanges, Describes, Canonical, UniquePaths;
    BuiltRangesPartition(rows);
    LookupAnswersAsMap(p, es, build, IndexOf(rows, off, size, crc, gen), path);
    ReadRowsDescribed(p, es, build, rows, |es|);
    DescribesLength(rows, es);
    assert rows[..|es|] == rows && es[..|es|] == es;
  }
}

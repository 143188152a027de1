/** The skip-scan that lists a directory's entries for the index, and its agreement with the two decoders. */
module Rows {
  import opened Binary
  import opened Common
  import opened Directory
  import opened Catalog

  datatype Row = Row(entryOff: u32, entrySize: u32, pathHash: u64, pathOff: u32, pathSize: u32)

  /** The position of the path inside an entry whose fixed fields are h. */
  function PathPos(h: Entry): nat
  {
    HEAD_SIZE + REF_SIZE * h.chunkCount + h.metaSize
  }

  function ScanEntry(b: Bytes, off: nat): Result<Row>
    requires FOOTER_SIZE <= |b|
  {
    if off + HEAD_SIZE > |b| - FOOTER_SIZE then Err(InvalidFormat)
    else
      var h := ParseHead(b, off);
      if off + ParsedSize(h) > |b| - FOOTER_SIZE then Err(InvalidFormat)
      else if off >= U32 || ParsedSize(h) >= U32 || off + PathPos(h) >= U32 then Err(LimitExceeded)
      else Ok(Row(off, ParsedSize(h), h.pathHash, off + PathPos(h), h.pathSize))
  }

  function ScanFrom(b: Bytes, off: nat, n: nat): (r: Result<(seq<Row>, nat)>)
    requires FOOTER_SIZE <= |b|
    ensures r.Ok? ==> |r.value.0| == n
    decreases n
  {
    if n == 0 then Ok(([], off))
    else match ScanEntry(b, off)
      case Err(x) => Err(x)
      case Ok(row) =>
        match ScanFrom(b, off + row.entrySize, n - 1)
        case Err(x) => Err(x)
        case Ok(rest) => Ok(([row] + rest.0, rest.1))
  }

  /** `scanDirectoryEntriesForIndex`: it trusts no checksum but its own. */
  function Scan(p: Primitives, b: Bytes): Result<seq<Row>>
    requires FOOTER_SIZE <= |b|
  {
    match Envelope(p, b, p.crc(b[..|b| - FOOTER_SIZE]), |b|)
    case Err(x) => Err(x)
    case Ok(count) =>
      match ScanFrom(b, HEADER_SIZE, count)
      case Err(x) => Err(x)
      case Ok(s) => if s.1 + FOOTER_SIZE != |b| then Err(InvalidFormat) else Ok(s.0)
  }

  // ---------- rows of a printed directory ----------

  /** The offset of entry i in a directory printed from es. */
  function EntryOffset(es: seq<Entry>, i: nat): nat
    requires i <= |es|
  {
    HEADER_SIZE + |EntriesBytes(es[..i])|
  }

  lemma {:induction false} EntriesAppend(es: seq<Entry>, i: nat)
    requires i < |es|
    ensures EntriesBytes(es[..i + 1]) == EntriesBytes(es[..i]) + EntryBytes(es[i])
    decreases i
  {
    hide EntryBytes;
    if i == 0 {
      assert es[..1] == [es[0]] && es[..0] == [];
      assert EntriesBytes(es[..1]) == EntryBytes(es[0]) + EntriesBytes([]);
    } else {
      EntriesAppend(es[1..], i - 1);
      assert es[..i + 1] == [es[0]] + es[1..][..i] && es[..i] == [es[0]] + es[1..][..i - 1];
      assert es[..i + 1][1..] == es[1..][..i] && es[..i][1..] == es[1..][..i - 1];
    }
  }

  lemma {:induction false} EntriesSuffix(es: seq<Entry>, i: nat)
    requires i <= |es|
    ensures EntriesBytes(es) == EntriesBytes(es[..i]) + EntriesBytes(es[i..])
    decreases |es| - i
  {
    hide EntryBytes;
    if i == |es| {
      assert es[..i] == es && es[i..] == [];
    } else {
      EntriesSuffix(es, i + 1);
      EntriesAppend(es, i);
      assert es[i..][1..] == es[i + 1..];
    }
  }

  /** An entry at off can have a row: its offset, its size and the offset of its path need no more than 32 bits. */
  predicate FitsRow(e: Entry, off: nat)
  {
    off < U32 && EntrySize(e) < U32 && off + EntrySize(e) - |e.path| < U32
  }

  predicate RowsFit(es: seq<Entry>, i: nat)
  {
    forall j :: i <= j < |es| ==> FitsRow(es[j], EntryOffset(es, j))
  }

  function RowOf(e: Entry, off: nat): (r: Row)
    requires FitsRow(e, off) && CountsMatch(e)
  {
    Row(off, EntrySize(e), e.pathHash, off + EntrySize(e) - |e.path|, e.pathSize)
  }

  /** row describes entry i of es, and the rows tile the body: each starts where the previous one ends. */
  ghost predicate Describes(rows: seq<Row>, es: seq<Entry>)
  {
    |rows| == |es| && forall i :: 0 <= i < |es| ==> DescribesAt(rows[i], es, i)
  }

  ghost predicate DescribesAt(row: Row, es: seq<Entry>, i: nat)
    requires i < |es|
  {
    var e := es[i];
    && row.entryOff == EntryOffset(es, i)
    && row.entrySize == EntrySize(e) && row.entryOff + row.entrySize == EntryOffset(es, i + 1)
    && row.pathHash == e.pathHash && row.pathSize == |e.path|
    && row.pathOff + row.pathSize == row.entryOff + row.entrySize
  }

  /** Every entry of a printed directory lies at its offset. */
  lemma EntryLies(p: Primitives, es: seq<Entry>, build: u64, i: nat)
    requires i < |es|
    ensures var b := DirBytes(p, es, build);
            At(b, EntryOffset(es, i), EntryBytes(es[i]))
            && EntryOffset(es, i) + EntrySize(es[i]) == EntryOffset(es, i + 1)
            && EntryOffset(es, i + 1) + FOOTER_SIZE <= |b|
  {
    hide EntriesBytes, EntryBytes, DirHead, Footer, Envelope;
    var b := DirBytes(p, es, build);
    PrintedLayout(p, es, build);
    EntriesSuffix(es, i + 1);
    EntriesAppend(es, i);
    AtSplit(b, HEADER_SIZE, EntriesBytes(es[..i + 1]), EntriesBytes(es[i + 1..]));
    AtSplit(b, HEADER_SIZE, EntriesBytes(es[..i]), EntryBytes(es[i]));
  }

  lemma ScanEntryOfPrinted(b: Bytes, off: nat, e: Entry)
    requires CountsMatch(e) && At(b, off, EntryBytes(e)) && off + EntrySize(e) + FOOTER_SIZE <= |b|
    ensures ScanEntry(b, off) == if FitsRow(e, off) then Ok(RowOf(e, off)) else Err(LimitExceeded)
  {
    hide ParseHead, EntryBytes, HeadBytes, ParseChunks;
    PrintedParses(b, off, e);
    EntrySplit(b, off, e);
    HeadAt(b, off, e);
  }

  lemma {:induction false} ScanOfPrinted(p: Primitives, es: seq<Entry>, build: u64, i: nat)
    requires i <= |es| && FOOTER_SIZE <= |DirBytes(p, es, build)|
    requires forall j :: 0 <= j < |es| ==> CountsMatch(es[j])
    ensures var s := ScanFrom(DirBytes(p, es, build), EntryOffset(es, i), |es| - i);
            if RowsFit(es, i) then
              && s.Ok? && s.value.1 == EntryOffset(es, |es|)
              && forall k :: 0 <= k < |es| - i ==> DescribesAt(s.value.0[k], es, i + k)
            else s == Err(LimitExceeded)
    decreases |es| - i
  {
    hide DirBytes, EntryOffset, ScanEntry, EntryBytes, CountsMatch, EntrySize, FitsRow;
    var b := DirBytes(p, es, build);
    if i != |es| {
      var off, e := EntryOffset(es, i), es[i];
      EntryLies(p, es, build, i);
      ScanEntryOfPrinted(b, off, e);
      assert RowsFit(es, i) <==> FitsRow(e, off) && RowsFit(es, i + 1);
      ScanOfPrinted(p, es, build, i + 1);
      if !FitsRow(e, off) { return; }
      SizeOfRow(e, off);
      if !RowsFit(es, i + 1) { return; }
      var rest := ScanFrom(b, EntryOffset(es, i + 1), |es| - i - 1).value;
      var row := ScanEntry(b, off).value;
      RowDescribes(es, i, row);
      var all := [row] + rest.0;
      forall k | 0 <= k < |all|
        ensures DescribesAt(all[k], es, i + k)
      {
        if k != 0 { assert all[k] == rest.0[k - 1] && DescribesAt(rest.0[k - 1], es, i + 1 + (k - 1)); }
      }
    }
  }

  lemma RowDescribes(es: seq<Entry>, i: nat, row: Row)
    requires i < |es| && CountsMatch(es[i]) && EntryOffset(es, i) + EntrySize(es[i]) == EntryOffset(es, i + 1)
    requires FitsRow(es[i], EntryOffset(es, i))
    requires row == RowOf(es[i], EntryOffset(es, i))
    ensures DescribesAt(row, es, i) && row.entrySize == EntrySize(es[i])
  {
  }

  lemma SizeOfRow(e: Entry, off: nat)
    requires CountsMatch(e) && FitsRow(e, off)
    ensures RowOf(e, off).entrySize == EntrySize(e)
  {
  }

  /** The scan of a printed directory gives one row per entry, or fails because some row does not fit. */
  lemma ScanPrinted(p: Primitives, es: seq<Entry>, build: u64)
    requires |es| < U32 && |DirBytes(p, es, build)| < U64
    requires forall j :: 0 <= j < |es| ==> CountsMatch(es[j])
    ensures FOOTER_SIZE <= |DirBytes(p, es, build)|
    ensures var s := Scan(p, DirBytes(p, es, build));
            if RowsFit(es, 0) then s.Ok? && Describes(s.value, es) else s == Err(LimitExceeded)
  {
    hide DirHead, Footer, EntriesBytes, EntryBytes, Envelope, ScanFrom, CountsMatch, DescribesAt;
    var b := DirBytes(p, es, build);
    PrintedLayout(p, es, build);
    PrintedEnvelope(p, es, build);
    ScanOfPrinted(p, es, build, 0);
    assert es[..0] == [] && es[..|es|] == es;
    assert EntryOffset(es, 0) == HEADER_SIZE by { EmptyEntries(); }
  }

  lemma EmptyEntries()
    ensures EntriesBytes([]) == []
  {
  }

  // ---------- agreement of the three parsers ----------

  /** Whatever blob the full decoder accepts, the scan lists one row per decoded entry, unless one does not fit in 32
      bits, which is then the error.  The rows tile the body, and the lazy decoder returns from row i exactly decoded
      entry i. */
  lemma ThreeParsersAgree(p: Primitives, b: Bytes, crc: u32, size: nat)
    requires Decode(p, b, crc, size).Ok?
    ensures FOOTER_SIZE <= |b|
    ensures var es := Decode(p, b, crc, size).value.entries;
            if !RowsFit(es, 0) then Scan(p, b) == Err(LimitExceeded)
            else
              && Scan(p, b).Ok?
              && var rows := Scan(p, b).value;
              && Describes(rows, es)
              && (forall i :: 0 <= i < |es| ==> DecodeEntryAt(p, b, rows[i].entryOff, rows[i].entrySize) == Ok(es[i]))
              && (forall i :: 0 <= i < |es| ==> At(b, rows[i].pathOff, es[i].path))
              && EntryOffset(es, |es|) + FOOTER_SIZE == |b|
  {
    hide Decode, Canonical, DecodeEntryAt, Scan, DescribesAt, At, DirHead, Footer, EntriesBytes;
    var d := Decode(p, b, crc, size).value;
    DecodedIsPrinted(p, b, crc, size, d);
    var es := d.entries;
    forall j | 0 <= j < |es|
      ensures CountsMatch(es[j])
    {
      CanonicalCounts(p, es[j]);
    }
    ScanPrinted(p, es, d.buildUnix);
    if !RowsFit(es, 0) { return; }
    var rows := Scan(p, b).value;
    forall i | 0 <= i < |es|
      ensures DecodeEntryAt(p, b, rows[i].entryOff, rows[i].entrySize) == Ok(es[i])
      ensures At(b, rows[i].pathOff, es[i].path)
    {
      RowDecodes(p, es, d.buildUnix, rows, i);
    }
    assert es[..|es|] == es;
    PrintedLayout(p, es, d.buildUnix);
  }

  /** Below four gigabytes every row fits. */
  lemma SmallRowsFit(p: Primitives, es: seq<Entry>, build: u64)
    requires |DirBytes(p, es, build)| < U32
    ensures RowsFit(es, 0)
  {
    hide DirBytes, EntryOffset, EntryBytes;
    forall j | 0 <= j < |es|
      ensures FitsRow(es[j], EntryOffset(es, j))
    {
      EntryLies(p, es, build, j);
    }
  }

  lemma CanonicalCounts(p: Primitives, e: Entry)
    requires Canonical(p, e)
    ensures CountsMatch(e)
  {
  }

  lemma RowDecodes(p: Primitives, es: seq<Entry>, build: u64, rows: seq<Row>, i: nat)
    requires i < |es| && Describes(rows, es) && Canonical(p, es[i])
    ensures var b := DirBytes(p, es, build);
            && DecodeEntryAt(p, b, rows[i].entryOff, rows[i].entrySize) == Ok(es[i])
            && At(b, rows[i].pathOff, es[i].path)
  {
    hide DecodeEntryAt, At, Canonical, DirBytes, EntryBytes;
    var b := DirBytes(p, es, build);
    assert DescribesAt(rows[i], es, i);
    EntryLies(p, es, build, i);
    DecodeEntryAtIff(p, b, rows[i].entryOff, rows[i].entrySize, es[i]);
    EntrySplit(b, rows[i].entryOff, es[i]);
  }

  // ---------- building the map through the index ----------

  /** One step of `readEntriesByDirIndex`: the lazily decoded entry must match its row. */
  function ReadRow(p: Primitives, b: Bytes, row: Row): Result<Entry>
  {
    match DecodeEntryAt(p, b, row.entryOff, row.entrySize)
    case Err(x) => Err(x)
    case Ok(e) =>
      if e.pathHash != row.pathHash || e.pathSize != row.pathSize then Err(InvalidFormat)
      else if |b| < FOOTER_SIZE || row.pathOff + row.pathSize > |b| - FOOTER_SIZE then Err(InvalidFormat)
      else if b[row.pathOff..row.pathOff + row.pathSize] != e.path then Err(InvalidFormat)
      else Ok(e)
  }

  function ReadRows(p: Primitives, b: Bytes, rows: seq<Row>): Result<Paths>
  {
    if |rows| == 0 then Ok(map[])
    else
      var n := |rows| - 1;
      match ReadRows(p, b, rows[..n])
      case Err(x) => Err(x)
      case Ok(m) =>
        match ReadRow(p, b, rows[n])
        case Err(x) => Err(x)
        case Ok(e) => if e.path in m then Err(InvalidFormat) else Ok(m[e.path := e])
  }

  lemma ReadRowDescribed(p: Primitives, es: seq<Entry>, build: u64, rows: seq<Row>, i: nat)
    requires i < |es| && Describes(rows, es) && Canonical(p, es[i])
    ensures ReadRow(p, DirBytes(p, es, build), rows[i]) == Ok(es[i])
  {
    hide DecodeEntryAt, DirBytes, EntryBytes, EntryOffset;
    RowDecodes(p, es, build, rows, i);
    assert DescribesAt(rows[i], es, i);
    EntryLies(p, es, build, i);
  }

  /** Through the rows of a directory with distinct paths, the map is the decoded map. */
  lemma {:induction false} ReadRowsDescribed(p: Primitives, es: seq<Entry>, build: u64, rows: seq<Row>, n: nat)
    requires n <= |es| && Describes(rows, es) && AllCanonical(p, es) && UniquePaths(es)
    ensures ReadRows(p, DirBytes(p, es, build), rows[..n]) == Ok(MapOf(es[..n]))
    decreases n
  {
    hide ReadRow, DirBytes, Describes, Canonical;
    assert |rows| == |es| by { DescribesLength(rows, es); }
    if n != 0 {
      ReadRowsDescribed(p, es, build, rows, n - 1);
      ReadRowDescribed(p, es, build, rows, n - 1);
      assert rows[..n][..n - 1] == rows[..n - 1] && es[..n][..n - 1] == es[..n - 1];
      FreshPath(es, n - 1);
    }
  }

  /** Entry e, canonical, lies in the blob with exactly the extent that the row records, and the row has its hash and
      names its path. */
  ghost predicate RowNames(p: Primitives, b: Bytes, row: Row, e: Entry)
  {
    && Canonical(p, e) && At(b, row.entryOff, EntryBytes(e)) && row.entrySize == EntrySize(e)
    && HEADER_SIZE <= row.entryOff && row.entryOff + row.entrySize + FOOTER_SIZE <= |b|
    && row.pathHash == e.pathHash && row.pathSize == |e.path|
    && row.pathOff + row.pathSize + FOOTER_SIZE <= |b| && At(b, row.pathOff, e.path)
  }

  lemma ReadRowIff(p: Primitives, b: Bytes, row: Row, e: Entry)
    ensures ReadRow(p, b, row) == Ok(e) <==> RowNames(p, b, row, e)
  {
    hide DecodeEntryAt, EntryBytes;
    DecodeEntryAtIff(p, b, row.entryOff, row.entrySize, e);
    if Canonical(p, e) { CanonicalCounts(p, e); }
  }

  ghost predicate AllNamed(p: Primitives, b: Bytes, rows: seq<Row>, es: seq<Entry>)
  {
    |es| == |rows| && forall i :: 0 <= i < |rows| ==> RowNames(p, b, rows[i], es[i])
  }

  lemma {:induction false} RowsNamed(p: Primitives, b: Bytes, rows: seq<Row>, es: seq<Entry>)
    requires AllNamed(p, b, rows, es) && UniquePaths(es)
    ensures ReadRows(p, b, rows) == Ok(MapOf(es))
  {
    hide ReadRow, RowNames;
    if |rows| != 0 {
      var n := |rows| - 1;
      RowsNamed(p, b, rows[..n], es[..n]);
      ReadRowIff(p, b, rows[n], es[n]);
      FreshPath(es, n);
    }
  }

  lemma {:induction false} NamedRows(p: Primitives, b: Bytes, rows: seq<Row>) returns (es: seq<Entry>)
    requires ReadRows(p, b, rows).Ok?
    ensures AllNamed(p, b, rows, es) && UniquePaths(es) && ReadRows(p, b, rows) == Ok(MapOf(es))
  {
    hide ReadRow, RowNames;
    if |rows| == 0 {
      es := [];
    } else {
      var n := |rows| - 1;
      var e := ReadRow(p, b, rows[n]).value;
      var before := NamedRows(p, b, rows[..n]);
      ReadRowIff(p, b, rows[n], e);
      es := before + [e];
      assert es[..n] == before;
      MapOfMembers(before);
    }
  }

  /** The map is read through the rows exactly when each row names an entry, no two of them with one path; and then it
      is the map of these entries. */
  lemma ReadRowsIff(p: Primitives, b: Bytes, rows: seq<Row>, m: Paths)
    ensures ReadRows(p, b, rows) == Ok(m) <==> exists es :: AllNamed(p, b, rows, es) && UniquePaths(es) && m == MapOf(es)
  {
    hide ReadRows, AllNamed, UniquePaths;
    if ReadRows(p, b, rows) == Ok(m) { var es := NamedRows(p, b, rows); }
    forall es | AllNamed(p, b, rows, es) && UniquePaths(es)
      ensures ReadRows(p, b, rows) == Ok(MapOf(es))
    {
      RowsNamed(p, b, rows, es);
    }
  }

  lemma DescribesLength(rows: seq<Row>, es: seq<Entry>)
    requires Describes(rows, es)
    ensures |rows| == |es|
  {
  }

  lemma FreshPath(es: seq<Entry>, n: nat)
    requires n < |es| && UniquePaths(es)
    ensures es[n].path !in MapOf(es[..n])
  {
    assert UniquePaths(es[..n]) by {
      assert forall i :: 0 <= i < n ==> es[..n][i] == es[i];
    }
    MapOfMembers(es[..n]);
  }
}

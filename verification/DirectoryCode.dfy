/** The loops of the directory codec, each proved to compute its specification. */
module DirectoryCode {
  import opened Binary
  import opened Common
  import opened Directory
  import opened Catalog
  import opened Rows

  // ---------- decoding ----------

  /** References decoded so far, with those that remain. */
  ghost predicate ChunksSoFar(b: Bytes, start: nat, n: nat, cs: seq<ChunkRef>, prevEnd: u64)
    requires start + REF_SIZE * n <= |b|
  {
    && |cs| <= n && var all, rest := ParseChunks(b, start, n), ParseChunks(b, start + REF_SIZE * |cs|, n - |cs|);
    && all == cs + rest && ChunksInOrder(all, 0) == ChunksInOrder(rest, prevEnd)
  }

  lemma ChunksStart(b: Bytes, start: nat, n: nat)
    requires start + REF_SIZE * n <= |b|
    ensures ChunksSoFar(b, start, n, [], 0)
  {
    hide ChunksInOrder, ParseChunks;
  }

  lemma ChunksStep(b: Bytes, start: nat, n: nat, cs: seq<ChunkRef>, prevEnd: u64)
    requires start + REF_SIZE * n <= |b| && ChunksSoFar(b, start, n, cs, prevEnd) && |cs| < n
    ensures var c := ParseChunkRef(b, start + REF_SIZE * |cs|);
            if c.reserved == 0 && prevEnd <= c.rawOffset && c.rawOffset + c.rawSize <= MAX64
            then ChunksSoFar(b, start, n, cs + [c], c.rawOffset + c.rawSize)
            else !ChunksInOrder(ParseChunks(b, start, n), 0)
  {
    hide ParseChunkRef;
    var off := start + REF_SIZE * |cs|;
    var c, rest := ParseChunkRef(b, off), ParseChunks(b, off, n - |cs|);
    assert rest[0] == c && rest[1..] == ParseChunks(b, off + REF_SIZE, n - |cs| - 1);
    assert (cs + [c]) + rest[1..] == cs + rest;
  }

  lemma ChunksEnd(b: Bytes, start: nat, n: nat, cs: seq<ChunkRef>, prevEnd: u64)
    requires start + REF_SIZE * n <= |b| && ChunksSoFar(b, start, n, cs, prevEnd) && |cs| == n
    ensures ParseChunks(b, start, n) == cs && ChunksInOrder(cs, 0)
  {
    assert cs + [] == cs;
  }

  /** The chunk loop shared by both decoders, with its running end. */
  method DecodeChunks(b: Bytes, start: nat, n: nat) returns (r: Result<seq<ChunkRef>>)
    requires start + REF_SIZE * n <= |b|
    ensures var cs := ParseChunks(b, start, n); r == if ChunksInOrder(cs, 0) then Ok(cs) else Err(InvalidFormat)
  {
    hide ParseChunkRef, ParseChunks, ChunksInOrder, ChunksSoFar;
    var cs: seq<ChunkRef> := [];
    var prevEnd: u64, off := 0, start;
    ChunksStart(b, start, n);
    for j := 0 to n
      invariant off == start + REF_SIZE * j && |cs| == j && (j == 0 ==> prevEnd == 0)
      invariant ChunksSoFar(b, start, n, cs, prevEnd)
    {
      var c := ParseChunkRef(b, off);
      ChunksStep(b, start, n, cs, prevEnd);
      if c.reserved != 0 { return Err(InvalidFormat); }
      if j > 0 && c.rawOffset < prevEnd { return Err(InvalidFormat); }
      if c.rawOffset + c.rawSize > MAX64 { return Err(InvalidFormat); }
      prevEnd := c.rawOffset + c.rawSize;
      cs, off := cs + [c], off + REF_SIZE;
    }
    ChunksEnd(b, start, n, cs, prevEnd);
    r := Ok(cs);
  }

  /** The fields behind the head of an entry, checked as both decoders check them. */
  method DecodeFields(p: Primitives, b: Bytes, off: nat) returns (r: Result<Entry>)
    requires off + HEAD_SIZE <= |b| && off + ParsedSize(ParseHead(b, off)) <= |b|
    ensures var e := ParseFields(b, off); r == if AcceptedEntry(p, e) then Ok(e) else Err(InvalidFormat)
  {
    hide ParseChunks, ParseHead;
    var h := ParseHead(b, off);
    if h.chunkCount == 0 && h.fileSize != 0 {
      return Err(InvalidFormat);
    }
    var chunks := DecodeChunks(b, off + HEAD_SIZE, h.chunkCount);
    if chunks.Err? { return Err(InvalidFormat); }
    var cs := chunks.value;
    if h.fileSize > 0 && |cs| > 0 {
      var last := cs[|cs| - 1];
      if last.rawOffset + last.rawSize > MAX64 || last.rawOffset + last.rawSize != h.fileSize { return Err(InvalidFormat); }
    }
    var metaOff := off + HEAD_SIZE + REF_SIZE * h.chunkCount;
    var meta := b[metaOff..metaOff + h.metaSize];
    var path := b[metaOff + h.metaSize..metaOff + h.metaSize + h.pathSize];
    if path == [] || p.fnv(path) != h.pathHash { return Err(InvalidFormat); }
    r := Ok(h.(chunks := cs, meta := meta, path := path));
  }

  /** `DecodeDirectoryEntryAt`. */
  method DecodeDirectoryEntryAt(p: Primitives, b: Bytes, off: u32, size: u32) returns (r: Result<Entry>)
    ensures r == DecodeEntryAt(p, b, off, size)
  {
    hide ParseHead, ParseFields, AcceptedEntry;
    if |b| < HEADER_SIZE + FOOTER_SIZE { return Err(InvalidFormat); }
    if size < HEAD_SIZE || off < HEADER_SIZE { return Err(InvalidFormat); }
    if off + size > |b| - FOOTER_SIZE { return Err(InvalidFormat); }
    if ParsedSize(ParseHead(b, off)) != size { return Err(InvalidFormat); }
    r := DecodeFields(p, b, off);
  }

  /** The result of decoding entries in two stretches. */
  function Joined(done: seq<Entry>, rest: Result<(seq<Entry>, nat)>): Result<(seq<Entry>, nat)>
  {
    match rest
    case Err(x) => Err(x)
    case Ok(v) => Ok((done + v.0, v.1))
  }

  lemma JoinedStep(p: Primitives, b: Bytes, off: nat, n: nat, done: seq<Entry>)
    requires off <= |b| && n > 0
    ensures match DecodeEntry(p, b, off)
            case Err(x) => Joined(done, DecodeEntries(p, b, off, n)) == Err(x)
            case Ok(e) =>
              && off + ParsedSize(e) <= |b|
              && Joined(done, DecodeEntries(p, b, off, n))
                 == Joined(done + [e], DecodeEntries(p, b, off + ParsedSize(e), n - 1))
  {
    hide ParseChunks, ParseHead, AcceptedEntry;
    var d := DecodeEntry(p, b, off);
    if d.Ok? {
      var rest := DecodeEntries(p, b, off + ParsedSize(d.value), n - 1);
      if rest.Ok? { assert done + ([d.value] + rest.value.0) == (done + [d.value]) + rest.value.0; }
    }
  }

  /** `DecodeDirectory`: the envelope, then the entry loop with its reader cursor. */
  method DecodeDirectory(p: Primitives, b: Bytes, crc: u32, size: nat) returns (r: Result<Dir>)
    ensures r == Decode(p, b, crc, size)
  {
    hide ParseHead, ParseFields, AcceptedEntry, DecodeEntries;
    var envelope := Envelope(p, b, crc, size);
    if envelope.Err? { return Err(envelope.error); }
    var count := envelope.value;
    if count > (|b| - HEADER_SIZE - FOOTER_SIZE) / HEAD_SIZE { return Err(InvalidFormat); }
    var es: seq<Entry> := [];
    var cursor: nat := HEADER_SIZE;
    assert Joined([], DecodeEntries(p, b, HEADER_SIZE, count)) == DecodeEntries(p, b, HEADER_SIZE, count) by {
      var d := DecodeEntries(p, b, HEADER_SIZE, count);
      if d.Ok? { assert [] + d.value.0 == d.value.0; }
    }
    for i := 0 to count
      invariant cursor <= |b|
      invariant DecodeEntries(p, b, HEADER_SIZE, count) == Joined(es, DecodeEntries(p, b, cursor, count - i))
    {
      JoinedStep(p, b, cursor, count - i, es);
      if |b| - cursor < HEAD_SIZE + FOOTER_SIZE { return Err(InvalidFormat); }
      var need := ParsedSize(ParseHead(b, cursor)) + FOOTER_SIZE;
      if need > |b| - cursor { return Err(InvalidFormat); }
      var e := DecodeFields(p, b, cursor);
      if e.Err? { return Err(e.error); }
      es, cursor := es + [e.value], cursor + ParsedSize(e.value);
    }
    DecodedNone(p, b, cursor, es);
    if cursor != |b| - FOOTER_SIZE { return Err(InvalidFormat); }
    r := Ok(Dir(count, 0, Get64(b, 12), es));
  }

  lemma DecodedNone(p: Primitives, b: Bytes, off: nat, es: seq<Entry>)
    requires off <= |b|
    ensures Joined(es, DecodeEntries(p, b, off, 0)) == Ok((es, off))
  {
    assert es + [] == es;
  }

  // ---------- encoding ----------

  lemma {:induction false} ChunksSnoc(cs: seq<ChunkRef>, c: ChunkRef)
    ensures ChunksBytes(cs + [c]) == ChunksBytes(cs) + ChunkRefBytes(c)
  {
    hide ChunkRefBytes;
    if |cs| == 0 {
      assert [] + [c] == [c] && [c][1..] == [];
    } else {
      assert (cs + [c])[1..] == cs[1..] + [c];
      ChunksSnoc(cs[1..], c);
    }
  }

  /** One entry appended to the buffer, its derived fields computed on the way. */
  method AppendEntry(p: Primitives, buf: Bytes, e: Entry) returns (r: Bytes)
    ensures r == buf + EntryBytes(Derive(p, e))
  {
    hide HeadBytes, ChunkRefBytes, ChunksBytes;
    var d := e.(pathHash := p.fnv(e.path), pathSize := |e.path| % U32, metaSize := |e.meta| % U32, chunkCount := |e.chunks| % U32);
    var head, cleared := HeadBytes(d), ClearReserved(e.chunks);
    SameHead(d, Derive(p, e));
    r := buf + head;
    for j := 0 to |e.chunks|
      invariant r == buf + head + ChunksBytes(cleared[..j])
    {
      ChunksSnoc(cleared[..j], cleared[j]);
      assert cleared[..j] + [cleared[j]] == cleared[..j + 1];
      r := r + ChunkRefBytes(e.chunks[j].(reserved := 0));
    }
    assert cleared[..|cleared|] == cleared;
    r := r + e.meta + e.path;
    assert r == buf + (head + (ChunksBytes(cleared) + (e.meta + e.path)));
  }

  lemma SameHead(d: Entry, e: Entry)
    requires e == d.(chunks := e.chunks)
    ensures HeadBytes(d) == HeadBytes(e)
  {
  }

  /** `EncodeDirectory`: head, entries in path order, footer. */
  method EncodeDirectory(p: Primitives, d: Dir) returns (r: Result<(Bytes, u32)>)
    ensures r == Encode(p, d)
  {
    hide EntryBytes, EntriesBytes, Derive, DirHead, SortByPath;
    if d.flags != 0 { return Err(InvalidFormat); }
    var sorted := SortByPath(d.entries);
    var buf := DirHead(|sorted|, d.buildUnix);
    ghost var head, all := buf, DeriveAll(p, sorted);
    EmptyEntries();
    for i := 0 to |sorted|
      invariant buf == head + EntriesBytes(all[..i])
      invariant forall j :: 0 <= j < i ==> sorted[j].path != []
    {
      if sorted[i].path == [] { return Err(InvalidFormat); }
      EntriesAppend(all, i);
      buf := AppendEntry(p, buf, sorted[i]);
    }
    assert all[..|all|] == all;
    var crc := p.crc(buf);
    r := Ok((buf + (MAGIC_END + (LE(crc, 4) + LE(|buf| + FOOTER_SIZE, 8))), crc));
  }

  // ---------- the skip-scan and the map ----------

  lemma ScanStep(b: Bytes, off: nat, n: nat, done: seq<Row>)
    requires FOOTER_SIZE <= |b| && n > 0
    ensures match ScanEntry(b, off)
            case Err(x) => JoinedRows(done, ScanFrom(b, off, n)) == Err(x)
            case Ok(row) =>
              JoinedRows(done, ScanFrom(b, off, n)) == JoinedRows(done + [row], ScanFrom(b, off + row.entrySize, n - 1))
  {
    hide ScanEntry;
    var s := ScanEntry(b, off);
    if s.Ok? {
      var rest := ScanFrom(b, off + s.value.entrySize, n - 1);
      if rest.Ok? { assert done + ([s.value] + rest.value.0) == (done + [s.value]) + rest.value.0; }
    }
  }

  function JoinedRows(done: seq<Row>, rest: Result<(seq<Row>, nat)>): Result<(seq<Row>, nat)>
  {
    match rest
    case Err(x) => Err(x)
    case Ok(v) => Ok((done + v.0, v.1))
  }

  /** `scanDirectoryEntriesForIndex`: the cursor skips from entry to entry by the sizes in their heads. */
  method ScanDirectory(p: Primitives, b: Bytes) returns (r: Result<seq<Row>>)
    requires FOOTER_SIZE <= |b|
    ensures r == Scan(p, b)
  {
    hide ParseHead, ScanFrom, Envelope;
    var envelope := Envelope(p, b, p.crc(b[..|b| - FOOTER_SIZE]), |b|);
    if envelope.Err? { return Err(envelope.error); }
    EnvelopeIff(p, b, p.crc(b[..|b| - FOOTER_SIZE]), |b|, envelope.value);
    var count, rows: seq<Row> := envelope.value, [];
    var cursor: nat := HEADER_SIZE;
    assert JoinedRows([], ScanFrom(b, HEADER_SIZE, count)) == ScanFrom(b, HEADER_SIZE, count) by {
      var s := ScanFrom(b, HEADER_SIZE, count);
      if s.Ok? { assert [] + s.value.0 == s.value.0; }
    }
    for i := 0 to count
      invariant ScanFrom(b, HEADER_SIZE, count) == JoinedRows(rows, ScanFrom(b, cursor, count - i))
    {
      ScanStep(b, cursor, count - i, rows);
      if cursor + HEAD_SIZE > |b| - FOOTER_SIZE { return Err(InvalidFormat); }
      var h := ParseHead(b, cursor);
      var entrySize := HEAD_SIZE + REF_SIZE * h.chunkCount + h.metaSize + h.pathSize;
      if cursor + entrySize > |b| - FOOTER_SIZE { return Err(InvalidFormat); }
      var pathOff := cursor + HEAD_SIZE + REF_SIZE * h.chunkCount + h.metaSize;
      if cursor >= U32 || entrySize >= U32 || pathOff >= U32 { return Err(LimitExceeded); }
      rows := rows + [Row(cursor, entrySize, h.pathHash, pathOff, h.pathSize)];
      cursor := cursor + entrySize;
    }
    ScannedNone(b, cursor, rows);
    if cursor + FOOTER_SIZE != |b| { return Err(InvalidFormat); }
    r := Ok(rows);
  }

  lemma ScannedNone(b: Bytes, off: nat, rows: seq<Row>)
    requires FOOTER_SIZE <= |b|
    ensures JoinedRows(rows, ScanFrom(b, off, 0)) == Ok((rows, off))
  {
    assert rows + [] == rows;
  }

  lemma {:induction false} ReadRowsFails(p: Primitives, b: Bytes, rows: seq<Row>, i: nat)
    requires i <= |rows| && ReadRows(p, b, rows[..i]).Err?
    ensures ReadRows(p, b, rows) == ReadRows(p, b, rows[..i])
    decreases |rows|
  {
    hide ReadRow;
    if i == |rows| {
      assert rows[..i] == rows;
    } else {
      assert rows[..|rows| - 1][..i] == rows[..i];
      ReadRowsFails(p, b, rows[..|rows| - 1], i);
    }
  }

  /** The loop of `readEntriesByDirIndex`. */
  method ReadEntries(p: Primitives, b: Bytes, rows: seq<Row>) returns (r: Result<Paths>)
    ensures r == ReadRows(p, b, rows)
  {
    hide ReadRows, DecodeEntryAt;
    var entries: Paths := map[];
    NoRows(p, b);
    assert rows[..0] == [];
    for i := 0 to |rows|
      invariant ReadRows(p, b, rows[..i]) == Ok(entries)
    {
      var row := rows[i];
      ReadRowsStep(p, b, rows, i);
      var e := DecodeDirectoryEntryAt(p, b, row.entryOff, row.entrySize);
      if e.Err?
         || e.value.pathHash != row.pathHash || e.value.pathSize != row.pathSize
         || |b| < FOOTER_SIZE || row.pathOff + row.pathSize > |b| - FOOTER_SIZE
         || b[row.pathOff..row.pathOff + row.pathSize] != e.value.path
         || e.value.path in entries {
        ReadRowsFails(p, b, rows, i + 1);
        return if e.Err? then Err(e.error) else Err(InvalidFormat);
      }
      entries := entries[e.value.path := e.value];
    }
    assert rows[..|rows|] == rows;
    r := Ok(entries);
  }

  lemma NoRows(p: Primitives, b: Bytes)
    ensures ReadRows(p, b, []) == Ok(map[])
  {
  }

  lemma ReadRowsStep(p: Primitives, b: Bytes, rows: seq<Row>, i: nat)
    requires i < |rows| && ReadRows(p, b, rows[..i]).Ok?
    ensures ReadRows(p, b, rows[..i + 1]) == match ReadRow(p, b, rows[i])
              case Err(x) => Err(x)
              case Ok(e) =>
                var m := ReadRows(p, b, rows[..i]).value; if e.path in m then Err(InvalidFormat) else Ok(m[e.path := e])
  {
    hide ReadRow;
    assert rows[..i + 1][..i] == rows[..i];
  }
}

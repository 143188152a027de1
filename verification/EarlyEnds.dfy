/** Files of one entry that Open accepts although the entry cannot be read: what the checks of chunk references miss. */
module EarlyEnds {
  import opened Binary
  import opened Common
  import opened Directory
  import opened Catalog
  import opened Rows
  import opened HashRanges
  import opened DirIndex
  import opened Lookup
  import opened Header
  import opened Chunk
  import opened Snapshot
  import opened Journal
  import opened Disk
  import opened Commit
  import opened Open
  import opened EntryReader

  const PATH: Bytes := [97]

  // Both slots and one chunk header lie before the directory.
  const DIR_AT: u64 := 2 * SLOT + CHUNK_HEADER

  predicate Plain(c: ChunkRef)
  {
    c.reserved == 0 && c.rawOffset + c.rawSize <= MAX64
  }

  function EntryOf(p: Primitives, c: ChunkRef): Entry
    requires Plain(c)
  {
    Entry(p.fnv(PATH), 0, 0, 0, c.rawOffset + c.rawSize, 1, 0, 1, [c], [], PATH)
  }

  lemma EntryCanonical(p: Primitives, c: ChunkRef)
    requires Plain(c)
    ensures Canonical(p, EntryOf(p, c)) && AllCanonical(p, [EntryOf(p, c)]) && UniquePaths([EntryOf(p, c)])
    ensures MapOf([EntryOf(p, c)]) == map[PATH := EntryOf(p, c)]
  {
    var e := EntryOf(p, c);
    assert [c][1..] == [];
    assert [e][..0] == [];
    assert MapOf([]) == map[];
  }

  lemma DirLength(p: Primitives, c: ChunkRef)
    requires Plain(c)
    ensures |DirBytes(p, [EntryOf(p, c)], 0)| == 113
  {
    hide HeadBytes, ChunksBytes;
    var es := [EntryOf(p, c)];
    assert EntriesBytes([]) == [];
    assert es[1..] == [];
    assert EntriesBytes(es) == EntryBytes(es[0]) + EntriesBytes(es[1..]);
    BodySize(es, 0);
  }

  ghost function RowsOf(p: Primitives, c: ChunkRef): (rows: seq<Row>)
    requires Plain(c)
    ensures Describes(rows, [EntryOf(p, c)]) && |rows| == 1
  {
    hide DirBytes, Describes, EntryOf, Canonical, UniquePaths, MapOf, AllCanonical;
    var es := [EntryOf(p, c)];
    DirLength(p, c);
    EntryCanonical(p, c);
    CanonicalCounts(p, es[0]);
    SmallRowsFit(p, es, 0);
    ScanPrinted(p, es, 0);
    DescribesLength(Scan(p, DirBytes(p, es, 0)).value, es);
    Scan(p, DirBytes(p, es, 0)).value
  }

  ghost function IndexFor(p: Primitives, c: ChunkRef, gen: u64): (b: Bytes)
    requires Plain(c)
    ensures 0 < |b| < 500
  {
    RangesFewerThanRows(RowsOf(p, c));
    IndexBytes(p, IndexOf(RowsOf(p, c), DIR_AT, 113, p.crc(BodyBytes([EntryOf(p, c)], 0)), gen))
  }

  /** The header a commit over h0 would publish for the directory of this entry. */
  ghost function HeaderFor(p: Primitives, h0: Header, c: ChunkRef): Header
    requires Plain(c)
  {
    DirLength(p, c);
    var idx := IndexFor(p, c, NextGeneration(Generation(h0)));
    NextHeader(p, h0, 0, 0, DIR_AT, DirBytes(p, [EntryOf(p, c)], 0), p.crc(BodyBytes([EntryOf(p, c)], 0)),
               DIR_AT + 113, idx, DIR_AT + 113 + |idx|)
  }

  ghost function AnchorFor(p: Primitives, h0: Header, c: ChunkRef): Anchor
    requires Plain(c)
  {
    Anchor(HeaderFor(p, h0, c), [EntryOf(p, c)], 0, RowsOf(p, c))
  }

  /** Both slots, 16 bytes where a chunk header may lie, the directory and its index. */
  ghost function FileFor(p: Primitives, h0: Header, c: ChunkRef, gap: Bytes): Bytes
    requires Plain(c)
  {
    var head := HeaderBytes(HeaderFor(p, h0, c));
    head + (head + (gap + (DirBytes(p, [EntryOf(p, c)], 0) + IndexFor(p, c, NextGeneration(Generation(h0))))))
  }

  lemma FileParts(p: Primitives, h0: Header, c: ChunkRef, gap: Bytes)
    requires Plain(c) && |gap| == CHUNK_HEADER
    ensures var file := FileFor(p, h0, c, gap);
            && 2 * SLOT <= |file| < 1000 && file[..SLOT] == HeaderBytes(HeaderFor(p, h0, c)) && At(file, 2 * SLOT, gap)
            && At(file, DIR_AT, DirBytes(p, [EntryOf(p, c)], 0))
            && At(file, DIR_AT + 113, IndexFor(p, c, NextGeneration(Generation(h0))))
  {
    hide HeaderBytes, HeaderFor, DirBytes, EntryOf, IndexFor, NextGeneration, Generation;
    DirLength(p, c);
    var file, head := FileFor(p, h0, c, gap), HeaderBytes(HeaderFor(p, h0, c));
    var dir, idx := DirBytes(p, [EntryOf(p, c)], 0), IndexFor(p, c, NextGeneration(Generation(h0)));
    assert At(file, 0, file) by { assert file[0..0 + |file|] == file; }
    hide At;
    AtSplit(file, 0, head, head + (gap + (dir + idx)));
    AtSplit(file, SLOT, head, gap + (dir + idx));
    AtSplit(file, 2 * SLOT, gap, dir + idx);
    AtSplit(file, DIR_AT, dir, idx);
  }

  lemma SampleGrounded(p: Primitives, h0: Header, c: ChunkRef, gap: Bytes)
    requires Plain(c) && |gap| == CHUNK_HEADER && Branded(h0) && p.crc(IndexFor(p, c, NextGeneration(Generation(h0)))) != 0
    ensures Grounded(p, FileFor(p, h0, c, gap), AnchorFor(p, h0, c))
  {
    hide HeaderBytes, DirBytes, BodyBytes, EntryOf, IndexBytes, BuildRanges, NextHeader, NextGeneration, FileFor,
      Describes, AllCanonical, UniquePaths, CheckLayout, RowsOf, At, MapOf, Canonical, Get32, Get64;
    DirLength(p, c);
    EntryCanonical(p, c);
    FileParts(p, h0, c, gap);
    var gen, crc := NextGeneration(Generation(h0)), p.crc(BodyBytes([EntryOf(p, c)], 0));
    var idx := IndexFor(p, c, gen);
    NextHeaderStamped(p, h0, 0, 0, DIR_AT, DirBytes(p, [EntryOf(p, c)], 0), crc, DIR_AT + 113, idx, DIR_AT + 113 + |idx|);
  }

  /** Open accepts the file and finds the entry, whatever its reference says; only loading the whole map looks at the
      reference, and only at its recorded extent. */
  lemma SampleOpens(p: Primitives, h0: Header, c: ChunkRef, gap: Bytes)
    requires Plain(c) && |gap| == CHUNK_HEADER && Branded(h0) && p.crc(IndexFor(p, c, NextGeneration(Generation(h0)))) != 0
    ensures var file, a, e := FileFor(p, h0, c, gap), AnchorFor(p, h0, c), EntryOf(p, c);
            && OpenImage(p, file) == Ok(Opened(a.h, a.Loaded(p), false))
            && FindEntry(p, a.Loaded(p), PATH) == Ok(Some(e)) && e.chunks == [c] && e.fileSize == c.rawOffset + c.rawSize
            && Materialize(p, file, a.h, a.Loaded(p))
               == if RefInside(c, |file|) then Ok(map[PATH := e]) else Err(InvalidFormat)
  {
    hide Grounded, HeaderBytes, HeaderFor, RowsOf, FileFor, OpenImage, Materialize, LoadSnapshot, Find, DirBytes,
      IndexOf, Describes, AllCanonical, UniquePaths, MapOf, At, Canonical, IndexFor, NextGeneration, Generation;
    var file, a := FileFor(p, h0, c, gap), AnchorFor(p, h0, c);
    SampleGrounded(p, h0, c, gap);
    FileParts(p, h0, c, gap);
    GroundedOpens(p, file, a);
    assert Stamped(a.h) by { GroundedStamped(p, file, a); }
    GroundedLoads(p, file, a.h, a);
    EntryCanonical(p, c);
    LazyEqualsEager(p, a.es, 0, a.rows, a.h.dirOffset, a.h.dirSize, a.h.dirCRC, Generation(a.h), PATH);
    OneInside(p, c, |file|);
  }

  lemma GroundedStamped(p: Primitives, file: Bytes, a: Anchor)
    requires Grounded(p, file, a)
    ensures Stamped(a.h)
  {
  }

  lemma OneInside(p: Primitives, c: ChunkRef, size: nat)
    requires Plain(c)
    ensures ChunksInside(map[PATH := EntryOf(p, c)], size) <==> RefInside(c, size)
  {
    var m := map[PATH := EntryOf(p, c)];
    assert PATH in m && m[PATH].chunks == [c];
    if ChunksInside(m, size) { assert RefInside(m[PATH].chunks[0], size); }
  }

  /** A container that has just been opened may hold an entry of five bytes whose reference lies past the end of the
      file: Open accepts it, the lookup finds it, and it reads as empty without an error.  (Loading the map would have
      refused it.) */
  lemma LazyCutShort(p: Primitives, h0: Header, verify: bool)
    requires Branded(h0)
    requires p.crc(IndexFor(p, ChunkRef(0x1_0000_0000, 0, 5, 5, 0, 0), NextGeneration(Generation(h0)))) != 0
    ensures var c := ChunkRef(0x1_0000_0000, 0, 5, 5, 0, 0);
            var file, a, e := FileFor(p, h0, c, Zeros(CHUNK_HEADER)), AnchorFor(p, h0, c), EntryOf(p, c);
            && OpenImage(p, file) == Ok(Opened(a.h, a.Loaded(p), false))
            && FindEntry(p, a.Loaded(p), PATH) == Ok(Some(e)) && e.fileSize == 5
            && Tail(p, file, Limits(verify, 0, 0), e.chunks, 0, 0) == Stream([], EOF)
            && Materialize(p, file, a.h, a.Loaded(p)) == Err(InvalidFormat)
  {
    hide AnchorFor, FileFor, OpenImage, Materialize, FindEntry, IndexFor, NextGeneration, Generation;
    var c := ChunkRef(0x1_0000_0000, 0, 5, 5, 0, 0);
    SampleOpens(p, h0, c, Zeros(CHUNK_HEADER));
    FileParts(p, h0, c, Zeros(CHUNK_HEADER));
    CutShort(p, FileFor(p, h0, c, Zeros(CHUNK_HEADER)), c, verify);
  }

  lemma CutShort(p: Primitives, file: Bytes, c: ChunkRef, verify: bool)
    requires LoadRef(p, file, c, verify, 0) == Err(EOF)
    ensures Tail(p, file, Limits(verify, 0, 0), [c], 0, 0) == Stream([], EOF)
  {
    hide LoadRef;
  }

  /** Loading the map does not help against a recorded compressed size of zero: such an entry passes every check, and
      still reads as empty without an error if its record claims more bytes than the file has. */
  lemma CheckedCutShort(p: Primitives, h0: Header, verify: bool)
    requires Branded(h0)
    requires p.crc(IndexFor(p, ChunkRef(2 * SLOT, 0, 5, 0, 0, 0), NextGeneration(Generation(h0)))) != 0
    ensures var c := ChunkRef(2 * SLOT, 0, 5, 0, 0, 0);
            var file, a, e := FileFor(p, h0, c, ChunkHead(1, 0, 5, 0x4000_0000, 0)), AnchorFor(p, h0, c), EntryOf(p, c);
            && OpenImage(p, file) == Ok(Opened(a.h, a.Loaded(p), false))
            && Materialize(p, file, a.h, a.Loaded(p)) == Ok(map[PATH := e]) && e.fileSize == 5
            && Tail(p, file, Limits(verify, 0, 0), e.chunks, 0, 0) == Stream([], EOF)
  {
    hide AnchorFor, FileFor, OpenImage, Materialize, FindEntry, IndexFor, NextGeneration, Generation, ChunkHead, LoadRef,
      Tail, MapOf;
    var c, gap := ChunkRef(2 * SLOT, 0, 5, 0, 0, 0), ChunkHead(1, 0, 5, 0x4000_0000, 0);
    SampleOpens(p, h0, c, gap);
    FileParts(p, h0, c, gap);
    ClaimsTooMuch(p, FileFor(p, h0, c, gap), verify);
    CutShort(p, FileFor(p, h0, c, gap), c, verify);
  }

  lemma ClaimsTooMuch(p: Primitives, file: Bytes, verify: bool)
    requires At(file, 2 * SLOT, ChunkHead(1, 0, 5, 0x4000_0000, 0)) && |file| < 1000
    ensures LoadRef(p, file, ChunkRef(2 * SLOT, 0, 5, 0, 0, 0), verify, 0) == Err(EOF)
  {
    hide Get32, ChunkHead;
    ChunkHeadAt(file, 2 * SLOT, 1, 0, 5, 0x4000_0000, 0);
  }
}

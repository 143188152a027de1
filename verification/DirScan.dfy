/** The last rung of recovery: searching the whole file for directories and choosing the best of them. */
module DirScan {
  import opened Binary
  import opened Common
  import opened Directory
  import opened Catalog
  import opened Rows
  import opened Chunk
  import opened Header
  import opened Snapshot

  const MIN_DIR := HEADER_SIZE + FOOTER_SIZE

  // ---------- one candidate ----------

  /** Skips n entries of a directory at off by their recorded sizes; yields the cursor behind them. */
  function Walk(file: Bytes, off: nat, cursor: nat, n: nat): Option<nat>
    decreases n
  {
    if n == 0 then Some(cursor)
    else if off + cursor + HEAD_SIZE > |file| then None
    else
      var next := cursor + ParsedSize(ParseHead(file, off + cursor));
      if off + next + FOOTER_SIZE > |file| then None else Walk(file, off, next, n - 1)
  }

  /** `readDirectoryCandidateAt`: the directory's size is found from its entries, its checksum from its footer. */
  function CandidateAt(p: Primitives, file: Bytes, off: nat): Result<(Dir, nat, u32)>
  {
    if off + MIN_DIR > |file| || file[off..off + 4] != MAGIC_DIR || Get32(file, off + 8) != 0 then Err(InvalidFormat)
    else if Get32(file, off + 4) > (|file| - off - MIN_DIR) / HEAD_SIZE then Err(InvalidFormat)
    else match Walk(file, off, HEADER_SIZE, Get32(file, off + 4))
      case None => Err(InvalidFormat)
      case Some(cursor) =>
        var size := cursor + FOOTER_SIZE;
        if off + size > |file| then Err(InvalidFormat)
        else if size > MAX_BLOB then Err(LimitExceeded)
        else
          var blob := file[off..off + size];
          if blob[size - FOOTER_SIZE..size - FOOTER_SIZE + 4] != MAGIC_END then Err(InvalidFormat)
          else
            var crc := Get32(blob, size - FOOTER_SIZE + 4);
            if Get64(blob, size - FOOTER_SIZE + 8) != size then Err(InvalidFormat)
            else match Decode(p, blob, crc, size)
              case Err(x) => Err(x)
              case Ok(d) => Ok((d, size, crc))
  }

  lemma {:induction false} WalkPrinted(file: Bytes, off: nat, cursor: nat, es: seq<Entry>)
    requires At(file, off + cursor, EntriesBytes(es)) && off + cursor + |EntriesBytes(es)| + FOOTER_SIZE <= |file|
    requires forall i :: 0 <= i < |es| ==> CountsMatch(es[i])
    ensures Walk(file, off, cursor, |es|) == Some(cursor + |EntriesBytes(es)|)
    decreases |es|
  {
    hide EntryBytes, At, ParseFields, ParseHead, CountsMatch;
    if |es| != 0 {
      assert es == [es[0]] + es[1..];
      EntriesCons(file, off + cursor, es[0], es[1..]);
      PrintedParses(file, off + cursor, es[0]);
      WalkPrinted(file, off, cursor + EntrySize(es[0]), es[1..]);
    }
  }

  /** The candidate parser accepts at off exactly when some piece of the file there decodes as a directory
      of admissible size; the piece is unique, so nothing intact is overlooked and nothing else is found. */
  lemma CandidateIff(p: Primitives, file: Bytes, off: nat, d: Dir, size: nat, crc: u32)
    ensures CandidateAt(p, file, off) == Ok((d, size, crc)) <==>
            off + size <= |file| && size <= MAX_BLOB && Decode(p, file[off..off + size], crc, size) == Ok(d)
  {
    hide Decode, Walk, Get32, Get64;
    if off + size <= |file| && size <= MAX_BLOB && Decode(p, file[off..off + size], crc, size) == Ok(d) {
      DecodableIsCandidate(p, file, off, d, size, crc);
    }
  }

  lemma DecodableIsCandidate(p: Primitives, file: Bytes, off: nat, d: Dir, size: nat, crc: u32)
    requires off + size <= |file| && size <= MAX_BLOB && Decode(p, file[off..off + size], crc, size) == Ok(d)
    ensures CandidateAt(p, file, off) == Ok((d, size, crc))
  {
    hide Decode, EntriesBytes, Canonical, CountsMatch, DirHead, Walk, Footer, Get32, Get64, LE;
    var blob := file[off..off + size];
    var es := d.entries;
    DecodedIsPrinted(p, blob, crc, size, d);
    PrintedLayout(p, es, d.buildUnix);
    forall i | 0 <= i < |es|
      ensures CountsMatch(es[i])
    {
      CanonicalCounts(p, es[i]);
    }
    AtWithin(file, off, blob, HEADER_SIZE, EntriesBytes(es));
    AtWithin(file, off, blob, 0, DirHead(|es|, d.buildUnix));
    WalkPrinted(file, off, HEADER_SIZE, es);
    EntriesBytesSize(es);
    DirHeadFields(file, off, |es|, d.buildUnix);
    FooterFields(p, blob, size - FOOTER_SIZE, BodyBytes(es, d.buildUnix));
  }

  lemma DirHeadFields(file: Bytes, off: nat, count: u32, build: u64)
    requires At(file, off, DirHead(count, build))
    ensures off + HEADER_SIZE <= |file| && file[off..off + 4] == MAGIC_DIR
    ensures Get32(file, off + 4) == count && Get32(file, off + 8) == 0
  {
    hide LE, Get32;
    AtSplit(file, off, MAGIC_DIR, LE(count, 4) + (LE(0, 4) + LE(build, 8)));
    AtSplit(file, off + 4, LE(count, 4), LE(0, 4) + LE(build, 8));
    AtSplit(file, off + 8, LE(0, 4), LE(build, 8));
    Get32At(file, off + 4, count);
    Get32At(file, off + 8, 0);
  }

  lemma FooterFields(p: Primitives, blob: Bytes, foot: nat, body: Bytes)
    requires At(blob, foot, Footer(p, body)) && |body| + FOOTER_SIZE < U64
    ensures foot + FOOTER_SIZE <= |blob| && blob[foot..foot + 4] == MAGIC_END
    ensures Get32(blob, foot + 4) == p.crc(body) && Get64(blob, foot + 8) == |body| + FOOTER_SIZE
  {
    hide LE, Get32, Get64;
    AtSplit(blob, foot, MAGIC_END, LE(p.crc(body), 4) + LE(|body| + FOOTER_SIZE, 8));
    AtSplit(blob, foot + 4, LE(p.crc(body), 4), LE(|body| + FOOTER_SIZE, 8));
    Get32At(blob, foot + 4, p.crc(body));
    Get64At(blob, foot + 8, |body| + FOOTER_SIZE);
  }

  // ---------- readability and score ----------

  /** All references from i on read back and follow each other in raw order; yields the end of the last. */
  function ReadableFrom(p: Primitives, file: Bytes, cs: seq<ChunkRef>, i: nat, endRaw: u64): Option<u64>
    requires i <= |cs|
    decreases |cs| - i
  {
    if i == |cs| then Some(endRaw)
    else if LoadRef(p, file, cs[i], true, 0).Err? || (i > 0 && cs[i].rawOffset < endRaw) then None
    else if cs[i].rawOffset + cs[i].rawSize > MAX64 then None
    else ReadableFrom(p, file, cs, i + 1, cs[i].rawOffset + cs[i].rawSize)
  }

  /** `entryReadableAt`. */
  predicate Readable(p: Primitives, file: Bytes, e: Entry)
  {
    if |e.chunks| == 0 then e.fileSize == 0 else ReadableFrom(p, file, e.chunks, 0, 0) == Some(e.fileSize)
  }

  function CountReadable(p: Primitives, file: Bytes, es: seq<Entry>): (n: nat)
    ensures n <= |es|
  {
    if |es| == 0 then 0
    else CountReadable(p, file, es[..|es| - 1]) + if Readable(p, file, es[|es| - 1]) then 1 else 0
  }

  /** All of an entry can be read: every reference loads under verification, each begins at or behind the end of the one
      before, none wraps around, and the last ends at the size of the file. */
  ghost predicate AllReads(p: Primitives, file: Bytes, e: Entry)
  {
    && (forall i :: 0 <= i < |e.chunks| ==> LoadRef(p, file, e.chunks[i], true, 0).Ok?)
    && (forall i :: 0 <= i < |e.chunks| ==> e.chunks[i].rawOffset + e.chunks[i].rawSize <= MAX64)
    && (forall i :: 0 < i < |e.chunks| ==> e.chunks[i - 1].rawOffset + e.chunks[i - 1].rawSize <= e.chunks[i].rawOffset)
    && e.fileSize == if |e.chunks| == 0 then 0 else
                       e.chunks[|e.chunks| - 1].rawOffset + e.chunks[|e.chunks| - 1].rawSize
  }

  /** Reference j loads and follows an end at endRaw. */
  predicate ReadsAt(p: Primitives, file: Bytes, cs: seq<ChunkRef>, j: nat, endRaw: nat)
    requires j < |cs|
  {
    LoadRef(p, file, cs[j], true, 0).Ok? && cs[j].rawOffset + cs[j].rawSize <= MAX64 && (j > 0 ==> endRaw <= cs[j].rawOffset)
  }

  predicate ReadsBehind(p: Primitives, file: Bytes, cs: seq<ChunkRef>, j: nat)
    requires 0 < j < |cs|
  {
    ReadsAt(p, file, cs, j, cs[j - 1].rawOffset + cs[j - 1].rawSize)
  }

  ghost predicate ReadsFrom(p: Primitives, file: Bytes, cs: seq<ChunkRef>, i: nat, endRaw: nat)
    requires i <= |cs|
  {
    (i < |cs| ==> ReadsAt(p, file, cs, i, endRaw)) && forall j :: i < j < |cs| ==> ReadsBehind(p, file, cs, j)
  }

  lemma ReadsStep(p: Primitives, file: Bytes, cs: seq<ChunkRef>, i: nat, endRaw: nat)
    requires i < |cs|
    ensures ReadsFrom(p, file, cs, i, endRaw) <==>
              ReadsAt(p, file, cs, i, endRaw) && ReadsFrom(p, file, cs, i + 1, cs[i].rawOffset + cs[i].rawSize)
  {
    hide ReadsAt;
    assert i + 1 < |cs| ==> (ReadsBehind(p, file, cs, i + 1) <==> ReadsAt(p, file, cs, i + 1, cs[i].rawOffset + cs[i].rawSize));
  }

  lemma {:induction false} ReadableFromIff(p: Primitives, file: Bytes, cs: seq<ChunkRef>, i: nat, endRaw: u64)
    requires i <= |cs|
    ensures var r := ReadableFrom(p, file, cs, i, endRaw);
            && (r.Some? <==> ReadsFrom(p, file, cs, i, endRaw))
            && (r.Some? ==> r.value == if i == |cs| then endRaw else cs[|cs| - 1].rawOffset + cs[|cs| - 1].rawSize)
    decreases |cs| - i
  {
    hide LoadRef;
    if i < |cs| {
      hide ReadsFrom;
      ReadsStep(p, file, cs, i, endRaw);
      var end := cs[i].rawOffset + cs[i].rawSize;
      if end <= MAX64 { ReadableFromIff(p, file, cs, i + 1, end); }
    }
  }

  /** An entry counts as readable exactly when all of it can be read. */
  lemma ReadableIff(p: Primitives, file: Bytes, e: Entry)
    ensures Readable(p, file, e) <==> AllReads(p, file, e)
  {
    hide LoadRef;
    ReadableFromIff(p, file, e.chunks, 0, 0);
    var cs := e.chunks;
    if ReadsFrom(p, file, cs, 0, 0) {
      forall i | 0 <= i < |cs|
        ensures LoadRef(p, file, cs[i], true, 0).Ok? && cs[i].rawOffset + cs[i].rawSize <= MAX64
        ensures i > 0 ==> cs[i - 1].rawOffset + cs[i - 1].rawSize <= cs[i].rawOffset
      {
        if i > 0 { assert ReadsBehind(p, file, cs, i); }
      }
    }
  }

  /** The places of a directory's readable entries. */
  ghost function ReadablePlaces(p: Primitives, file: Bytes, es: seq<Entry>): set<nat>
  {
    set i: nat | i < |es| && AllReads(p, file, es[i])
  }

  lemma {:induction false} CountReadableIs(p: Primitives, file: Bytes, es: seq<Entry>)
    ensures CountReadable(p, file, es) == |ReadablePlaces(p, file, es)| <= |es|
  {
    hide AllReads, Readable;
    if |es| != 0 {
      var n := |es| - 1;
      CountReadableIs(p, file, es[..n]);
      ReadableIff(p, file, es[n]);
      var before := ReadablePlaces(p, file, es[..n]);
      assert ReadablePlaces(p, file, es) == if AllReads(p, file, es[n]) then before + {n} else before;
    }
  }

  datatype Score = Score(build: u64, off: u64, total: u32, readable: u32)

  /** `betterRecoveryDirectoryScore`; the difference of the counters is taken modulo 2^32. */
  predicate Better(a: Score, b: Score)
  {
    if a.readable != b.readable then a.readable > b.readable
    else
      var aUn, bUn := (a.total - a.readable) % U32, (b.total - b.readable) % U32;
      if aUn != bUn then aUn < bUn
      else if a.build != b.build then a.build > b.build
      else a.off > b.off
  }

  predicate SaneScore(s: Score) { s.readable <= s.total }

  /** The preference is a strict total order on the scores of different offsets. */
  lemma BetterIsStrictTotal(a: Score, b: Score, c: Score)
    requires SaneScore(a) && SaneScore(b) && SaneScore(c)
    ensures !(Better(a, b) && Better(b, a)) && !Better(a, a)
    ensures Better(a, b) && Better(b, c) ==> Better(a, c)
    ensures a != b ==> Better(a, b) || Better(b, a)
  {
  }

  predicate RefsInside(es: seq<Entry>, size: nat)
  {
    forall i, j :: 0 <= i < |es| && 0 <= j < |es[i].chunks| ==> RefInside(es[i].chunks[j], size)
  }

  function RecoveredHeader(off: u64, size: u64, crc: u32, build: u64): Header
  {
    Header(MAGIC_HEADER, 1, SLOT, 0, Zeros(16), build, off, size, crc, 0, 0, Zeros(56))
  }

  /** `buildHeaderFromDirectoryAt`. */
  function ScoredAt(p: Primitives, file: Bytes, off: nat): Option<(Header, Score)>
    requires |file| < U64
  {
    match CandidateAt(p, file, off)
    case Err(_) => None
    case Ok((d, size, crc)) =>
      if !RefsInside(d.entries, |file|) || off >= |file| || size >= U64 || |d.entries| >= U32 then None
      else
        var h := RecoveredHeader(off, size, crc, d.buildUnix);
        var blob := ReadDirBlob(file, h);
        if blob.Err? || Decode(p, blob.value, crc, size).Err? then None
        else Some((h, Score(d.buildUnix, off, |d.entries|, CountReadable(p, file, d.entries))))
  }

  /** A directory is considered exactly when it decodes, its references lie in the file, and it does not
      start at offset zero. */
  lemma ScoredIff(p: Primitives, file: Bytes, off: nat)
    requires |file| < U64
    ensures ScoredAt(p, file, off).Some? <==>
            off > 0 && CandidateAt(p, file, off).Ok? && RefsInside(CandidateAt(p, file, off).value.0.entries, |file|)
    ensures ScoredAt(p, file, off).Some? ==>
            var (h, s) := ScoredAt(p, file, off).value;
            && s.off == off == h.dirOffset && SaneScore(s)
            && h.dirSize == CandidateAt(p, file, off).value.1 && h.dirCRC == CandidateAt(p, file, off).value.2
  {
    hide Decode, CandidateAt, RefsInside, CountReadable;
    if CandidateAt(p, file, off).Ok? {
      var (d, size, crc) := CandidateAt(p, file, off).value;
      CandidateIff(p, file, off, d, size, crc);
      DecodedIsPrinted(p, file[off..off + size], crc, size, d);
    }
  }

  // ---------- all candidates ----------

  predicate MagicAt(b: Bytes, o: nat)
  {
    o + 4 <= |b| && b[o..o + 4] == MAGIC_DIR
  }

  /** The offsets below n at which the magic occurs, in ascending order. */
  function MagicOffsets(b: Bytes, n: nat): (r: seq<nat>)
    ensures forall o :: o in r <==> 0 <= o < n && MagicAt(b, o)
    ensures forall i, j :: 0 <= i < j < |r| ==> r[i] < r[j]
  {
    if n == 0 then []
    else
      var r := MagicOffsets(b, n - 1);
      if MagicAt(b, n - 1) then
        assert forall i :: 0 <= i < |r| ==> r[i] in r;
        r + [n - 1]
      else r
  }

  /** Keeps the better of the best so far and the candidate at off. */
  function Prefer(p: Primitives, file: Bytes, best: Option<(Header, Score)>, off: nat): Option<(Header, Score)>
    requires |file| < U64
  {
    match ScoredAt(p, file, off)
    case None => best
    case Some(c) => if best.None? || Better(c.1, best.value.1) then Some(c) else best
  }

  function BestOf(p: Primitives, file: Bytes, offs: seq<nat>): Option<(Header, Score)>
    requires |file| < U64
  {
    if |offs| == 0 then None else Prefer(p, file, BestOf(p, file, offs[..|offs| - 1]), offs[|offs| - 1])
  }

  /** `recoverHeaderFromDirectoryScan`. */
  function ScanForDirectory(p: Primitives, file: Bytes): Result<Header>
    requires |file| < U64
  {
    if |file| < MIN_DIR then Err(InvalidFormat)
    else match BestOf(p, file, MagicOffsets(file, |file|))
      case None => Err(InvalidFormat)
      case Some(c) => Ok(c.0)
  }

  ghost predicate BestAmong(p: Primitives, file: Bytes, best: Option<(Header, Score)>, offs: seq<nat>)
    requires |file| < U64
  {
    match best
    case None => forall o :: o in offs ==> ScoredAt(p, file, o).None?
    case Some(c) =>
      && c.1.off in offs && ScoredAt(p, file, c.1.off) == Some(c)
      && forall o :: o in offs && ScoredAt(p, file, o).Some? && o != c.1.off ==>
           Better(c.1, ScoredAt(p, file, o).value.1)
  }

  lemma {:induction false} BestOfIsBest(p: Primitives, file: Bytes, offs: seq<nat>)
    requires |file| < U64
    ensures BestAmong(p, file, BestOf(p, file, offs), offs)
  {
    hide ScoredAt, Better, SaneScore;
    if |offs| != 0 {
      var n := |offs| - 1;
      BestOfIsBest(p, file, offs[..n]);
      var before, last := BestOf(p, file, offs[..n]), offs[n];
      assert offs == offs[..n] + [last];
      PreferKeepsBest(p, file, before, offs[..n], last);
      assert forall o :: o in offs <==> o in offs[..n] || o == last;
    }
  }

  lemma PreferKeepsBest(p: Primitives, file: Bytes, before: Option<(Header, Score)>, offs: seq<nat>, last: nat)
    requires |file| < U64 && BestAmong(p, file, before, offs)
    ensures BestAmong(p, file, Prefer(p, file, before, last), offs + [last])
  {
    hide ScoredAt, Better, SaneScore;
    ScoredIff(p, file, last);
    if before.Some? && ScoredAt(p, file, last).Some? {
      var b, c := before.value.1, ScoredAt(p, file, last).value.1;
      ScoredIff(p, file, b.off);
      BetterIsStrictTotal(b, c, b);
      forall o | o in offs && ScoredAt(p, file, o).Some?
        ensures Better(c, b) && o != b.off ==> Better(c, ScoredAt(p, file, o).value.1)
      {
        ScoredIff(p, file, o);
        BetterIsStrictTotal(c, b, ScoredAt(p, file, o).value.1);
      }
    }
  }

  /** The scan's result is the best of all directories in the file, wherever they lie; it fails only when
      there is none. */
  lemma ScanFindsBest(p: Primitives, file: Bytes)
    requires |file| < U64
    ensures match ScanForDirectory(p, file)
            case Err(e) => e == InvalidFormat && forall o: nat :: ScoredAt(p, file, o).None?
            case Ok(h) =>
              && ScoredAt(p, file, h.dirOffset).Some? && ScoredAt(p, file, h.dirOffset).value.0 == h
              && forall o: nat :: ScoredAt(p, file, o).Some? && o != h.dirOffset ==>
                   Better(ScoredAt(p, file, h.dirOffset).value.1, ScoredAt(p, file, o).value.1)
  {
    hide Better;
    var offs := MagicOffsets(file, |file|);
    BestOfIsBest(p, file, offs);
    forall o: nat | ScoredAt(p, file, o).Some?
      ensures o in offs && |file| >= MIN_DIR
    {
      ScoredIff(p, file, o);
    }
    if ScanForDirectory(p, file).Ok? {
      ScoredIff(p, file, BestOf(p, file, offs).value.1.off);
    }
  }

  // ---------- which directory is chosen ----------

  /** The size bytes from o on are those of directory d, with this checksum. */
  ghost predicate DirectoryAt(p: Primitives, file: Bytes, o: nat, size: nat, crc: u32, d: Dir)
  {
    o + size <= |file| && size <= MAX_BLOB && Decode(p, file[o..o + size], crc, size) == Ok(d)
  }

  /** Directory d lies at o, not at the very start, and all extents its references record are inside the file. */
  ghost predicate Considered(p: Primitives, file: Bytes, o: nat, d: Dir)
  {
    && o > 0 && (exists size, crc :: DirectoryAt(p, file, o, size, crc, d))
    && forall i, j :: 0 <= i < |d.entries| && 0 <= j < |d.entries[i].chunks| ==>
         d.entries[i].chunks[j].chunkOffset + CHUNK_HEADER + d.entries[i].chunks[j].compSize <= |file|
  }

  /** d at o is at least as good as c at u: more entries that can be read; or as many and fewer that cannot; or as many
      of those and a later build; or the same build time and no lower place. */
  ghost predicate AtLeastAsGood(p: Primitives, file: Bytes, o: nat, d: Dir, u: nat, c: Dir)
  {
    var n, m := |ReadablePlaces(p, file, d.entries)|, |ReadablePlaces(p, file, c.entries)|;
    var lost, missed := |d.entries| - n, |c.entries| - m;
    m < n || (m == n && (lost < missed || (lost == missed &&
      (c.buildUnix < d.buildUnix || (c.buildUnix == d.buildUnix && u <= o)))))
  }

  /** h is the header that the scan makes up for directory d at o: only the directory's tuple and time are taken from the
      file. */
  ghost predicate MadeUp(p: Primitives, file: Bytes, h: Header, o: nat, d: Dir)
  {
    && h.dirOffset == o && DirectoryAt(p, file, o, h.dirSize, h.dirCRC, d) && h.created == d.buildUnix
    && h.magic == MAGIC_HEADER && h.version == 1 && h.headerSize == SLOT
    && h.flags == 0 && h.journalOffset == 0 && h.journalSize == 0 && h.uuid == Zeros(16) && h.reserved == Zeros(56)
  }

  /** The scan considers d at o. */
  ghost predicate Scored(p: Primitives, file: Bytes, o: nat, d: Dir)
    requires |file| < U64
  {
    ScoredAt(p, file, o).Some? && CandidateAt(p, file, o).Ok? && CandidateAt(p, file, o).value.0 == d
  }

  lemma ScoredDirectory(p: Primitives, file: Bytes, o: nat, d: Dir)
    requires |file| < U64
    ensures Considered(p, file, o, d) <==> Scored(p, file, o, d)
  {
    hide Decode, CandidateAt, ScoredAt;
    ScoredIff(p, file, o);
    if CandidateAt(p, file, o).Ok? {
      var (c, size, crc) := CandidateAt(p, file, o).value;
      CandidateIff(p, file, o, c, size, crc);
      assert DirectoryAt(p, file, o, size, crc, c);
    }
    if Considered(p, file, o, d) {
      var size, crc :| DirectoryAt(p, file, o, size, crc, d);
      CandidateIff(p, file, o, d, size, crc);
    }
  }

  lemma ScoreIs(p: Primitives, file: Bytes, o: nat, d: Dir)
    requires |file| < U64 && Scored(p, file, o, d)
    ensures MadeUp(p, file, ScoredAt(p, file, o).value.0, o, d)
    ensures o < U64 && |d.entries| < U32 && |ReadablePlaces(p, file, d.entries)| <= |d.entries|
    ensures ScoredAt(p, file, o).value.1 == Score(d.buildUnix, o, |d.entries|, |ReadablePlaces(p, file, d.entries)|)
  {
    hide Decode, CandidateAt, CountReadable, ReadablePlaces, Zeros, ReadDirBlob, RefsInside;
    var (c, size, crc) := CandidateAt(p, file, o).value;
    CandidateIff(p, file, o, c, size, crc);
    CountReadableIs(p, file, c.entries);
    DecodedCount(p, file[o..o + size], crc, size, c);
  }

  lemma DecodedCount(p: Primitives, b: Bytes, crc: u32, size: nat, d: Dir)
    requires Decode(p, b, crc, size) == Ok(d)
    ensures d.entryCount == |d.entries| < U32 && |b| == size < U64
  {
    hide Decode;
    DecodedIsPrinted(p, b, crc, size, d);
  }

  /** Of all directories in the file the scan chooses the one with the most readable entries; among those with equally
      many the one with the fewest others; then the latest; then the highest.  It fails only if there is none. */
  lemma ScanFindsMostReadable(p: Primitives, file: Bytes)
    requires |file| < U64
    ensures match ScanForDirectory(p, file)
            case Err(e) => e == InvalidFormat && forall o, d :: !Considered(p, file, o, d)
            case Ok(h) => exists d :: Considered(p, file, h.dirOffset, d) && MadeUp(p, file, h, h.dirOffset, d)
                            && forall u, c :: Considered(p, file, u, c) ==> AtLeastAsGood(p, file, h.dirOffset, d, u, c)
  {
    hide ScanForDirectory, Considered, MadeUp, ScoredAt, CandidateAt, ReadablePlaces;
    ScanFindsBest(p, file);
    forall u, c | Considered(p, file, u, c)
      ensures Scored(p, file, u, c)
    {
      ScoredDirectory(p, file, u, c);
    }
    if ScanForDirectory(p, file).Ok? {
      var h := ScanForDirectory(p, file).value;
      var o := h.dirOffset;
      ScoredIff(p, file, o);
      var d := CandidateAt(p, file, o).value.0;
      ScoredDirectory(p, file, o, d);
      ScoreIs(p, file, o, d);
      forall u, c | Considered(p, file, u, c)
        ensures AtLeastAsGood(p, file, o, d, u, c)
      {
        ScoreIs(p, file, u, c);
      }
    }
  }

  // ---------- the windowed loop ----------

  lemma {:induction false} GapOffsets(b: Bytes, lo: nat, hi: nat)
    requires lo <= hi && forall o :: lo <= o < hi ==> !MagicAt(b, o)
    ensures MagicOffsets(b, hi) == MagicOffsets(b, lo)
    decreases hi
  {
    if lo < hi { GapOffsets(b, lo, hi - 1); }
  }

  /** The first occurrence of the magic in w at or after `from`. */
  method FirstIndex(w: Bytes, from: nat) returns (r: Option<nat>)
    requires from <= |w|
    ensures r.None? ==> forall o :: from <= o <= |w| ==> !MagicAt(w, o)
    ensures r.Some? ==> from <= r.value && MagicAt(w, r.value) && forall o :: from <= o < r.value ==> !MagicAt(w, o)
  {
    var o := from;
    while o + 4 <= |w|
      invariant from <= o <= |w| && forall k :: from <= k < o ==> !MagicAt(w, k)
    {
      if w[o..o + 4] == MAGIC_DIR { return Some(o); }
      o := o + 1;
    }
    r := None;
  }

  /** Offsets whose four bytes end within the first n bytes. */
  function Settled(n: nat): (k: nat)
    ensures k <= n
  {
    if n < 3 then 0 else n - 3
  }

  /** The occurrences of the magic in a window are those of the file at the window's place. */
  lemma WindowMagic(file: Bytes, window: Bytes, base: nat, o: nat)
    requires At(file, base, window) && o + 4 <= |window|
    ensures MagicAt(window, o) <==> MagicAt(file, base + o)
  {
    assert file[base + o..base + o + 4] == window[o..o + 4] by {
      AtWithin(file, base, window, o, window[o..o + 4]);
    }
  }

  lemma BestOfSnoc(p: Primitives, file: Bytes, offs: seq<nat>, o: nat)
    requires |file| < U64
    ensures BestOf(p, file, offs + [o]) == Prefer(p, file, BestOf(p, file, offs), o)
  {
    assert (offs + [o])[..|offs|] == offs;
  }

  /** Every occurrence of the magic in one window, in order, each exactly once. */
  method SearchWindow(p: Primitives, file: Bytes, window: Bytes, base: nat, best: Option<(Header, Score)>,
      ghost seen: seq<nat>)
      returns (out: Option<(Header, Score)>, ghost visited: seq<nat>)
    requires |file| < U64 && At(file, base, window)
    requires seen == MagicOffsets(file, base) && best == BestOf(p, file, seen)
    ensures visited == MagicOffsets(file, base + Settled(|window|)) && out == BestOf(p, file, visited)
  {
    hide BestOf, ScoredAt, Better, MagicAt, MagicOffsets, Prefer, At;
    out, visited := best, seen;
    var searchFrom := 0;
    while true
      invariant 0 <= searchFrom <= |window| && (searchFrom == 0 || searchFrom <= Settled(|window|))
      invariant visited == MagicOffsets(file, base + searchFrom) && out == BestOf(p, file, visited)
      decreases |window| - searchFrom
    {
      var idx := FirstIndex(window, searchFrom);
      if idx.None? {
        NoMoreMagic(file, window, base, searchFrom);
        return;
      }
      var pos := idx.value;
      NextMagic(file, window, base, searchFrom, pos);
      BestOfSnoc(p, file, visited, base + pos);
      out := Prefer(p, file, out, base + pos);
      visited := visited + [base + pos];
      searchFrom := pos + 1;
    }
  }

  lemma NoMoreMagic(file: Bytes, window: Bytes, base: nat, from: nat)
    requires At(file, base, window) && from <= |window| && (from == 0 || from <= Settled(|window|))
    requires forall o :: from <= o <= |window| ==> !MagicAt(window, o)
    ensures MagicOffsets(file, base + Settled(|window|)) == MagicOffsets(file, base + from)
  {
    hide MagicAt;
    forall o | base + from <= o < base + Settled(|window|)
      ensures !MagicAt(file, o)
    {
      WindowMagic(file, window, base, o - base);
    }
    GapOffsets(file, base + from, base + Settled(|window|));
  }

  lemma NextMagic(file: Bytes, window: Bytes, base: nat, from: nat, pos: nat)
    requires At(file, base, window) && from <= pos && MagicAt(window, pos)
    requires forall o :: from <= o < pos ==> !MagicAt(window, o)
    ensures pos + 4 <= |window|
    ensures MagicOffsets(file, base + pos + 1) == MagicOffsets(file, base + from) + [base + pos]
  {
    assert pos + 4 <= |window|;
    hide MagicAt;
    forall o | base + from <= o < base + pos
      ensures !MagicAt(file, o)
    {
      WindowMagic(file, window, base, o - base);
    }
    WindowMagic(file, window, base, pos);
    GapOffsets(file, base + from, base + pos);
  }

  /** The block loop: windows overlap by the three bytes a split magic could hide in, so for any block
      size every occurrence is tried exactly once and in order. */
  method ScanBlocks(p: Primitives, file: Bytes, blockSize: nat) returns (r: Result<Header>)
    requires |file| < U64 && blockSize >= 1
    ensures r == ScanForDirectory(p, file)
  {
    hide BestOf, ScoredAt, Better, MagicAt, MagicOffsets, At, Settled, TailOf;
    if |file| < MIN_DIR { return Err(InvalidFormat); }
    var best: Option<(Header, Score)> := None;
    var tail, off := [], 0;
    ghost var visited: seq<nat> := MagicOffsets(file, 0);
    NoOffsets(p, file);
    NoTail(file);
    while off < |file|
      invariant 0 <= off <= |file| && TailOf(file, off, tail)
      invariant visited == MagicOffsets(file, Settled(off)) && best == BestOf(p, file, visited)
    {
      var readSize := if |file| - off < blockSize then |file| - off else blockSize;
      var window := tail + file[off..off + readSize];
      var base := off - |tail|;
      WindowOf(file, off, readSize, tail);
      best, visited := SearchWindow(p, file, window, base, best, visited);
      tail := if |window| <= 3 then window else window[|window| - 3..];
      off := off + readSize;
    }
    EndOffsets(file);
    r := if best.None? then Err(InvalidFormat) else Ok(best.value.0);
  }

  /** The bytes carried over into the next window: at most three. */
  ghost predicate TailOf(file: Bytes, off: nat, tail: Bytes)
  {
    off <= |file| && tail == file[Settled(off)..off]
  }

  lemma NoTail(file: Bytes)
    ensures Settled(0) == 0 && TailOf(file, 0, [])
  {
  }

  /** The window of a block: the file from three bytes before it, and the three bytes the next window starts with. */
  lemma WindowOf(file: Bytes, off: nat, size: nat, tail: Bytes)
    requires off + size <= |file| && TailOf(file, off, tail)
    ensures var window := tail + file[off..off + size];
            && |tail| <= off && At(file, off - |tail|, window) && off - |tail| == Settled(off)
            && Settled(off) + Settled(|window|) == Settled(off + size)
            && TailOf(file, off + size, if |window| <= 3 then window else window[|window| - 3..])
  {
    var lo, hi := Settled(off), off + size;
    Joined(file, lo, off, hi);
    LastBytes(file, lo, hi);
  }

  lemma Joined(file: Bytes, lo: nat, mid: nat, hi: nat)
    requires lo <= mid <= hi <= |file|
    ensures file[lo..mid] + file[mid..hi] == file[lo..hi] && At(file, lo, file[lo..hi])
  {
  }

  lemma LastBytes(file: Bytes, lo: nat, hi: nat)
    requires lo <= hi <= |file| && (lo == 0 || lo + 3 <= hi)
    ensures var w := file[lo..hi]; (if |w| <= 3 then w else w[|w| - 3..]) == file[Settled(hi)..hi]
  {
  }

  lemma NoOffsets(p: Primitives, file: Bytes)
    requires |file| < U64
    ensures BestOf(p, file, MagicOffsets(file, 0)) == None
  {
  }

  lemma EndOffsets(file: Bytes)
    ensures MagicOffsets(file, |file|) == MagicOffsets(file, Settled(|file|))
  {
    GapOffsets(file, Settled(|file|), |file|);
  }
}

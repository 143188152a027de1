/** DIR1: the printer, the full decoder and the single-entry decoder, and the theorem that
    decoding succeeds exactly on printed directories. */
module Directory {
  import opened Binary
  import opened Common

  datatype ChunkRef = ChunkRef(chunkOffset: u64, rawOffset: u64, rawSize: u32,
                               compSize: u32, crc32Raw: u32, reserved: u32)

  datatype Entry = Entry(pathHash: u64, mtime: u64, mode: u32, flags: u32, fileSize: u64,
                         chunkCount: u32, metaSize: u32, pathSize: u32,
                         chunks: seq<ChunkRef>, meta: Bytes, path: Bytes)

  datatype Dir = Dir(entryCount: u32, flags: u32, buildUnix: u64, entries: seq<Entry>)

  const MAGIC_DIR: Bytes := [68, 73, 82, 49]  // "DIR1"
  const MAGIC_END: Bytes := [69, 78, 68, 49]  // "END1"
  const HEADER_SIZE := 20
  const HEAD_SIZE := 44
  const REF_SIZE := 32
  const FOOTER_SIZE := 16

  // ---------- printer ----------

  function ChunkRefBytes(c: ChunkRef): (b: Bytes)
    ensures |b| == REF_SIZE
  {
    LE(c.chunkOffset, 8) + (LE(c.rawOffset, 8) + (LE(c.rawSize, 4)
    + (LE(c.compSize, 4) + (LE(c.crc32Raw, 4) + LE(c.reserved, 4)))))
  }

  function ChunksBytes(cs: seq<ChunkRef>): (b: Bytes)
    ensures |b| == REF_SIZE * |cs|
  {
    if |cs| == 0 then [] else ChunkRefBytes(cs[0]) + ChunksBytes(cs[1..])
  }

  function HeadBytes(e: Entry): (b: Bytes)
    ensures |b| == HEAD_SIZE
  {
    LE(e.pathHash, 8) + (LE(e.mtime, 8) + (LE(e.mode, 4) + (LE(e.flags, 4)
    + (LE(e.fileSize, 8) + (LE(e.chunkCount, 4) + (LE(e.metaSize, 4) + LE(e.pathSize, 4)))))))
  }

  function EntrySize(e: Entry): nat
  {
    HEAD_SIZE + REF_SIZE * |e.chunks| + |e.meta| + |e.path|
  }

  function EntryBytes(e: Entry): (b: Bytes)
    ensures |b| == EntrySize(e)
  {
    HeadBytes(e) + (ChunksBytes(e.chunks) + (e.meta + e.path))
  }

  function EntriesBytes(es: seq<Entry>): Bytes
  {
    if |es| == 0 then [] else EntryBytes(es[0]) + EntriesBytes(es[1..])
  }

  /** The 20-byte head; the entry count is narrowed to 32 bits as in the source. */
  function DirHead(count: nat, buildUnix: u64): (b: Bytes)
    ensures |b| == HEADER_SIZE
  {
    MAGIC_DIR + (LE(count, 4) + (LE(0, 4) + LE(buildUnix, 8)))
  }

  function BodyBytes(es: seq<Entry>, buildUnix: u64): Bytes
  {
    DirHead(|es|, buildUnix) + EntriesBytes(es)
  }

  function Footer(p: Primitives, body: Bytes): (b: Bytes)
    ensures |b| == FOOTER_SIZE
  {
    MAGIC_END + (LE(p.crc(body), 4) + LE(|body| + FOOTER_SIZE, 8))
  }

  /** The bytes of a directory whose entries appear in the given order. */
  function DirBytes(p: Primitives, es: seq<Entry>, buildUnix: u64): Bytes
  {
    BodyBytes(es, buildUnix) + Footer(p, BodyBytes(es, buildUnix))
  }

  // ---------- decoders ----------

  function ParseChunkRef(b: Bytes, off: nat): ChunkRef
    requires off + REF_SIZE <= |b|
  {
    ChunkRef(Get64(b, off), Get64(b, off + 8), Get32(b, off + 16),
             Get32(b, off + 20), Get32(b, off + 24), Get32(b, off + 28))
  }

  function ParseHead(b: Bytes, off: nat): Entry
    requires off + HEAD_SIZE <= |b|
  {
    Entry(Get64(b, off), Get64(b, off + 8), Get32(b, off + 16), Get32(b, off + 20), Get64(b, off + 24),
          Get32(b, off + 32), Get32(b, off + 36), Get32(b, off + 40), [], [], [])
  }

  /** Chunk references are in raw order, do not overlap, do not wrap, and end at fileSize. */
  predicate ChunksInOrder(cs: seq<ChunkRef>, prevEnd: u64)
  {
    |cs| == 0 ||
    (cs[0].reserved == 0 && prevEnd <= cs[0].rawOffset && cs[0].rawOffset + cs[0].rawSize <= MAX64
     && ChunksInOrder(cs[1..], cs[0].rawOffset + cs[0].rawSize))
  }

  predicate ChunksFit(e: Entry)
  {
    && (|e.chunks| == 0 ==> e.fileSize == 0)
    && ChunksInOrder(e.chunks, 0)
    && (e.fileSize > 0 && |e.chunks| > 0 ==>
          var last := e.chunks[|e.chunks| - 1]; last.rawOffset + last.rawSize == e.fileSize)
  }

  function ParseChunks(b: Bytes, off: nat, n: nat): (cs: seq<ChunkRef>)
    requires off + REF_SIZE * n <= |b|
    ensures |cs| == n
    decreases n
  {
    if n == 0 then [] else [ParseChunkRef(b, off)] + ParseChunks(b, off + REF_SIZE, n - 1)
  }

  function ParsedSize(h: Entry): nat
  {
    HEAD_SIZE + REF_SIZE * h.chunkCount + h.metaSize + h.pathSize
  }

  /** The fields of one entry once its extent is known to lie inside b. */
  function ParseFields(b: Bytes, off: nat): Entry
    requires off + HEAD_SIZE <= |b| && off + ParsedSize(ParseHead(b, off)) <= |b|
  {
    var h := ParseHead(b, off);
    var metaOff := off + HEAD_SIZE + REF_SIZE * h.chunkCount;
    h.(chunks := ParseChunks(b, off + HEAD_SIZE, h.chunkCount),
       meta := b[metaOff..metaOff + h.metaSize],
       path := b[metaOff + h.metaSize..metaOff + h.metaSize + h.pathSize])
  }

  /** Checks shared, word for word, by the two decoders. */
  predicate AcceptedEntry(p: Primitives, e: Entry)
  {
    ChunksFit(e) && e.path != [] && p.fnv(e.path) == e.pathHash
  }

  ghost predicate CountsMatch(e: Entry)
  {
    e.chunkCount == |e.chunks| && e.metaSize == |e.meta| && e.pathSize == |e.path|
  }

  /** An entry as decoders produce it: the derived fields agree with the contents. */
  ghost predicate Canonical(p: Primitives, e: Entry)
  {
    AcceptedEntry(p, e) && CountsMatch(e)
  }

  /** The step of `DecodeDirectory` at offset off: at least a footer must remain behind the entry. */
  function DecodeEntry(p: Primitives, b: Bytes, off: nat): Result<Entry>
    requires off <= |b|
  {
    if |b| - off < HEAD_SIZE + FOOTER_SIZE then Err(InvalidFormat)
    else if ParsedSize(ParseHead(b, off)) + FOOTER_SIZE > |b| - off then Err(InvalidFormat)
    else
      var e := ParseFields(b, off);
      if AcceptedEntry(p, e) then Ok(e) else Err(InvalidFormat)
  }

  /** `DecodeDirectoryEntryAt`: one entry whose exact extent the index records. */
  function DecodeEntryAt(p: Primitives, b: Bytes, off: nat, size: nat): Result<Entry>
  {
    if |b| < HEADER_SIZE + FOOTER_SIZE || size < HEAD_SIZE || off < HEADER_SIZE
       || off + size > |b| - FOOTER_SIZE then Err(InvalidFormat)
    else if ParsedSize(ParseHead(b, off)) != size then Err(InvalidFormat)
    else
      var e := ParseFields(b, off);
      if AcceptedEntry(p, e) then Ok(e) else Err(InvalidFormat)
  }

  function DecodeEntries(p: Primitives, b: Bytes, off: nat, n: nat): (r: Result<(seq<Entry>, nat)>)
    requires off <= |b|
    ensures r.Ok? ==> |r.value.0| == n && off <= r.value.1 <= |b|
    decreases n
  {
    if n == 0 then Ok(([], off))
    else match DecodeEntry(p, b, off)
      case Err(x) => Err(x)
      case Ok(e) =>
        match DecodeEntries(p, b, off + ParsedSize(e), n - 1)
        case Err(x) => Err(x)
        case Ok(rest) => Ok(([e] + rest.0, rest.1))
  }

  /** `validateDirectoryBlobEnvelope`: magics, sizes, checksum and flags; yields the entry count. */
  function Envelope(p: Primitives, b: Bytes, crc: u32, size: nat): Result<u32>
  {
    if |b| < HEADER_SIZE + FOOTER_SIZE || |b| != size || b[..4] != MAGIC_DIR then Err(InvalidFormat)
    else
      var foot := |b| - FOOTER_SIZE;
      if b[foot..foot + 4] != MAGIC_END then Err(InvalidFormat)
      else if Get32(b, foot + 4) != crc || Get64(b, foot + 8) != size then Err(InvalidFormat)
      else if p.crc(b[..foot]) != crc then Err(CRCMismatch)
      else if Get32(b, 8) != 0 then Err(InvalidFormat)
      else Ok(Get32(b, 4))
  }

  /** `DecodeDirectory`. */
  function Decode(p: Primitives, b: Bytes, crc: u32, size: nat): Result<Dir>
  {
    match Envelope(p, b, crc, size)
    case Err(x) => Err(x)
    case Ok(count) =>
      if count > (|b| - HEADER_SIZE - FOOTER_SIZE) / HEAD_SIZE then Err(InvalidFormat)
      else match DecodeEntries(p, b, HEADER_SIZE, count)
        case Err(x) => Err(x)
        case Ok(d) =>
          if d.1 != |b| - FOOTER_SIZE then Err(InvalidFormat)
          else Ok(Dir(count, 0, Get64(b, 12), d.0))
  }

  // ---------- printed pieces and parsed fields ----------

  lemma ChunkRefAt(b: Bytes, off: nat, c: ChunkRef)
    requires off + REF_SIZE <= |b|
    ensures At(b, off, ChunkRefBytes(c)) <==> ParseChunkRef(b, off) == c
  {
    hide At, LE, Get32, Get64;
    var f5 := LE(c.crc32Raw, 4) + LE(c.reserved, 4);
    var f4 := LE(c.compSize, 4) + f5;
    var f3 := LE(c.rawSize, 4) + f4;
    var f2 := LE(c.rawOffset, 8) + f3;
    AtSplit(b, off, LE(c.chunkOffset, 8), f2);
    AtSplit(b, off + 8, LE(c.rawOffset, 8), f3);
    AtSplit(b, off + 16, LE(c.rawSize, 4), f4);
    AtSplit(b, off + 20, LE(c.compSize, 4), f5);
    AtSplit(b, off + 24, LE(c.crc32Raw, 4), LE(c.reserved, 4));
    Get64At(b, off, c.chunkOffset);
    Get64At(b, off + 8, c.rawOffset);
    Get32At(b, off + 16, c.rawSize);
    Get32At(b, off + 20, c.compSize);
    Get32At(b, off + 24, c.crc32Raw);
    Get32At(b, off + 28, c.reserved);
  }

  lemma HeadAt(b: Bytes, off: nat, e: Entry)
    requires off + HEAD_SIZE <= |b|
    ensures At(b, off, HeadBytes(e)) <==> ParseHead(b, off) == e.(chunks := [], meta := [], path := [])
  {
    hide At, LE, Get32, Get64;
    var f7 := LE(e.metaSize, 4) + LE(e.pathSize, 4);
    var f6 := LE(e.chunkCount, 4) + f7;
    var f5 := LE(e.fileSize, 8) + f6;
    var f4 := LE(e.flags, 4) + f5;
    var f3 := LE(e.mode, 4) + f4;
    var f2 := LE(e.mtime, 8) + f3;
    AtSplit(b, off, LE(e.pathHash, 8), f2);
    AtSplit(b, off + 8, LE(e.mtime, 8), f3);
    AtSplit(b, off + 16, LE(e.mode, 4), f4);
    AtSplit(b, off + 20, LE(e.flags, 4), f5);
    AtSplit(b, off + 24, LE(e.fileSize, 8), f6);
    AtSplit(b, off + 32, LE(e.chunkCount, 4), f7);
    AtSplit(b, off + 36, LE(e.metaSize, 4), LE(e.pathSize, 4));
    Get64At(b, off, e.pathHash);
    Get64At(b, off + 8, e.mtime);
    Get32At(b, off + 16, e.mode);
    Get32At(b, off + 20, e.flags);
    Get64At(b, off + 24, e.fileSize);
    Get32At(b, off + 32, e.chunkCount);
    Get32At(b, off + 36, e.metaSize);
    Get32At(b, off + 40, e.pathSize);
  }

  lemma {:induction false} ChunksAt(b: Bytes, off: nat, cs: seq<ChunkRef>)
    requires off + REF_SIZE * |cs| <= |b|
    ensures At(b, off, ChunksBytes(cs)) <==> ParseChunks(b, off, |cs|) == cs
    decreases |cs|
  {
    hide ChunkRefBytes, ParseChunkRef, At;
    if |cs| == 0 {
      AtEmpty(b, off);
    } else {
      AtSplit(b, off, ChunkRefBytes(cs[0]), ChunksBytes(cs[1..]));
      ChunkRefAt(b, off, cs[0]);
      ChunksAt(b, off + REF_SIZE, cs[1..]);
      assert cs == [cs[0]] + cs[1..];
      var ps := ParseChunks(b, off, |cs|);
      assert ps[0] == ParseChunkRef(b, off) && ps[1..] == ParseChunks(b, off + REF_SIZE, |cs| - 1);
    }
  }

  lemma EntrySplit(b: Bytes, off: nat, e: Entry)
    ensures var metaOff := off + HEAD_SIZE + REF_SIZE * |e.chunks|;
            At(b, off, EntryBytes(e)) <==>
              && At(b, off, HeadBytes(e)) && At(b, off + HEAD_SIZE, ChunksBytes(e.chunks))
              && At(b, metaOff, e.meta) && At(b, metaOff + |e.meta|, e.path)
  {
    hide At, HeadBytes, ChunksBytes;
    var chunksOff := off + HEAD_SIZE;
    AtSplit(b, off, HeadBytes(e), ChunksBytes(e.chunks) + (e.meta + e.path));
    AtSplit(b, chunksOff, ChunksBytes(e.chunks), e.meta + e.path);
    AtSplit(b, chunksOff + REF_SIZE * |e.chunks|, e.meta, e.path);
  }

  /** A printed entry whose counts match its contents parses back. */
  lemma PrintedParses(b: Bytes, off: nat, e: Entry)
    requires CountsMatch(e) && At(b, off, EntryBytes(e))
    ensures ParsedSize(ParseHead(b, off)) == EntrySize(e) && ParseFields(b, off) == e
  {
    hide HeadBytes, ChunksBytes, ParseChunks, EntryBytes, ParseHead;
    EntrySplit(b, off, e);
    HeadAt(b, off, e);
    ChunksAt(b, off + HEAD_SIZE, e.chunks);
  }

  /** Whatever the field parser reads is consistent with its own counts. */
  lemma ParsedCounts(b: Bytes, off: nat)
    requires off + HEAD_SIZE <= |b| && off + ParsedSize(ParseHead(b, off)) <= |b|
    ensures var e := ParseFields(b, off);
            CountsMatch(e) && EntrySize(e) == ParsedSize(e) == ParsedSize(ParseHead(b, off))
  {
  }

  lemma HeadHasNoBody(b: Bytes, off: nat)
    requires off + HEAD_SIZE <= |b|
    ensures var h := ParseHead(b, off); h == h.(chunks := [], meta := [], path := [])
  {
  }

  /** Whatever the field parser reads prints back to the bytes it was read from. */
  lemma ParsedPrints(b: Bytes, off: nat)
    requires off + HEAD_SIZE <= |b| && off + ParsedSize(ParseHead(b, off)) <= |b|
    ensures At(b, off, EntryBytes(ParseFields(b, off)))
  {
    hide HeadBytes, ChunksBytes, ParseChunks, EntryBytes, ParseHead;
    var h, e := ParseHead(b, off), ParseFields(b, off);
    assert At(b, off, HeadBytes(e)) by {
      HeadHasNoBody(b, off);
      HeadAt(b, off, e);
    }
    assert At(b, off + HEAD_SIZE, ChunksBytes(e.chunks)) by {
      assert ParseChunks(b, off + HEAD_SIZE, h.chunkCount) == e.chunks && |e.chunks| == h.chunkCount;
      ChunksAt(b, off + HEAD_SIZE, e.chunks);
    }
    EntrySplit(b, off, e);
  }

  /** The full decoder accepts at off exactly the printed canonical entries that leave room for a footer. */
  lemma DecodeEntryIff(p: Primitives, b: Bytes, off: nat, e: Entry)
    requires off <= |b|
    ensures DecodeEntry(p, b, off) == Ok(e) <==>
            Canonical(p, e) && At(b, off, EntryBytes(e)) && off + EntrySize(e) + FOOTER_SIZE <= |b|
  {
    if DecodeEntry(p, b, off) == Ok(e) {
      ParsedCounts(b, off);
      ParsedPrints(b, off);
    }
    if Canonical(p, e) && At(b, off, EntryBytes(e)) && off + EntrySize(e) + FOOTER_SIZE <= |b| {
      PrintedParses(b, off, e);
    }
  }

  /** The lazy decoder accepts (off, size) exactly when that slice is one printed canonical entry. */
  lemma DecodeEntryAtIff(p: Primitives, b: Bytes, off: nat, size: nat, e: Entry)
    ensures DecodeEntryAt(p, b, off, size) == Ok(e) <==>
            Canonical(p, e) && size == EntrySize(e) && HEADER_SIZE <= off
            && off + size + FOOTER_SIZE <= |b| && At(b, off, EntryBytes(e))
  {
    if DecodeEntryAt(p, b, off, size) == Ok(e) {
      ParsedCounts(b, off);
      ParsedPrints(b, off);
    }
    if Canonical(p, e) && size == EntrySize(e) && off + size + FOOTER_SIZE <= |b| && At(b, off, EntryBytes(e)) {
      PrintedParses(b, off, e);
    }
  }

  // ---------- whole directories ----------

  ghost predicate AllCanonical(p: Primitives, es: seq<Entry>)
  {
    forall i :: 0 <= i < |es| ==> Canonical(p, es[i])
  }

  lemma {:induction false} DecodeEntriesOfPrinted(p: Primitives, b: Bytes, off: nat, es: seq<Entry>)
    requires AllCanonical(p, es) && At(b, off, EntriesBytes(es))
    requires off + |EntriesBytes(es)| + FOOTER_SIZE <= |b|
    ensures DecodeEntries(p, b, off, |es|) == Ok((es, off + |EntriesBytes(es)|))
    decreases |es|
  {
    hide DecodeEntry, Canonical, EntryBytes;
    if |es| != 0 {
      assert es == [es[0]] + es[1..];
      EntriesCons(b, off, es[0], es[1..]);
      DecodeEntryIff(p, b, off, es[0]);
      assert ParsedSize(es[0]) == EntrySize(es[0]) by { CanonicalSize(p, es[0]); }
      DecodeEntriesOfPrinted(p, b, off + EntrySize(es[0]), es[1..]);
    }
  }

  lemma CanonicalSize(p: Primitives, e: Entry)
    requires Canonical(p, e)
    ensures ParsedSize(e) == EntrySize(e)
  {
  }

  lemma EntriesCons(b: Bytes, off: nat, e: Entry, rest: seq<Entry>)
    ensures EntriesBytes([e] + rest) == EntryBytes(e) + EntriesBytes(rest)
    ensures At(b, off, EntriesBytes([e] + rest)) <==>
            At(b, off, EntryBytes(e)) && At(b, off + EntrySize(e), EntriesBytes(rest))
  {
    assert ([e] + rest)[1..] == rest;
    AtSplit(b, off, EntryBytes(e), EntriesBytes(rest));
  }

  lemma DecodeEntriesHead(p: Primitives, b: Bytes, off: nat, n: nat) returns (e: Entry, rest: (seq<Entry>, nat))
    requires off <= |b| && n != 0 && DecodeEntries(p, b, off, n).Ok?
    ensures Canonical(p, e) && At(b, off, EntryBytes(e)) && off + EntrySize(e) + FOOTER_SIZE <= |b|
    ensures DecodeEntry(p, b, off) == Ok(e)
    ensures DecodeEntries(p, b, off + EntrySize(e), n - 1) == Ok(rest)
    ensures DecodeEntries(p, b, off, n) == Ok(([e] + rest.0, rest.1))
  {
    hide DecodeEntry, Canonical, EntryBytes, At;
    e := DecodeEntry(p, b, off).value;
    DecodeEntryIff(p, b, off, e);
    CanonicalSize(p, e);
    rest := DecodeEntries(p, b, off + EntrySize(e), n - 1).value;
  }

  lemma {:induction false} DecodedEntriesPrint(p: Primitives, b: Bytes, off: nat, n: nat)
    requires off <= |b| && DecodeEntries(p, b, off, n).Ok?
    ensures var d := DecodeEntries(p, b, off, n).value;
            AllCanonical(p, d.0) && At(b, off, EntriesBytes(d.0)) && off + |EntriesBytes(d.0)| == d.1
    decreases n
  {
    hide DecodeEntry, Canonical, EntryBytes;
    if n != 0 {
      var e, rest := DecodeEntriesHead(p, b, off, n);
      DecodedEntriesPrint(p, b, off + EntrySize(e), n - 1);
      EntriesCons(b, off, e, rest.0);
    }
  }

  /** What the footer and head checks mean. */
  lemma EnvelopeIff(p: Primitives, b: Bytes, crc: u32, size: nat, count: u32)
    ensures Envelope(p, b, crc, size) == Ok(count) <==>
            && |b| == size < U64 && HEADER_SIZE + FOOTER_SIZE <= |b|
            && crc == p.crc(b[..|b| - FOOTER_SIZE])
            && At(b, 0, DirHead(count, Get64(b, 12)))
            && At(b, |b| - FOOTER_SIZE, Footer(p, b[..|b| - FOOTER_SIZE]))
  {
    if HEADER_SIZE + FOOTER_SIZE <= |b| == size {
      var foot, build := |b| - FOOTER_SIZE, Get64(b, 12);
      AtSplit(b, 0, MAGIC_DIR, LE(count, 4) + (LE(0, 4) + LE(build, 8)));
      AtSplit(b, 4, LE(count, 4), LE(0, 4) + LE(build, 8));
      AtSplit(b, 8, LE(0, 4), LE(build, 8));
      Get32At(b, 4, count);
      Get32At(b, 8, 0);
      Get64At(b, 12, build);
      assert b[0..4] == b[..4];
      var c := p.crc(b[..foot]);
      AtSplit(b, foot, MAGIC_END, LE(c, 4) + LE(size, 8));
      AtSplit(b, foot + 4, LE(c, 4), LE(size, 8));
      Get32At(b, foot + 4, c);
      if size < U64 {
        Get64At(b, foot + 8, size);
      }
    }
  }

  lemma {:induction false} EntriesBytesSize(es: seq<Entry>)
    ensures |EntriesBytes(es)| >= HEAD_SIZE * |es|
  {
    if |es| != 0 { EntriesBytesSize(es[1..]); }
  }

  /** Where the parts of a printed directory lie. */
  lemma PrintedLayout(p: Primitives, es: seq<Entry>, build: u64)
    ensures var b, body := DirBytes(p, es, build), BodyBytes(es, build);
            && |b| == |body| + FOOTER_SIZE && b[..|body|] == body
            && At(b, 0, DirHead(|es|, build)) && At(b, HEADER_SIZE, EntriesBytes(es))
            && At(b, |body|, Footer(p, body)) && Get64(b, 12) == build
  {
    var b, body := DirBytes(p, es, build), BodyBytes(es, build);
    assert b[0..0 + |b|] == b;
    AtSplit(b, 0, body, Footer(p, body));
    AtSplit(b, 0, DirHead(|es|, build), EntriesBytes(es));
    AtSplit(b, 0, MAGIC_DIR, LE(|es|, 4) + (LE(0, 4) + LE(build, 8)));
    AtSplit(b, 4, LE(|es|, 4), LE(0, 4) + LE(build, 8));
    AtSplit(b, 8, LE(0, 4), LE(build, 8));
    Get64At(b, 12, build);
  }

  lemma PrintedEnvelope(p: Primitives, es: seq<Entry>, build: u64)
    requires |es| < U32 && |DirBytes(p, es, build)| < U64
    ensures var b := DirBytes(p, es, build);
            Envelope(p, b, p.crc(BodyBytes(es, build)), |b|) == Ok(|es|)
  {
    PrintedLayout(p, es, build);
    var b := DirBytes(p, es, build);
    EnvelopeIff(p, b, p.crc(BodyBytes(es, build)), |b|, |es|);
  }

  lemma PrintedDecodes(p: Primitives, es: seq<Entry>, build: u64)
    requires |es| < U32 && AllCanonical(p, es)
    requires |DirBytes(p, es, build)| < U64
    ensures var b := DirBytes(p, es, build);
            Decode(p, b, p.crc(BodyBytes(es, build)), |b|) == Ok(Dir(|es|, 0, build, es))
  {
    PrintedEnvelope(p, es, build);
    PrintedLayout(p, es, build);
    EntriesBytesSize(es);
    DecodeEntriesOfPrinted(p, DirBytes(p, es, build), HEADER_SIZE, es);
  }

  lemma DecodedIsPrinted(p: Primitives, b: Bytes, crc: u32, size: nat, d: Dir)
    requires Decode(p, b, crc, size) == Ok(d)
    ensures d.flags == 0 && d.entryCount == |d.entries| && AllCanonical(p, d.entries)
    ensures b == DirBytes(p, d.entries, d.buildUnix) && |b| == size < U64
    ensures crc == p.crc(BodyBytes(d.entries, d.buildUnix))
  {
    EnvelopeIff(p, b, crc, size, d.entryCount);
    DecodedEntriesPrint(p, b, HEADER_SIZE, d.entryCount);
    PrintedBack(p, b, crc, d.entries, d.buildUnix);
  }

  lemma PrintedBack(p: Primitives, b: Bytes, crc: u32, es: seq<Entry>, build: u64)
    requires FOOTER_SIZE <= |b|
    requires At(b, 0, DirHead(|es|, build)) && At(b, HEADER_SIZE, EntriesBytes(es))
    requires HEADER_SIZE + |EntriesBytes(es)| == |b| - FOOTER_SIZE
    requires At(b, |b| - FOOTER_SIZE, Footer(p, b[..|b| - FOOTER_SIZE]))
    ensures b == DirBytes(p, es, build) && b[..|b| - FOOTER_SIZE] == BodyBytes(es, build)
  {
    hide DirHead, EntriesBytes, Footer;
    var foot := |b| - FOOTER_SIZE;
    AtSplit(b, 0, DirHead(|es|, build), EntriesBytes(es));
    assert b[..foot] == b[0..0 + foot] == BodyBytes(es, build);
    assert b == b[..foot] + b[foot..foot + FOOTER_SIZE];
  }

  /** The full decoder accepts exactly the printed directories of canonical entries: it is the inverse
      of the printer on its whole domain, not only on the printer's outputs. */
  lemma DecodeIff(p: Primitives, b: Bytes, crc: u32, size: nat, d: Dir)
    ensures Decode(p, b, crc, size) == Ok(d) <==>
            && d.flags == 0 && d.entryCount == |d.entries| && AllCanonical(p, d.entries)
            && b == DirBytes(p, d.entries, d.buildUnix) && |b| == size < U64
            && crc == p.crc(BodyBytes(d.entries, d.buildUnix))
  {
    if Decode(p, b, crc, size) == Ok(d) {
      DecodedIsPrinted(p, b, crc, size, d);
    } else if |d.entries| < U32 && AllCanonical(p, d.entries) && |DirBytes(p, d.entries, d.buildUnix)| < U64 {
      PrintedDecodes(p, d.entries, d.buildUnix);
    }
  }

  // ---------- what acceptance means for chunks ----------

  lemma {:induction false} OrderedApart(cs: seq<ChunkRef>, prevEnd: u64, i: nat, j: nat)
    requires ChunksInOrder(cs, prevEnd) && i < |cs| && j < |cs|
    ensures prevEnd <= cs[i].rawOffset && cs[i].rawOffset + cs[i].rawSize <= MAX64
    ensures i < j ==> cs[i].rawOffset + cs[i].rawSize <= cs[j].rawOffset
    decreases |cs|
  {
    var end := cs[0].rawOffset + cs[0].rawSize;
    if i > 0 && j > 0 {
      OrderedApart(cs[1..], end, i - 1, j - 1);
    } else if i > 0 {
      OrderedApart(cs[1..], end, i - 1, i - 1);
    } else if j > 0 {
      OrderedApart(cs[1..], end, j - 1, j - 1);
    }
  }

  /** References one behind the other: unreserved, not wrapping around, none beginning before the end of the last. */
  ghost predicate Follows(cs: seq<ChunkRef>, prevEnd: nat)
  {
    && (forall i :: 0 <= i < |cs| ==> cs[i].reserved == 0 && cs[i].rawOffset + cs[i].rawSize <= MAX64)
    && (|cs| > 0 ==> prevEnd <= cs[0].rawOffset)
    && forall i :: 0 < i < |cs| ==> cs[i - 1].rawOffset + cs[i - 1].rawSize <= cs[i].rawOffset
  }

  lemma {:induction false} InOrderIff(cs: seq<ChunkRef>, prevEnd: u64)
    ensures ChunksInOrder(cs, prevEnd) <==> Follows(cs, prevEnd)
  {
    if |cs| != 0 {
      var end := cs[0].rawOffset + cs[0].rawSize;
      if end <= MAX64 { InOrderIff(cs[1..], end); }
      var rest := cs[1..];
      if Follows(cs, prevEnd) {
        forall i | 0 <= i < |rest|
          ensures rest[i].reserved == 0 && rest[i].rawOffset + rest[i].rawSize <= MAX64
          ensures i > 0 ==> rest[i - 1].rawOffset + rest[i - 1].rawSize <= rest[i].rawOffset
        {
          assert rest[i] == cs[i + 1];
        }
      }
      if Follows(rest, end) && end <= MAX64 && cs[0].reserved == 0 && prevEnd <= cs[0].rawOffset {
        forall i | 0 <= i < |cs|
          ensures cs[i].reserved == 0 && cs[i].rawOffset + cs[i].rawSize <= MAX64
          ensures i > 0 ==> cs[i - 1].rawOffset + cs[i - 1].rawSize <= cs[i].rawOffset
        {
          if i > 0 { assert cs[i] == rest[i - 1]; }
        }
      }
    }
  }

  /** Which entries both decoders accept: with a path that has the recorded hash, and references one behind the other,
      none for an empty chunk map of a size, and ending at the size unless that is zero. */
  lemma AcceptedIff(p: Primitives, e: Entry)
    ensures AcceptedEntry(p, e) <==>
            && e.path != [] && p.fnv(e.path) == e.pathHash && Follows(e.chunks, 0)
            && (e.fileSize > 0 ==>
                  |e.chunks| > 0 && e.chunks[|e.chunks| - 1].rawOffset + e.chunks[|e.chunks| - 1].rawSize == e.fileSize)
  {
    InOrderIff(e.chunks, 0);
  }

  /** The chunks of every accepted entry that is not empty are pairwise disjoint, in order, never wrap around, and end
      exactly at the entry's size. */
  lemma AcceptedChunks(p: Primitives, e: Entry, i: nat, j: nat)
    requires AcceptedEntry(p, e) && e.fileSize > 0 && i < |e.chunks| && j < |e.chunks|
    ensures var last := e.chunks[|e.chunks| - 1]; last.rawOffset + last.rawSize == e.fileSize
    ensures i < j ==> e.chunks[i].rawOffset + e.chunks[i].rawSize <= e.chunks[j].rawOffset
    ensures e.chunks[i].rawOffset + e.chunks[i].rawSize <= e.fileSize <= MAX64
  {
    hide ChunksInOrder;
    OrderedApart(e.chunks, 0, i, j);
    OrderedApart(e.chunks, 0, i, |e.chunks| - 1);
    OrderedApart(e.chunks, 0, |e.chunks| - 1, i);
  }
}

/** Chunk records: encoding, reading one back, and which references read as a premature end of file. */
module Chunk {
  import opened Binary
  import opened Common
  import opened Directory

  const MAGIC_CHUNK: Bytes := [67, 75]  // "CK"
  const CHUNK_HEADER := 16
  const MAX_OFFSET: int := 0x8000_0000_0000_0000  // file offsets are signed 64-bit

  datatype ChunkRecord = ChunkRecord(codec: u8, level: u8, rawSize: u32, compSize: u32, crc: u32, payload: Bytes)

  function ChunkHead(codec: u8, level: u8, rawLen: nat, compLen: nat, crc: u32): (b: Bytes)
    ensures |b| == CHUNK_HEADER
  {
    MAGIC_CHUNK + ([codec, level] + (LE(rawLen, 4) + (LE(compLen, 4) + LE(crc, 4))))
  }

  /** `EncodeChunkRecord`: sizes are narrowed to 32 bits. */
  function EncodeChunk(p: Primitives, raw: Bytes, codec: u8, level: u8): Result<(Bytes, u32)>
  {
    if |raw| == 0 then Err(InvalidFormat)
    else match p.compress(raw, codec, level)
      case Err(x) => Err(x)
      case Ok(comp) => Ok((ChunkHead(codec, level, |raw|, |comp|, p.crc(raw)) + comp, p.crc(raw)))
  }

  /** `ReadChunkRecordAtOptLimited`.  A read that runs past the end of the file fails with EOF. */
  function ReadChunk(p: Primitives, file: Bytes, off: nat, verify: bool, maxRaw: u32, maxComp: u32): Result<ChunkRecord>
  {
    if off >= MAX_OFFSET then Err(IO)
    else if off + CHUNK_HEADER > |file| then Err(EOF)
    else if file[off..off + 2] != MAGIC_CHUNK then Err(InvalidFormat)
    else
      var rawSize, compSize, crc := Get32(file, off + 4), Get32(file, off + 8), Get32(file, off + 12);
      if rawSize == 0 || compSize == 0 then Err(InvalidFormat)
      else if maxRaw > 0 && rawSize > maxRaw then Err(LimitExceeded)
      else if maxComp > 0 && compSize > maxComp then Err(LimitExceeded)
      else if off + CHUNK_HEADER + compSize > |file| then Err(EOF)
      else
        var comp := file[off + CHUNK_HEADER..off + CHUNK_HEADER + compSize];
        match p.decompress(comp, file[off + 2], rawSize)
        case Err(x) => Err(x)
        case Ok(raw) =>
          if |raw| != rawSize then Err(InvalidFormat)
          else if verify && p.crc(raw) != crc then Err(CRCMismatch)
          else Ok(ChunkRecord(file[off + 2], file[off + 3], rawSize, compSize, crc, raw))
  }

  /** One reference of an entry, with the limit and consistency checks of the streaming reader that do
      not depend on what was read before. */
  function LoadRef(p: Primitives, file: Bytes, ref: ChunkRef, verify: bool, maxChunk: u32): (r: Result<Bytes>)
    ensures r.Ok? ==> 0 < |r.value| == ref.rawSize && ref.compSize > 0
  {
    if maxChunk > 0 && (ref.rawSize > maxChunk || ref.compSize > maxChunk) then Err(LimitExceeded)
    else match ReadChunk(p, file, ref.chunkOffset, verify, ref.rawSize, ref.compSize)
      case Err(x) => Err(x)
      case Ok(rec) =>
        if rec.rawSize != ref.rawSize || rec.compSize != ref.compSize || rec.crc != ref.crc32Raw then Err(InvalidFormat)
        else Ok(rec.payload)
  }

  lemma ChunkHeadAt(file: Bytes, off: nat, codec: u8, level: u8, rawLen: u32, compLen: u32, crc: u32)
    requires At(file, off, ChunkHead(codec, level, rawLen, compLen, crc))
    ensures off + CHUNK_HEADER <= |file| && file[off..off + 2] == MAGIC_CHUNK && file[off + 2] == codec && file[off + 3] == level
    ensures Get32(file, off + 4) == rawLen && Get32(file, off + 8) == compLen && Get32(file, off + 12) == crc
  {
    hide LE, Get32;
    AtSplit(file, off, MAGIC_CHUNK, [codec, level] + (LE(rawLen, 4) + (LE(compLen, 4) + LE(crc, 4))));
    AtSplit(file, off + 2, [codec, level], LE(rawLen, 4) + (LE(compLen, 4) + LE(crc, 4)));
    AtSplit(file, off + 4, LE(rawLen, 4), LE(compLen, 4) + LE(crc, 4));
    AtSplit(file, off + 8, LE(compLen, 4), LE(crc, 4));
    Get32At(file, off + 4, rawLen);
    Get32At(file, off + 8, compLen);
    Get32At(file, off + 12, crc);
    assert file[off + 2] == file[off + 2..off + 4][0] && file[off + 3] == file[off + 2..off + 4][1];
  }

  lemma ChunkHeadFrom(file: Bytes, off: nat, rawLen: u32, compLen: u32, crc: u32)
    requires off + CHUNK_HEADER <= |file| && file[off..off + 2] == MAGIC_CHUNK
    requires Get32(file, off + 4) == rawLen && Get32(file, off + 8) == compLen && Get32(file, off + 12) == crc
    ensures At(file, off, ChunkHead(file[off + 2], file[off + 3], rawLen, compLen, crc))
  {
    hide LE, Get32;
    var codec, level := file[off + 2], file[off + 3];
    AtSplit(file, off, MAGIC_CHUNK, [codec, level] + (LE(rawLen, 4) + (LE(compLen, 4) + LE(crc, 4))));
    AtSplit(file, off + 2, [codec, level], LE(rawLen, 4) + (LE(compLen, 4) + LE(crc, 4)));
    AtSplit(file, off + 4, LE(rawLen, 4), LE(compLen, 4) + LE(crc, 4));
    AtSplit(file, off + 8, LE(compLen, 4), LE(crc, 4));
    Get32At(file, off + 4, rawLen);
    Get32At(file, off + 8, compLen);
    Get32At(file, off + 12, crc);
    assert file[off + 2..off + 4] == [codec, level];
  }

  /** The record that a reference names lies in the file: a head with the recorded sizes and checksum, and behind it as
      many bytes as recorded. */
  ghost predicate RecordThere(file: Bytes, ref: ChunkRef, codec: u8, level: u8, comp: Bytes)
  {
    && ref.chunkOffset < MAX_OFFSET && 0 < ref.rawSize && 0 < |comp| == ref.compSize
    && At(file, ref.chunkOffset, ChunkHead(codec, level, ref.rawSize, ref.compSize, ref.crc32Raw))
    && At(file, ref.chunkOffset + CHUNK_HEADER, comp)
  }

  predicate WithinChunkLimit(ref: ChunkRef, maxChunk: u32)
  {
    maxChunk == 0 || (ref.rawSize <= maxChunk && ref.compSize <= maxChunk)
  }

  /** What becomes of a record that is there: the codec's error, or what its payload decompresses to, if that has the
      recorded size and, under verification, the recorded checksum.  A payload damaged to bytes of another checksum is
      refused as such. */
  lemma RecordLoads(p: Primitives, file: Bytes, ref: ChunkRef, verify: bool, maxChunk: u32, codec: u8, level: u8,
      comp: Bytes)
    requires RecordThere(file, ref, codec, level, comp) && WithinChunkLimit(ref, maxChunk)
    ensures LoadRef(p, file, ref, verify, maxChunk) ==
            match p.decompress(comp, codec, ref.rawSize)
            case Err(x) => Err(x)
            case Ok(raw) =>
              if |raw| != ref.rawSize then Err(InvalidFormat)
              else if verify && p.crc(raw) != ref.crc32Raw then Err(CRCMismatch)
              else Ok(raw)
  {
    hide ChunkHead, Get32;
    ChunkHeadAt(file, ref.chunkOffset, codec, level, ref.rawSize, ref.compSize, ref.crc32Raw);
  }

  /** Comp is the payload of the record that the reference names, and decompresses to raw. */
  ghost predicate HoldsRaw(p: Primitives, file: Bytes, ref: ChunkRef, codec: u8, level: u8, comp: Bytes, raw: Bytes)
  {
    && RecordThere(file, ref, codec, level, comp) && |raw| == ref.rawSize
    && p.decompress(comp, codec, ref.rawSize) == Ok(raw)
  }

  /** A reference loads as raw exactly when the record it names is there and its payload decompresses to raw, within the
      limit, and, under verification, raw has the recorded checksum. */
  lemma LoadRefIff(p: Primitives, file: Bytes, ref: ChunkRef, verify: bool, maxChunk: u32, raw: Bytes)
    ensures LoadRef(p, file, ref, verify, maxChunk) == Ok(raw) <==>
            && WithinChunkLimit(ref, maxChunk) && (verify ==> p.crc(raw) == ref.crc32Raw)
            && exists codec, level, comp :: HoldsRaw(p, file, ref, codec, level, comp, raw)
  {
    hide ChunkHead, Get32;
    var off := ref.chunkOffset;
    if LoadRef(p, file, ref, verify, maxChunk) == Ok(raw) {
      var comp := file[off + CHUNK_HEADER..off + CHUNK_HEADER + ref.compSize];
      assert RecordThere(file, ref, file[off + 2], file[off + 3], comp) by {
        ChunkHeadFrom(file, off, ref.rawSize, ref.compSize, ref.crc32Raw);
      }
      assert HoldsRaw(p, file, ref, file[off + 2], file[off + 3], comp, raw);
    }
    forall codec, level, comp | HoldsRaw(p, file, ref, codec, level, comp, raw) && WithinChunkLimit(ref, maxChunk)
      ensures LoadRef(p, file, ref, verify, maxChunk) == if verify && p.crc(raw) != ref.crc32Raw then Err(CRCMismatch) else Ok(raw)
    {
      RecordLoads(p, file, ref, verify, maxChunk, codec, level, comp);
    }
  }

  /** The reference the writer makes for a record written at off. */
  function RefFor(off: u64, rawOff: u64, rawLen: u32, rec: Bytes, crc: u32): ChunkRef
    requires |rec| >= CHUNK_HEADER
  {
    ChunkRef(off, rawOff, rawLen, (|rec| - CHUNK_HEADER) % U32, crc, 0)
  }

  /** A record reads back as the bytes it was made from, wherever it lies, under any reader setting that
      admits its sizes. */
  lemma RecordReadsBack(p: Primitives, file: Bytes, off: u64, raw: Bytes, rawOff: u64, codec: u8, level: u8,
      verify: bool, maxChunk: u32)
    requires p.InversePair() && 0 < |raw| < U32 && EncodeChunk(p, raw, codec, level).Ok?
    requires off < MAX_OFFSET && At(file, off, EncodeChunk(p, raw, codec, level).value.0)
    ensures var (rec, crc) := EncodeChunk(p, raw, codec, level).value;
            && CHUNK_HEADER < |rec| < CHUNK_HEADER + U32
            && var ref := RefFor(off, rawOff, |raw|, rec, crc);
               LoadRef(p, file, ref, verify, maxChunk) ==
               if maxChunk > 0 && (ref.rawSize > maxChunk || ref.compSize > maxChunk) then Err(LimitExceeded) else Ok(raw)
  {
    hide LE, Get32, ChunkHead;
    var comp := p.compress(raw, codec, level).value;
    var head := ChunkHead(codec, level, |raw|, |comp|, p.crc(raw));
    AtSplit(file, off, head, comp);
    ChunkHeadAt(file, off, codec, level, |raw|, |comp|, p.crc(raw));
  }

  /** The record of a reference runs past the end of the file: its header does, or the header is there and
      admissible and its payload does.  A recorded compressed size of zero admits every size. */
  predicate PastEnd(file: Bytes, ref: ChunkRef, maxChunk: u32)
  {
    && !(maxChunk > 0 && (ref.rawSize > maxChunk || ref.compSize > maxChunk))
    && ref.chunkOffset < MAX_OFFSET
    && (ref.chunkOffset + CHUNK_HEADER > |file| || PayloadPastEnd(file, ref))
  }

  predicate PayloadPastEnd(file: Bytes, ref: ChunkRef)
    requires ref.chunkOffset + CHUNK_HEADER <= |file|
  {
    && file[ref.chunkOffset..ref.chunkOffset + 2] == MAGIC_CHUNK
    && var raw, comp := Get32(file, ref.chunkOffset + 4), Get32(file, ref.chunkOffset + 8);
       && raw != 0 && comp != 0 && (ref.rawSize > 0 ==> raw <= ref.rawSize) && (ref.compSize > 0 ==> comp <= ref.compSize)
       && ref.chunkOffset + CHUNK_HEADER + comp > |file|
  }

  ghost predicate NoCodecEOF(p: Primitives)
  {
    forall c: Bytes, k: u8, n: u32 {:trigger p.decompress(c, k, n)} :: p.decompress(c, k, n) != Err(EOF)
  }

  /** A reference reads as end of file exactly when its record runs past the end of the file. */
  lemma LoadRefEOFIff(p: Primitives, file: Bytes, ref: ChunkRef, verify: bool, maxChunk: u32)
    requires NoCodecEOF(p)
    ensures LoadRef(p, file, ref, verify, maxChunk) == Err(EOF) <==> PastEnd(file, ref, maxChunk)
  {
    hide Get32;
  }

  /** For a reference whose recorded extent lies inside the file that takes a recorded compressed size of zero. */
  lemma InsidePastEnd(file: Bytes, ref: ChunkRef, maxChunk: u32)
    requires ref.chunkOffset + CHUNK_HEADER + ref.compSize <= |file|
    ensures PastEnd(file, ref, maxChunk) <==>
            && ref.compSize == 0 && !(maxChunk > 0 && ref.rawSize > maxChunk) && ref.chunkOffset < MAX_OFFSET
            && PayloadPastEnd(file, ref)
  {
    hide Get32;
  }

  /** The chunk limit of a reader refuses a reference by its recorded sizes and has no other effect. */
  lemma LoadRefLimits(p: Primitives, file: Bytes, ref: ChunkRef, verify: bool, maxChunk: u32)
    ensures LoadRef(p, file, ref, verify, maxChunk)
            == if maxChunk > 0 && (ref.rawSize > maxChunk || ref.compSize > maxChunk) then Err(LimitExceeded)
               else LoadRef(p, file, ref, verify, 0)
  {
    hide ReadChunk;
  }

  /** Both files hold the same bytes where the record of the reference lies. */
  ghost predicate SameRecord(file: Bytes, grown: Bytes, ref: ChunkRef)
  {
    var end := ref.chunkOffset + CHUNK_HEADER + ref.compSize;
    end <= |file| && end <= |grown| && grown[ref.chunkOffset..end] == file[ref.chunkOffset..end]
  }

  /** What a reference reads, payload or error, depends only on the bytes of its record: nothing else in a file
      matters. */
  lemma LoadRefStable(p: Primitives, file: Bytes, grown: Bytes, ref: ChunkRef, verify: bool, maxChunk: u32)
    requires SameRecord(file, grown, ref) && ref.compSize > 0
    ensures LoadRef(p, grown, ref, verify, maxChunk) == LoadRef(p, file, ref, verify, maxChunk)
  {
    hide Get32;
    var off: nat, n: nat := ref.chunkOffset, CHUNK_HEADER + ref.compSize;
    SameHead(file, grown, off, n);
    var comp := Get32(file, off + 8);
    if comp <= ref.compSize { SameSlices(file, grown, off, n, 16, 16 + comp); }
  }

  lemma SameHead(a: Bytes, b: Bytes, off: nat, n: nat)
    requires CHUNK_HEADER <= n && off + n <= |a| && off + n <= |b| && a[off..off + n] == b[off..off + n]
    ensures a[off..off + 2] == b[off..off + 2] && a[off + 2] == b[off + 2] && a[off + 3] == b[off + 3]
    ensures Get32(a, off + 4) == Get32(b, off + 4) && Get32(a, off + 8) == Get32(b, off + 8)
    ensures Get32(a, off + 12) == Get32(b, off + 12)
  {
    SameSlices(a, b, off, n, 0, 2);
    SameSlices(a, b, off, n, 4, 8);
    SameSlices(a, b, off, n, 8, 12);
    SameSlices(a, b, off, n, 12, 16);
    SameFields(a, b, off);
    assert a[off + 2] == a[off..off + n][2] && a[off + 3] == a[off..off + n][3];
    assert b[off + 2] == b[off..off + n][2] && b[off + 3] == b[off..off + n][3];
  }

  lemma SameFields(a: Bytes, b: Bytes, off: nat)
    requires off + 16 <= |a| && off + 16 <= |b|
    requires a[off + 4..off + 8] == b[off + 4..off + 8] && a[off + 8..off + 12] == b[off + 8..off + 12]
    requires a[off + 12..off + 16] == b[off + 12..off + 16]
    ensures Get32(a, off + 4) == Get32(b, off + 4) && Get32(a, off + 8) == Get32(b, off + 8)
    ensures Get32(a, off + 12) == Get32(b, off + 12)
  {
    hide UnLE;
  }

  lemma SameSlices(a: Bytes, b: Bytes, off: nat, n: nat, lo: nat, hi: nat)
    requires off + n <= |a| && off + n <= |b| && a[off..off + n] == b[off..off + n] && lo <= hi <= n
    ensures a[off + lo..off + hi] == b[off + lo..off + hi]
  {
    var w := a[off..off + n];
    AtWithin(a, off, w, lo, w[lo..hi]);
    AtWithin(b, off, w, lo, w[lo..hi]);
  }
}

/** Headers, header records and chunk records as the source writes them into buffers, and the loops of the scans. */
module RecordCode {
  import opened Binary
  import opened Common
  import opened Directory
  import opened Catalog
  import opened Header
  import opened Journal
  import opened Chunk
  import opened DirScan

  // ---------- header ----------

  /** `MarshalBinary` of the header, field by field. */
  method MarshalHeader(h: Header) returns (buf: Bytes)
    ensures buf == HeaderBytes(h)
  {
    hide LE;
    buf := h.magic;
    buf := buf + LE(h.version, 2);
    buf := buf + LE(h.headerSize, 2);
    buf := buf + LE(h.flags, 4);
    buf := buf + h.uuid;
    buf := buf + LE(h.created, 8);
    buf := buf + LE(h.dirOffset, 8);
    buf := buf + LE(h.dirSize, 8);
    buf := buf + LE(h.dirCRC, 4);
    buf := buf + LE(h.journalOffset, 8);
    buf := buf + LE(h.journalSize, 8);
    buf := buf + h.reserved;
  }

  // ---------- header records ----------

  /** `buildHeaderRecord`: the record is appended with a zero checksum, which is then patched in place. */
  method BuildHeaderRecord(p: Primitives, magic: Bytes, head: Bytes, ts: u64) returns (r: Result<Bytes>)
    requires |magic| == 4
    ensures r == if |head| != SLOT then Err(InvalidFormat) else Ok(RecordBytes(p, magic, head, ts))
  {
    hide LE;
    if |head| != SLOT { return Err(InvalidFormat); }
    var body := magic + LE(ts, 8) + head + LE(p.crc(head), 4);
    assert body == RecordBody(p, magic, head, ts);
    var buf := new byte[RECORD_SIZE](i => 0);
    CopyInto(buf, 0, body);
    assert buf[..RECORD_SIZE - 4] == body;
    CopyInto(buf, RECORD_SIZE - 4, LE(p.crc(buf[..RECORD_SIZE - 4]), 4));
    assert buf[..] == body + LE(p.crc(body), 4);
    r := Ok(buf[..]);
  }

  // ---------- chunk records ----------

  /** `EncodeChunkRecord`: sixteen bytes of header and the payload, written into one output buffer. */
  method EncodeChunkRecord(p: Primitives, raw: Bytes, codec: u8, level: u8) returns (r: Result<(Bytes, u32)>)
    ensures r == EncodeChunk(p, raw, codec, level)
  {
    hide LE, Headed, ChunkHead;
    if |raw| == 0 { return Err(InvalidFormat); }
    var comp := p.compress(raw, codec, level);
    if comp.Err? { return Err(comp.error); }
    var crc := p.crc(raw);
    var out := new byte[CHUNK_HEADER + |comp.value|](i => 0);
    assert Headed(out[..], []) by { HeadedStart(out[..]); }
    ghost var d := PutField(out, 0, MAGIC_CHUNK, []);
    d := PutField(out, 2, [codec, level], d);
    d := PutField(out, 4, LE(|raw|, 4), d);
    d := PutField(out, 8, LE(|comp.value|, 4), d);
    d := PutField(out, 12, LE(crc, 4), d);
    ChunkHeadIs(codec, level, |raw|, |comp.value|, crc, d);
    d := PutField(out, CHUNK_HEADER, comp.value, d);
    HeadedFull(out[..], d);
    r := Ok((out[..], crc));
  }

  // ---------- loops of the directory scan ----------

  /** The cursor loop of `readDirectoryCandidateAt`. */
  method WalkEntries(file: Bytes, off: nat, n: nat) returns (r: Option<nat>)
    ensures r == Walk(file, off, HEADER_SIZE, n)
  {
    hide ParseHead;
    var cursor: nat := HEADER_SIZE;
    for i := 0 to n
      invariant Walk(file, off, HEADER_SIZE, n) == Walk(file, off, cursor, n - i)
    {
      if off + cursor + HEAD_SIZE > |file| { return None; }
      cursor := cursor + ParsedSize(ParseHead(file, off + cursor));
      if off + cursor + FOOTER_SIZE > |file| { return None; }
    }
    r := Some(cursor);
  }

  /** The loop of `entryReadableAt`, with its running end. */
  method EntryReadable(p: Primitives, file: Bytes, e: Entry) returns (ok: bool)
    ensures ok == Readable(p, file, e)
  {
    hide LoadRef;
    var endRaw: u64 := 0;
    for i := 0 to |e.chunks|
      invariant ReadableFrom(p, file, e.chunks, 0, 0) == ReadableFrom(p, file, e.chunks, i, endRaw)
    {
      var ref := e.chunks[i];
      if LoadRef(p, file, ref, true, 0).Err? { return false; }
      if i > 0 && ref.rawOffset < endRaw { return false; }
      if ref.rawOffset + ref.rawSize > MAX64 { return false; }
      endRaw := ref.rawOffset + ref.rawSize;
    }
    ok := if |e.chunks| == 0 then e.fileSize == 0 else endRaw == e.fileSize;
  }

  /** `assessReadableEntriesAt`. */
  method AssessReadable(p: Primitives, file: Bytes, es: seq<Entry>) returns (n: nat)
    ensures n == CountReadable(p, file, es)
  {
    hide Readable;
    n := 0;
    for i := 0 to |es|
      invariant n == CountReadable(p, file, es[..i])
    {
      assert es[..i + 1][..i] == es[..i];
      var ok := EntryReadable(p, file, es[i]);
      if ok { n := n + 1; }
    }
    assert es[..|es|] == es;
  }

  lemma ChunkHeadIs(codec: u8, level: u8, rawLen: nat, compLen: nat, crc: u32, d: Bytes)
    requires d == [] + MAGIC_CHUNK + [codec, level] + LE(rawLen, 4) + LE(compLen, 4) + LE(crc, 4)
    ensures d == ChunkHead(codec, level, rawLen, compLen, crc)
  {
    hide LE;
  }
}

/** JNL1 and BKP1 records: their bytes, the backwards search of the file's tail, and the choice between them. */
module Journal {
  import opened Binary
  import opened Common
  import opened Directory
  import opened Header
  import opened Snapshot

  const MAGIC_JOURNAL: Bytes := [74, 78, 76, 49]  // "JNL1"
  const MAGIC_BACKUP: Bytes := [66, 75, 80, 49]   // "BKP1"
  const SEARCH_BYTES := 0x80_0000                  // 8 MiB

  // ---------- one record ----------

  function RecordBody(p: Primitives, magic: Bytes, head: Bytes, ts: u64): (b: Bytes)
    requires |magic| == 4 && |head| == SLOT
    ensures |b| == RECORD_SIZE - 4
  {
    magic + (LE(ts, 8) + (head + LE(p.crc(head), 4)))
  }

  /** `buildHeaderRecord`. */
  function RecordBytes(p: Primitives, magic: Bytes, head: Bytes, ts: u64): (b: Bytes)
    requires |magic| == 4 && |head| == SLOT
    ensures |b| == RECORD_SIZE
  {
    RecordBody(p, magic, head, ts) + LE(p.crc(RecordBody(p, magic, head, ts)), 4)
  }

  /** `parseHeaderRecord`. */
  function ParseRecord(p: Primitives, magic: Bytes, b: Bytes): Result<(Bytes, u64)>
    requires |magic| == 4
  {
    if |b| != RECORD_SIZE || b[..4] != magic then Err(InvalidFormat)
    else if p.crc(b[..RECORD_SIZE - 4]) != Get32(b, RECORD_SIZE - 4) then Err(InvalidFormat)
    else if p.crc(b[12..12 + SLOT]) != Get32(b, 12 + SLOT) then Err(InvalidFormat)
    else Ok((b[12..12 + SLOT], Get64(b, 4)))
  }

  /** A buffer parses as a record of (head, ts) exactly when it is the record built from them. */
  lemma ParseRecordIff(p: Primitives, magic: Bytes, b: Bytes, head: Bytes, ts: u64)
    requires |magic| == 4 && |head| == SLOT
    ensures ParseRecord(p, magic, b) == Ok((head, ts)) <==> b == RecordBytes(p, magic, head, ts)
  {
    if |b| == RECORD_SIZE {
      var body := RecordBody(p, magic, head, ts);
      assert b[0..0 + |b|] == b;
      RecordSplit(p, magic, b, head, ts);
      Get64At(b, 4, ts);
      Get32At(b, 12 + SLOT, p.crc(head));
      Get32At(b, RECORD_SIZE - 4, p.crc(body));
      SliceAt(b, 0, magic);
      SliceAt(b, 12, head);
      SliceAt(b, 0, body);
      SliceAt(b, 0, RecordBytes(p, magic, head, ts));
      assert b[..4] == b[0..4] && b[..RECORD_SIZE - 4] == b[0..RECORD_SIZE - 4];
      hide At, LE, Get32, Get64, RecordBody;
    }
  }

  lemma RecordSplit(p: Primitives, magic: Bytes, b: Bytes, head: Bytes, ts: u64)
    requires |magic| == 4 && |head| == SLOT
    ensures At(b, 0, RecordBytes(p, magic, head, ts)) <==>
              && At(b, 0, RecordBody(p, magic, head, ts))
              && At(b, RECORD_SIZE - 4, LE(p.crc(RecordBody(p, magic, head, ts)), 4))
    ensures At(b, 0, RecordBody(p, magic, head, ts)) <==>
              At(b, 0, magic) && At(b, 4, LE(ts, 8)) && At(b, 12, head) && At(b, 12 + SLOT, LE(p.crc(head), 4))
  {
    hide At, LE;
    var body := RecordBody(p, magic, head, ts);
    AtSplit(b, 0, body, LE(p.crc(body), 4));
    AtSplit(b, 0, magic, LE(ts, 8) + (head + LE(p.crc(head), 4)));
    AtSplit(b, 4, LE(ts, 8), head + LE(p.crc(head), 4));
    AtSplit(b, 12, head, LE(p.crc(head), 4));
  }

  // ---------- the search ----------

  /** `validateHeaderDirectory`: the header names a directory that decodes in full. */
  predicate NamesDirectory(p: Primitives, file: Bytes, h: Header)
  {
    var blob := ReadDirBlob(file, h);
    blob.Ok? && Decode(p, blob.value, h.dirCRC, h.dirSize).Ok?
  }

  /** The header and time in a record-sized piece of the file, if it is a usable record of this kind. */
  function RecordIn(p: Primitives, file: Bytes, magic: Bytes, piece: Bytes): Option<(Header, u64)>
    requires |magic| == 4
  {
    match ParseRecord(p, magic, piece)
    case Err(_) => None
    case Ok(rec) =>
      match UnmarshalHeader(rec.0)
      case Err(_) => None
      case Ok(h) => if NamesDirectory(p, file, h) then Some((h, rec.1)) else None
  }

  function RecordAt(p: Primitives, file: Bytes, magic: Bytes, off: nat): Option<(Header, u64)>
    requires |magic| == 4
  {
    if off + RECORD_SIZE > |file| then None else RecordIn(p, file, magic, file[off..off + RECORD_SIZE])
  }

  /** The directory that a header names lies intact in the file. */
  ghost predicate DirectoryThere(p: Primitives, file: Bytes, h: Header)
  {
    exists es, build :: DirectoryIs(p, file, h, es, build)
  }

  ghost predicate DirectoryIs(p: Primitives, file: Bytes, h: Header, es: seq<Entry>, build: u64)
  {
    && AllCanonical(p, es) && 0 < h.dirOffset && At(file, h.dirOffset, DirBytes(p, es, build))
    && h.dirSize == |DirBytes(p, es, build)| <= MAX_BLOB && h.dirCRC == p.crc(BodyBytes(es, build))
  }

  /** A header names a directory exactly when the bytes of one lie at the place, of the size and with the checksum it
      gives. */
  lemma NamesDirectoryIff(p: Primitives, file: Bytes, h: Header)
    ensures NamesDirectory(p, file, h) <==> DirectoryThere(p, file, h)
  {
    hide Decode, DirBytes, BodyBytes, Canonical;
    if NamesDirectory(p, file, h) {
      var blob := ReadDirBlob(file, h).value;
      var d := Decode(p, blob, h.dirCRC, h.dirSize).value;
      DecodeIff(p, blob, h.dirCRC, h.dirSize, d);
      assert DirectoryIs(p, file, h, d.entries, d.buildUnix);
    }
    if DirectoryThere(p, file, h) {
      var es, build :| DirectoryIs(p, file, h, es, build);
      PrintedCounts(p, es, build);
      DecodeIff(p, DirBytes(p, es, build), h.dirCRC, h.dirSize, Dir(|es|, 0, build, es));
    }
  }

  lemma PrintedCounts(p: Primitives, es: seq<Entry>, build: u64)
    requires |DirBytes(p, es, build)| <= MAX_BLOB
    ensures |es| < U32 && 0 < |DirBytes(p, es, build)|
  {
    hide EntriesBytes;
    EntriesBytesSize(es);
    PrintedLayout(p, es, build);
  }

  /** The usable records are those whose bytes are those of a record of some header, itself well formed, whose directory
      is there. */
  lemma RecordAtIff(p: Primitives, file: Bytes, magic: Bytes, off: nat, h: Header, ts: u64)
    requires |magic| == 4
    ensures RecordAt(p, file, magic, off) == Some((h, ts)) <==>
            && At(file, off, RecordBytes(p, magic, HeaderBytes(h), ts)) && DirectoryThere(p, file, h)
            && h.magic == MAGIC_HEADER && h.version == 1 && h.headerSize == SLOT
  {
    hide HeaderBytes, NamesDirectory, RecordBytes, ParseRecord, DirectoryThere, UnmarshalHeader;
    NamesDirectoryIff(p, file, h);
    if off + RECORD_SIZE <= |file| {
      var piece := file[off..off + RECORD_SIZE];
      ParseRecordIff(p, magic, piece, HeaderBytes(h), ts);
      HeaderRoundTrip(h, HeaderBytes(h));
      var rec := ParseRecord(p, magic, piece);
      if rec.Ok? {
        ParsedHeadSize(p, magic, piece);
        HeadOfHeader(rec.value.0, h);
      }
    }
  }

  lemma ParsedHeadSize(p: Primitives, magic: Bytes, piece: Bytes)
    requires |magic| == 4 && ParseRecord(p, magic, piece).Ok?
    ensures |ParseRecord(p, magic, piece).value.0| == SLOT
  {
  }

  lemma HeadOfHeader(head: Bytes, h: Header)
    requires |head| == SLOT
    ensures UnmarshalHeader(head) == Ok(h) ==> head == HeaderBytes(h)
  {
    hide HeaderBytes;
    HeaderRoundTrip(h, head);
  }

  function WindowStart(size: nat): nat
  {
    if size < SEARCH_BYTES then 0 else size - SEARCH_BYTES
  }

  /** `recoverHeaderByMagic`, as the highest usable record among the n lowest positions of the window. */
  function SearchBelow(p: Primitives, file: Bytes, magic: Bytes, n: nat): Result<(Header, u64)>
    requires |magic| == 4
  {
    if n == 0 then Err(InvalidFormat)
    else
      var r := RecordAt(p, file, magic, WindowStart(|file|) + n - 1);
      if r.Some? then Ok(r.value) else SearchBelow(p, file, magic, n - 1)
  }

  function RecoverByMagic(p: Primitives, file: Bytes, magic: Bytes): Result<(Header, u64)>
    requires |magic| == 4
  {
    if |file| < RECORD_SIZE then Err(InvalidFormat)
    else SearchBelow(p, file, magic, |file| - WindowStart(|file|) - RECORD_SIZE + 1)
  }

  /** The search returns a record exactly when it is usable, lies in the window, and none above it is. */
  lemma {:induction false} HighestRecord(p: Primitives, file: Bytes, magic: Bytes, n: nat)
    requires |magic| == 4
    ensures var s := WindowStart(|file|);
            match SearchBelow(p, file, magic, n)
            case Ok(v) => exists o: nat :: s <= o < s + n && RecordAt(p, file, magic, o) == Some(v)
                            && forall q: nat :: o < q < s + n ==> RecordAt(p, file, magic, q).None?
            case Err(e) => e == InvalidFormat && forall q: nat :: s <= q < s + n ==> RecordAt(p, file, magic, q).None?
  {
    hide RecordAt;
    if n != 0 {
      HighestRecord(p, file, magic, n - 1);
      var top: nat := WindowStart(|file|) + n - 1;
      if RecordAt(p, file, magic, top).Some? {
        assert forall q: nat :: top < q < WindowStart(|file|) + n ==> RecordAt(p, file, magic, q).None?;
      }
    }
  }

  /** The backwards loop over the tail buffer. */
  method RecoverHeaderByMagic(p: Primitives, file: Bytes, magic: Bytes) returns (r: Result<(Header, u64)>)
    requires |magic| == 4
    ensures r == RecoverByMagic(p, file, magic)
  {
    hide Decode, UnmarshalHeader, ReadDirBlob, ParseRecord, NamesDirectory;
    if |file| < RECORD_SIZE { return Err(InvalidFormat); }
    var start := WindowStart(|file|);
    var buf := file[start..];
    var i := |buf| - RECORD_SIZE;
    while i >= 0
      invariant -1 <= i <= |buf| - RECORD_SIZE
      invariant SearchBelow(p, file, magic, i + 1) == RecoverByMagic(p, file, magic)
    {
      var piece := buf[i..i + RECORD_SIZE];
      assert piece == file[start + i..start + i + RECORD_SIZE];
      if piece[..4] == magic {
        var rec := ParseRecord(p, magic, piece);
        if rec.Ok? {
          var h := UnmarshalHeader(rec.value.0);
          if h.Ok? && NamesDirectory(p, file, h.value) { return Ok((h.value, rec.value.1)); }
        }
      } else {
        NoMagic(p, magic, piece);
      }
      i := i - 1;
    }
    r := Err(InvalidFormat);
  }

  lemma NoMagic(p: Primitives, magic: Bytes, piece: Bytes)
    requires |magic| == 4 && |piece| == RECORD_SIZE && piece[..4] != magic
    ensures ParseRecord(p, magic, piece).Err?
  {
  }

  // ---------- the choice ----------

  /** `recoverBestHeader`: the later of the two records; a lone record of either kind is enough. */
  function RecoverBest(p: Primitives, file: Bytes): Result<Header>
  {
    match (RecoverByMagic(p, file, MAGIC_JOURNAL), RecoverByMagic(p, file, MAGIC_BACKUP))
    case (Err(_), Err(_)) => Err(InvalidFormat)
    case (Ok(j), Err(_)) => Ok(j.0)
    case (Err(_), Ok(b)) => Ok(b.0)
    case (Ok(j), Ok(b)) => if b.1 >= j.1 then Ok(b.0) else Ok(j.0)
  }

  /** The usable record highest in the file, no more than 8 MiB from its end. */
  ghost predicate Highest(p: Primitives, file: Bytes, magic: Bytes, o: nat, rec: (Header, u64))
    requires |magic| == 4
  {
    && |file| <= o + SEARCH_BYTES && RecordAt(p, file, magic, o) == Some(rec)
    && forall q: nat :: o < q ==> RecordAt(p, file, magic, q).None?
  }

  ghost predicate NoneUsable(p: Primitives, file: Bytes, magic: Bytes)
    requires |magic| == 4
  {
    forall o: nat :: |file| <= o + SEARCH_BYTES ==> RecordAt(p, file, magic, o).None?
  }

  lemma SearchFinds(p: Primitives, file: Bytes, magic: Bytes)
    requires |magic| == 4
    ensures match RecoverByMagic(p, file, magic)
            case Ok(rec) => exists o :: Highest(p, file, magic, o, rec)
            case Err(_) => NoneUsable(p, file, magic)
  {
    hide RecordIn, SearchBelow;
    if RECORD_SIZE <= |file| {
      var n := |file| - WindowStart(|file|) - RECORD_SIZE + 1;
      HighestRecord(p, file, magic, n);
      if RecoverByMagic(p, file, magic).Ok? {
        var rec := RecoverByMagic(p, file, magic).value;
        var o: nat :| WindowStart(|file|) <= o < WindowStart(|file|) + n && RecordAt(p, file, magic, o) == Some(rec)
                      && forall q: nat :: o < q < WindowStart(|file|) + n ==> RecordAt(p, file, magic, q).None?;
        assert Highest(p, file, magic, o, rec);
      }
    }
  }

  lemma HighestUnique(p: Primitives, file: Bytes, magic: Bytes, o: nat, rec: (Header, u64), u: nat, other: (Header, u64))
    requires |magic| == 4 && Highest(p, file, magic, o, rec) && Highest(p, file, magic, u, other)
    ensures o == u && rec == other
  {
    hide RecordAt;
  }

  /** The highest JNL1 holds h, and the highest BKP1, if there is one, is earlier. */
  ghost predicate JournalLater(p: Primitives, file: Bytes, h: Header)
  {
    exists o, ts :: Highest(p, file, MAGIC_JOURNAL, o, (h, ts))
      && forall u, rec :: Highest(p, file, MAGIC_BACKUP, u, rec) ==> rec.1 < ts
  }

  /** The highest BKP1 holds h, and the highest JNL1, if there is one, is not later. */
  ghost predicate BackupNotEarlier(p: Primitives, file: Bytes, h: Header)
  {
    exists o, ts :: Highest(p, file, MAGIC_BACKUP, o, (h, ts))
      && forall u, rec :: Highest(p, file, MAGIC_JOURNAL, u, rec) ==> rec.1 <= ts
  }

  /** A header is recovered from the tail exactly when it is that of the later of the two highest records, of the backup
      record if their times are equal, or of the only one; and none exactly when there is none. */
  lemma BestRecordIff(p: Primitives, file: Bytes, h: Header)
    ensures RecoverBest(p, file) == Ok(h) <==> JournalLater(p, file, h) || BackupNotEarlier(p, file, h)
    ensures RecoverBest(p, file).Err? <==> NoneUsable(p, file, MAGIC_JOURNAL) && NoneUsable(p, file, MAGIC_BACKUP)
    ensures RecoverBest(p, file).Err? ==> RecoverBest(p, file).error == InvalidFormat
  {
    hide RecordAt, RecoverByMagic;
    SearchFinds(p, file, MAGIC_JOURNAL);
    SearchFinds(p, file, MAGIC_BACKUP);
    forall magic, o, rec, u, other | |magic| == 4 && Highest(p, file, magic, o, rec) && Highest(p, file, magic, u, other)
      ensures rec == other
    {
      HighestUnique(p, file, magic, o, rec, u, other);
    }
  }

  /** When the file ends with the backup record of a header whose directory is intact, and no usable
      journal record is later, that header is recovered whatever the two slots hold. */
  lemma BackupAtEndRecovers(p: Primitives, file: Bytes, h: Header, ts: u64)
    requires RECORD_SIZE <= |file| && NamesDirectory(p, file, h) && Stamped(h)
    requires At(file, |file| - RECORD_SIZE, RecordBytes(p, MAGIC_BACKUP, HeaderBytes(h), ts))
    requires var j := RecoverByMagic(p, file, MAGIC_JOURNAL); j.Ok? ==> j.value.1 <= ts
    ensures RecoverBest(p, file) == Ok(h)
  {
    hide HeaderBytes, NamesDirectory, RecordBytes, RecordAt;
    var off := |file| - RECORD_SIZE;
    UsableAt(p, file, MAGIC_BACKUP, off, h, ts);
    assert WindowStart(|file|) + (|file| - WindowStart(|file|) - RECORD_SIZE + 1) - 1 == off;
  }

  /** No usable journal record starts behind the last but one record of the file. */
  ghost predicate NoJournalInside(p: Primitives, file: Bytes)
  {
    forall o: nat :: |file| - 2 * RECORD_SIZE < o ==> RecordAt(p, file, MAGIC_JOURNAL, o).None?
  }

  /** When the file ends with the two records of a header whose directory is intact, that header is recovered whatever
      their times are, even if the clock was set back between them. */
  lemma BothRecordsRecover(p: Primitives, file: Bytes, h: Header, tj: u64, tb: u64)
    requires 2 * RECORD_SIZE <= |file| && NamesDirectory(p, file, h) && Stamped(h) && NoJournalInside(p, file)
    requires At(file, |file| - 2 * RECORD_SIZE, RecordBytes(p, MAGIC_JOURNAL, HeaderBytes(h), tj))
    requires At(file, |file| - RECORD_SIZE, RecordBytes(p, MAGIC_BACKUP, HeaderBytes(h), tb))
    ensures RecoverBest(p, file) == Ok(h)
  {
    hide HeaderBytes, NamesDirectory, RecordBytes, RecordAt, SearchBelow;
    var j, b := |file| - 2 * RECORD_SIZE, |file| - RECORD_SIZE;
    UsableAt(p, file, MAGIC_JOURNAL, j, h, tj);
    UsableAt(p, file, MAGIC_BACKUP, b, h, tb);
    var n := |file| - WindowStart(|file|) - RECORD_SIZE + 1;
    HighestRecord(p, file, MAGIC_JOURNAL, n);
    HighestRecord(p, file, MAGIC_BACKUP, n);
  }

  lemma UsableAt(p: Primitives, file: Bytes, magic: Bytes, off: nat, h: Header, ts: u64)
    requires |magic| == 4 && off + RECORD_SIZE <= |file| && NamesDirectory(p, file, h) && Stamped(h)
    requires At(file, off, RecordBytes(p, magic, HeaderBytes(h), ts))
    ensures RecordAt(p, file, magic, off) == Some((h, ts))
  {
    hide HeaderBytes, NamesDirectory, RecordBytes, ParseRecord, CheckLayout;
    ParseRecordIff(p, magic, file[off..off + RECORD_SIZE], HeaderBytes(h), ts);
    HeaderRoundTrip(h, HeaderBytes(h));
  }
}

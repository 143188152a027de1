/** The recovery ladder of Open: primary header, fixed backup slot, tail records, directory scan. */
module Open {
  import opened Binary
  import opened Common
  import opened Directory
  import opened Catalog
  import opened Header
  import opened Snapshot
  import opened Journal
  import opened DirScan

  /** What Open hands to the container; `repair` tells whether it also rewrites the header slots. */
  datatype Opened = Opened(h: Header, snap: Snapshot, repair: bool)

  /** `recoverHeaderFromFixedBackup`. */
  function FixedSlot(p: Primitives, file: Bytes): Result<Header>
  {
    if |file| < 2 * SLOT then Err(EOF)
    else match UnmarshalHeader(file[SLOT..2 * SLOT])
      case Err(x) => Err(x)
      case Ok(h) => if NamesDirectory(p, file, h) then Ok(h) else Err(InvalidFormat)
  }

  /** `tryRecovered`: an error that does not send Open on is fatal. */
  function TryRecovered(p: Primitives, file: Bytes, r: Result<Header>): Result<Option<Opened>>
  {
    match r
    case Err(_) => Ok(None)
    case Ok(h) =>
      match LoadSnapshot(p, file, h)
      case Ok(s) => Ok(Some(Opened(h, s, true)))
      case Err(x) => if Recoverable(x) then Ok(None) else Err(x)
  }

  /** `loadSnapshotFromDirectoryRecovery`. */
  function LoadFromDirectory(p: Primitives, file: Bytes, h: Header): Result<Snapshot>
  {
    match ReadDirBlob(file, h)
    case Err(x) => Err(x)
    case Ok(blob) =>
      match Decode(p, blob, h.dirCRC, h.dirSize)
      case Err(x) => Err(x)
      case Ok(d) =>
        if UniquePaths(d.entries) && ChunksInside(MapOf(d.entries), |file|) then Ok(Eager(MapOf(d.entries)))
        else Err(InvalidFormat)
  }

  /** The directory scan, the last rung; when it finds nothing the first error is reported. */
  function FromScan(p: Primitives, file: Bytes, first: Error): Result<Opened>
  {
    if |file| >= U64 then Err(first)
    else match ScanForDirectory(p, file)
      case Err(_) => Err(first)
      case Ok(h) =>
        match LoadFromDirectory(p, file, h)
        case Err(x) => Err(x)
        case Ok(s) => Ok(Opened(h, s, false))
  }

  function FromRecords(p: Primitives, file: Bytes, first: Error): Result<Opened>
  {
    match TryRecovered(p, file, RecoverBest(p, file))
    case Err(x) => Err(x)
    case Ok(Some(o)) => Ok(o)
    case Ok(None) => FromScan(p, file, first)
  }

  function FromFixedSlot(p: Primitives, file: Bytes, first: Error): Result<Opened>
  {
    match TryRecovered(p, file, FixedSlot(p, file))
    case Err(x) => Err(x)
    case Ok(Some(o)) => Ok(o)
    case Ok(None) => FromRecords(p, file, first)
  }

  /** The primary header, if it parses and loads. */
  function Primary(p: Primitives, file: Bytes): Result<Opened>
    requires SLOT <= |file|
  {
    match UnmarshalHeader(file[..SLOT])
    case Err(x) => Err(x)
    case Ok(h) =>
      match LoadSnapshot(p, file, h)
      case Err(x) => Err(x)
      case Ok(s) => Ok(Opened(h, s, false))
  }

  /** Everything `Open` computes from a file image. */
  function OpenImage(p: Primitives, file: Bytes): Result<Opened>
  {
    if |file| < SLOT then Err(EOF)
    else match Primary(p, file)
      case Ok(o) => Ok(o)
      case Err(x) => if Recoverable(x) then FromFixedSlot(p, file, x) else Err(x)
  }

  // ---------- what the rungs guarantee ----------

  lemma StampedUnmarshals(h: Header)
    requires Stamped(h)
    ensures UnmarshalHeader(HeaderBytes(h)) == Ok(h)
  {
    hide HeaderBytes, CheckLayout, UnmarshalHeader;
    HeaderRoundTrip(h, HeaderBytes(h));
  }

  lemma AnchorNamesDirectory(p: Primitives, file: Bytes, a: Anchor)
    requires Anchored(p, file, a)
    ensures NamesDirectory(p, file, a.h)
  {
    hide DirBytes, BodyBytes, Decode, CheckLayout, IndexAnchored, RefsIntact, Envelope, UniquePaths, Canonical, Stamped;
    AnchorEnvelope(p, file, a);
    AnchorBlobSize(p, a);
  }

  lemma AnchorUnmarshals(p: Primitives, file: Bytes, a: Anchor)
    requires Anchored(p, file, a)
    ensures UnmarshalHeader(HeaderBytes(a.h)) == Ok(a.h) && NamesDirectory(p, file, a.h)
    ensures LoadSnapshot(p, file, a.h) == Ok(a.Loaded(p))
  {
    hide HeaderBytes, LoadSnapshot, DirAnchored, IndexAnchored, RefsIntact, UnmarshalHeader, NamesDirectory, Stamped;
    StampedUnmarshals(a.h);
    AnchorNamesDirectory(p, file, a);
    EssenceDecides(p, file, a.h, a);
  }

  /** An intact primary slot is used, whatever the rest of the file holds. */
  lemma PrimaryOpens(p: Primitives, file: Bytes, a: Anchor)
    requires Anchored(p, file, a) && SLOT <= |file| && file[..SLOT] == HeaderBytes(a.h)
    ensures OpenImage(p, file) == Ok(Opened(a.h, a.Loaded(p), false))
  {
    hide Grounded, HeaderBytes, OpenImage;
    GroundedOpens(p, file, a);
  }

  /** Open does not look at the chunk references. */
  lemma GroundedOpens(p: Primitives, file: Bytes, a: Anchor)
    requires Grounded(p, file, a) && SLOT <= |file| && file[..SLOT] == HeaderBytes(a.h)
    ensures Primary(p, file) == Ok(Opened(a.h, a.Loaded(p), false)) && OpenImage(p, file) == Primary(p, file)
  {
    hide DirAnchored, IndexAnchored, HeaderBytes, LoadSnapshot, UnmarshalHeader, Stamped;
    StampedUnmarshals(a.h);
    GroundedLoads(p, file, a.h, a);
  }

  /** When the primary slot fails recoverably, an intact fixed slot is used and the slots are repaired. */
  lemma FixedSlotOpens(p: Primitives, file: Bytes, a: Anchor)
    requires Anchored(p, file, a) && 2 * SLOT <= |file| && file[SLOT..2 * SLOT] == HeaderBytes(a.h)
    requires Primary(p, file).Err? && Recoverable(Primary(p, file).error)
    ensures OpenImage(p, file) == Ok(Opened(a.h, a.Loaded(p), true))
  {
    hide Anchored, HeaderBytes, LoadSnapshot, UnmarshalHeader, NamesDirectory, Primary;
    AnchorUnmarshals(p, file, a);
  }

  /** When neither slot can be used, the header chosen among the records of the tail is. */
  lemma BestRecordOpens(p: Primitives, file: Bytes, a: Anchor)
    requires Anchored(p, file, a) && SLOT <= |file| && RecoverBest(p, file) == Ok(a.h)
    requires Primary(p, file).Err? && Recoverable(Primary(p, file).error)
    requires TryRecovered(p, file, FixedSlot(p, file)) == Ok(None)
    ensures OpenImage(p, file) == Ok(Opened(a.h, a.Loaded(p), true))
  {
    hide HeaderBytes, LoadSnapshot, UnmarshalHeader, NamesDirectory, Primary, FixedSlot, RecoverBest, Anchored;
    AnchorUnmarshals(p, file, a);
  }

  /** Right behind a commit the file ends with its backup record.  If then neither slot can be used, and the journal
      record found in the tail is not later, Open yields the committed snapshot. */
  lemma TailRecordOpens(p: Primitives, file: Bytes, a: Anchor, ts: u64)
    requires Anchored(p, file, a) && 2 * SLOT + RECORD_SIZE <= |file|
    requires At(file, |file| - RECORD_SIZE, RecordBytes(p, MAGIC_BACKUP, HeaderBytes(a.h), ts))
    requires var j := RecoverByMagic(p, file, MAGIC_JOURNAL); j.Ok? ==> j.value.1 <= ts
    requires Primary(p, file).Err? && Recoverable(Primary(p, file).error)
    requires TryRecovered(p, file, FixedSlot(p, file)) == Ok(None)
    ensures OpenImage(p, file) == Ok(Opened(a.h, a.Loaded(p), true))
  {
    hide HeaderBytes, UnmarshalHeader, NamesDirectory, Primary, TryRecovered, FixedSlot, RecordBytes, RecoverByMagic,
         DirAnchored, IndexAnchored, RefsIntact, Stamped, OpenImage, RecoverBest;
    AnchorUnmarshals(p, file, a);
    BackupAtEndRecovers(p, file, a.h, ts);
    BestRecordOpens(p, file, a);
  }

  /** The last rung: if there is any directory in the file whose references lie inside it, the best of them is opened
      with its decoded map, unless two of its entries share a path; if there is none, the first error is reported. */
  lemma ScanOpens(p: Primitives, file: Bytes, first: Error)
    requires |file| < U64
    ensures match ScanForDirectory(p, file)
            case Err(_) => FromScan(p, file, first) == Err(first) && forall o: nat :: ScoredAt(p, file, o).None?
            case Ok(h) =>
              && CandidateAt(p, file, h.dirOffset).Ok?
              && var es := CandidateAt(p, file, h.dirOffset).value.0.entries;
                 FromScan(p, file, first)
                 == if UniquePaths(es) then Ok(Opened(h, Eager(MapOf(es)), false)) else Err(InvalidFormat)
  {
    hide ScanForDirectory, CandidateAt, Decode, UniquePaths, MapOf, RefsInside, Better, ScoredAt, ChunksInside, BodyBytes,
      Footer, DirHead, Canonical, At, Get64;
    ScanFindsBest(p, file);
    if ScanForDirectory(p, file).Ok? {
      var h := ScanForDirectory(p, file).value;
      ScoredIff(p, file, h.dirOffset);
      var (d, size, crc) := CandidateAt(p, file, h.dirOffset).value;
      CandidateIff(p, file, h.dirOffset, d, size, crc);
      DecodedIsPrinted(p, file[h.dirOffset..h.dirOffset + size], crc, size, d);
      PrintedLayout(p, d.entries, d.buildUnix);
      if UniquePaths(d.entries) { InsideMap(d.entries, |file|); }
    }
  }

  // ---------- the ladder as a whole ----------

  /** The slot at off holds a header with the right magic, version and size. */
  ghost predicate SlotHolds(file: Bytes, off: nat, h: Header)
  {
    At(file, off, HeaderBytes(h)) && h.magic == MAGIC_HEADER && h.version == 1 && h.headerSize == SLOT
  }

  /** What is wrong with the header sends Open on. */
  ghost predicate SendsOn(p: Primitives, file: Bytes, h: Header)
  {
    LoadSnapshot(p, file, h) == Err(InvalidFormat) || LoadSnapshot(p, file, h) == Err(CRCMismatch)
  }

  /** The primary slot holds no header, or one that sends Open on; x is the error. */
  ghost predicate PrimaryPassed(p: Primitives, file: Bytes, x: Error)
  {
    && SLOT <= |file|
    && (if exists h :: SlotHolds(file, 0, h) then forall h :: SlotHolds(file, 0, h) ==> SendsOn(p, file, h) && LoadSnapshot(p, file, h) == Err(x)
        else x == InvalidFormat)
  }

  /** The fixed slot holds no header whose directory is there, or one that sends Open on. */
  ghost predicate FixedPassed(p: Primitives, file: Bytes)
  {
    forall h :: SlotHolds(file, SLOT, h) && DirectoryThere(p, file, h) ==> SendsOn(p, file, h)
  }

  /** The header of the best record in the tail: the later, the backup's if neither is, or the only one. */
  ghost predicate BestInTail(p: Primitives, file: Bytes, h: Header)
  {
    JournalLater(p, file, h) || BackupNotEarlier(p, file, h)
  }

  ghost predicate RecordsPassed(p: Primitives, file: Bytes)
  {
    forall h :: BestInTail(p, file, h) ==> SendsOn(p, file, h)
  }

  lemma BestInTailIs(p: Primitives, file: Bytes, h: Header)
    ensures RecoverBest(p, file) == Ok(h) <==> BestInTail(p, file, h)
  {
    hide RecoverBest, JournalLater, BackupNotEarlier;
    BestRecordIff(p, file, h);
  }

  lemma SlotParses(file: Bytes, off: nat, h: Header)
    requires off + SLOT <= |file|
    ensures UnmarshalHeader(file[off..off + SLOT]) == Ok(h) <==> SlotHolds(file, off, h)
  {
    hide HeaderBytes;
    var b := file[off..off + SLOT];
    HeaderRoundTrip(h, b);
    if UnmarshalHeader(b) == Ok(h) { assert HeaderBytes(h) == b; }
    if SlotHolds(file, off, h) { assert b == HeaderBytes(h); }
  }

  lemma SlotParsesAll(file: Bytes, off: nat)
    requires off + SLOT <= |file|
    ensures forall h :: UnmarshalHeader(file[off..off + SLOT]) == Ok(h) <==> SlotHolds(file, off, h)
    ensures UnmarshalHeader(file[off..off + SLOT]).Err? ==> UnmarshalHeader(file[off..off + SLOT]).error == InvalidFormat
  {
    hide UnmarshalHeader, SlotHolds;
    forall h
      ensures UnmarshalHeader(file[off..off + SLOT]) == Ok(h) <==> SlotHolds(file, off, h)
    {
      SlotParses(file, off, h);
    }
    UnmarshalError(file[off..off + SLOT]);
  }

  lemma UnmarshalError(b: Bytes)
    ensures UnmarshalHeader(b).Err? ==> UnmarshalHeader(b).error == InvalidFormat
  {
    hide ParseHeader;
  }

  /** A file too short for a header is not opened.  Otherwise, if the primary slot holds a header: one that loads is used,
      and nothing is rewritten; one that fails for good, which LoadErrors describes, decides; and one that sends Open on
      passes its error to the rungs below, whose error is InvalidFormat if there is no header. */
  lemma PrimaryDecides(p: Primitives, file: Bytes, h: Header)
    ensures |file| < SLOT ==> OpenImage(p, file) == Err(EOF)
    ensures SlotHolds(file, 0, h) ==> match LoadSnapshot(p, file, h)
              case Ok(s) => OpenImage(p, file) == Ok(Opened(h, s, false))
              case Err(x) =>
                if x == InvalidFormat || x == CRCMismatch then PrimaryPassed(p, file, x)
                else OpenImage(p, file) == Err(x)
    ensures SLOT <= |file| && !(exists g :: SlotHolds(file, 0, g)) ==> PrimaryPassed(p, file, InvalidFormat)
  {
    hide LoadSnapshot, UnmarshalHeader, SlotHolds, FromFixedSlot;
    if SLOT <= |file| {
      SlotParsesAll(file, 0);
      assert file[0..0 + SLOT] == file[..SLOT];
    } else {
      SlotRoom(file, 0, h);
    }
  }

  lemma SlotRoom(file: Bytes, off: nat, h: Header)
    ensures SlotHolds(file, off, h) ==> off + SLOT <= |file|
  {
    hide HeaderBytes;
  }

  lemma PassedPrimary(p: Primitives, file: Bytes, x: Error)
    requires PrimaryPassed(p, file, x)
    ensures OpenImage(p, file) == FromFixedSlot(p, file, x)
  {
    hide LoadSnapshot, UnmarshalHeader, SlotHolds, FromFixedSlot;
    SlotParsesAll(file, 0);
    assert file[0..0 + SLOT] == file[..SLOT];
  }

  lemma FixedSlotIs(p: Primitives, file: Bytes, h: Header)
    ensures FixedSlot(p, file) == Ok(h) <==> SlotHolds(file, SLOT, h) && DirectoryThere(p, file, h)
  {
    hide NamesDirectory, DirectoryThere, UnmarshalHeader, SlotHolds;
    NamesDirectoryIff(p, file, h);
    if 2 * SLOT <= |file| { SlotParses(file, SLOT, h); } else { SlotRoom(file, SLOT, h); }
  }

  /** Past the primary slot: if the fixed slot holds a header whose directory is there, one that loads is used and the
      slots are rewritten, and one that fails for good decides. */
  lemma FixedDecides(p: Primitives, file: Bytes, first: Error, h: Header)
    requires PrimaryPassed(p, file, first) && SlotHolds(file, SLOT, h) && DirectoryThere(p, file, h)
    ensures match LoadSnapshot(p, file, h)
            case Ok(s) => OpenImage(p, file) == Ok(Opened(h, s, true))
            case Err(x) => if x == InvalidFormat || x == CRCMismatch then FixedPassed(p, file) else OpenImage(p, file) == Err(x)
  {
    hide LoadSnapshot, OpenImage, SlotHolds, DirectoryThere, FixedSlot, FromRecords, PrimaryPassed;
    PassedPrimary(p, file, first);
    FixedSlotIs(p, file, h);
    forall g | SlotHolds(file, SLOT, g) && DirectoryThere(p, file, g)
      ensures g == h
    {
      FixedSlotIs(p, file, g);
    }
  }

  lemma PassedFixed(p: Primitives, file: Bytes, first: Error)
    requires PrimaryPassed(p, file, first) && FixedPassed(p, file)
    ensures OpenImage(p, file) == FromRecords(p, file, first)
  {
    hide LoadSnapshot, OpenImage, SlotHolds, DirectoryThere, FixedSlot, FromRecords, PrimaryPassed;
    PassedPrimary(p, file, first);
    var r := FixedSlot(p, file);
    if r.Ok? { FixedSlotIs(p, file, r.value); }
  }

  /** Past both slots: the header of the best record in the tail is used if it loads, and the slots are rewritten; if it
      fails for good, it decides. */
  lemma RecordsDecide(p: Primitives, file: Bytes, first: Error, h: Header)
    requires PrimaryPassed(p, file, first) && FixedPassed(p, file) && BestInTail(p, file, h)
    ensures match LoadSnapshot(p, file, h)
            case Ok(s) => OpenImage(p, file) == Ok(Opened(h, s, true))
            case Err(x) => if x == InvalidFormat || x == CRCMismatch then RecordsPassed(p, file) else OpenImage(p, file) == Err(x)
  {
    hide LoadSnapshot, OpenImage, PrimaryPassed, FixedPassed, BestInTail, RecoverBest, FromScan;
    PassedFixed(p, file, first);
    BestInTailIs(p, file, h);
    forall g | BestInTail(p, file, g)
      ensures g == h
    {
      BestInTailIs(p, file, g);
    }
  }

  /** The later of two records, or a lone one, opens the map it was committed with. */
  lemma LaterRecordOpens(p: Primitives, file: Bytes, first: Error, a: Anchor)
    requires PrimaryPassed(p, file, first) && FixedPassed(p, file) && BestInTail(p, file, a.h) && Anchored(p, file, a)
    ensures OpenImage(p, file) == Ok(Opened(a.h, a.Loaded(p), true))
  {
    hide LoadSnapshot, OpenImage, PrimaryPassed, FixedPassed, BestInTail, Anchored;
    RecordsDecide(p, file, first, a.h);
    AnchorUnmarshals(p, file, a);
  }

  lemma PassedRecords(p: Primitives, file: Bytes, first: Error)
    requires PrimaryPassed(p, file, first) && FixedPassed(p, file) && RecordsPassed(p, file)
    ensures OpenImage(p, file) == FromScan(p, file, first)
  {
    hide LoadSnapshot, OpenImage, PrimaryPassed, FixedPassed, BestInTail, RecoverBest, FromScan;
    PassedFixed(p, file, first);
    var r := RecoverBest(p, file);
    if r.Ok? { BestInTailIs(p, file, r.value); }
  }

  /** Past slots and records: of all directories in the file the one with the most readable entries is opened, with its
      decoded map and a header made up for it, and nothing is rewritten; if two of its entries share a path Open fails;
      and if there is no directory, it returns the error of the primary slot. */
  lemma ScanDecides(p: Primitives, file: Bytes, first: Error)
    requires PrimaryPassed(p, file, first) && FixedPassed(p, file) && RecordsPassed(p, file) && |file| < U64
    ensures if forall o, d :: !Considered(p, file, o, d) then OpenImage(p, file) == Err(first)
            else exists h, d :: ScanChooses(p, file, h, d) && OpenImage(p, file)
                   == if UniquePaths(d.entries) then Ok(Opened(h, Eager(MapOf(d.entries)), false)) else Err(InvalidFormat)
  {
    hide OpenImage, PrimaryPassed, FixedPassed, RecordsPassed, Considered, MadeUp, ScanForDirectory, LoadFromDirectory,
      UniquePaths, MapOf, ReadablePlaces;
    PassedRecords(p, file, first);
    ScanFindsMostReadable(p, file);
    if ScanForDirectory(p, file).Ok? {
      var h := ScanForDirectory(p, file).value;
      var d :| Considered(p, file, h.dirOffset, d) && MadeUp(p, file, h, h.dirOffset, d)
               && forall u, c :: Considered(p, file, u, c) ==> AtLeastAsGood(p, file, h.dirOffset, d, u, c);
      assert ScanChooses(p, file, h, d);
      MadeUpLoads(p, file, h, d);
    }
  }

  /** d is a directory of the file at least as good as any other, and h the header made up for it. */
  ghost predicate ScanChooses(p: Primitives, file: Bytes, h: Header, d: Dir)
  {
    && Considered(p, file, h.dirOffset, d) && MadeUp(p, file, h, h.dirOffset, d)
    && forall u, c :: Considered(p, file, u, c) ==> AtLeastAsGood(p, file, h.dirOffset, d, u, c)
  }

  lemma MadeUpLoads(p: Primitives, file: Bytes, h: Header, d: Dir)
    requires Considered(p, file, h.dirOffset, d) && MadeUp(p, file, h, h.dirOffset, d)
    ensures LoadFromDirectory(p, file, h) == if UniquePaths(d.entries) then Ok(Eager(MapOf(d.entries))) else Err(InvalidFormat)
  {
    hide Decode, UniquePaths, MapOf, ChunksInside, Zeros;
    DecodedSize(p, file[h.dirOffset..h.dirOffset + h.dirSize], h.dirCRC, h.dirSize, d);
    if UniquePaths(d.entries) { InsideMapOf(d.entries, |file|); }
  }

  lemma DecodedSize(p: Primitives, b: Bytes, crc: u32, size: nat, d: Dir)
    requires Decode(p, b, crc, size) == Ok(d)
    ensures |b| == size > 0
  {
    hide Decode, DirBytes;
    DecodedIsPrinted(p, b, crc, size, d);
    PrintedLayout(p, d.entries, d.buildUnix);
  }

  lemma InsideMap(es: seq<Entry>, size: nat)
    requires RefsInside(es, size) && UniquePaths(es)
    ensures ChunksInside(MapOf(es), size)
  {
    hide UniquePaths, MapOf;
    MapOfMembers(es);
    var m := MapOf(es);
    forall k, i | k in m && 0 <= i < |m[k].chunks|
      ensures RefInside(m[k].chunks[i], size)
    {
      var j :| 0 <= j < |es| && es[j].path == k;
    }
  }
}

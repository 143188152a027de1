/** Loading the snapshot a header names, and what a header torn between commits can load as. */
module Snapshot {
  import opened Binary
  import opened Common
  import opened Directory
  import opened Catalog
  import opened Rows
  import opened HashRanges
  import opened DirIndex
  import opened Lookup
  import opened Header

  /** What a container holds after Open: the raw directory with its index, or the decoded map. */
  datatype Snapshot = Lazy(dirBlob: Bytes, idx: Index) | Eager(entries: Paths)

  // ---------- loading ----------

  /** `readDirectoryBlobByHeader`. */
  function ReadDirBlob(file: Bytes, h: Header): Result<Bytes>
  {
    if h.dirOffset == 0 || h.dirSize == 0 then Err(InvalidFormat)
    else if !RegionWithinFile(h.dirOffset, h.dirSize, |file|) then Err(InvalidFormat)
    else if h.dirSize > MAX_BLOB then Err(LimitExceeded)
    else Ok(file[h.dirOffset..h.dirOffset + h.dirSize])
  }

  /** `maybeReadDirIndexByHeader`, for a header that carries the index flag. */
  function ReadIndex(p: Primitives, file: Bytes, h: Header): Result<Index>
  {
    var off, size := IndexOffset(h), IndexSize(h);
    if off == 0 || size == 0 || IndexCRC(h) == 0 then Err(InvalidFormat)
    else if !RegionWithinFile(off, size, |file|) then Err(InvalidFormat)
    else if size > MAX_BLOB then Err(LimitExceeded)
    else match DecodeIndex(p, file[off..off + size], IndexCRC(h))
      case Err(x) => Err(x)
      case Ok(idx) =>
        if idx.dirOffset != h.dirOffset || idx.dirSize != h.dirSize || idx.dirCRC != h.dirCRC then Err(InvalidFormat)
        else if Generation(h) > 0 && idx.generation != Generation(h) then Err(InvalidFormat)
        else Ok(idx)
  }

  /** `loadSnapshotByHeader` as Open calls it, preferring the lazy form.  The layout check has already
      required the index flag, so the branch without an index cannot be reached. */
  function LoadSnapshot(p: Primitives, file: Bytes, h: Header): Result<Snapshot>
  {
    match CheckLayout(h)
    case Err(x) => Err(x)
    case Ok(_) =>
      match ReadDirBlob(file, h)
      case Err(x) => Err(x)
      case Ok(blob) =>
        match ReadIndex(p, file, h)
        case Err(x) => Err(x)
        case Ok(idx) =>
          match Envelope(p, blob, h.dirCRC, h.dirSize)
          case Err(x) => Err(x)
          case Ok(count) => if count != |idx.rows| then Err(InvalidFormat) else Ok(Lazy(blob, idx))
  }

  predicate RefInside(c: ChunkRef, size: nat)
  {
    c.chunkOffset + 16 + c.compSize <= size
  }

  /** `validateEntriesChunkOffsets`. */
  predicate ChunksInside(m: Paths, size: nat)
  {
    forall k :: k in m ==> forall i :: 0 <= i < |m[k].chunks| ==> RefInside(m[k].chunks[i], size)
  }

  /** `ensureEntriesLoadedLocked`: the decoded map, read through the index if the container is lazy. */
  function Materialize(p: Primitives, file: Bytes, h: Header, s: Snapshot): Result<Paths>
  {
    match s
    case Eager(m) => Ok(m)
    case Lazy(blob, idx) =>
      match Envelope(p, blob, h.dirCRC, h.dirSize)
      case Err(x) => Err(x)
      case Ok(count) =>
        if count != |idx.rows| then Err(InvalidFormat)
        else match ReadRows(p, blob, idx.rows)
          case Err(x) => Err(x)
          case Ok(m) => if ChunksInside(m, |file|) then Ok(m) else Err(InvalidFormat)
  }

  /** `Stat` and `OpenReader` look an entry up in whichever form the container holds. */
  function FindEntry(p: Primitives, s: Snapshot, path: Bytes): Result<Option<Entry>>
  {
    match s
    case Eager(m) => Ok(if path in m then Some(m[path]) else None)
    case Lazy(blob, idx) => Find(p, blob, idx, path)
  }

  predicate Recoverable(e: Error)
  {
    e == InvalidFormat || e == CRCMismatch
  }

  // ---------- which headers load ----------

  /** The canonical layout, all but features this version does not know. */
  predicate LaidOut(h: Header)
  {
    && h.flags % 16 == 15 && Marker(h) == 2 && Minor(h) == 0 && h.journalOffset != 0 && h.journalSize == RECORD_SIZE
    && IndexOffset(h) != 0 && IndexSize(h) != 0 && IndexCRC(h) != 0 && Features(h) % 16 == 15
  }

  /** The blob that the header names is in the file, with a head for count entries, and its footer vouches for it. */
  ghost predicate BlobThere(p: Primitives, file: Bytes, h: Header, blob: Bytes, count: nat)
  {
    var foot := |blob| - FOOTER_SIZE;
    && 0 < h.dirOffset && h.dirSize == |blob| <= MAX_BLOB && At(file, h.dirOffset, blob)
    && HEADER_SIZE <= foot && count < U32 && h.dirCRC == p.crc(blob[..foot])
    && At(blob, 0, DirHead(count, Get64(blob, 12))) && At(blob, foot, Footer(p, blob[..foot]))
  }

  /** The bytes that the header names as its index are those of idx, valid and with the checksum, the directory tuple
      and the generation of the header. */
  ghost predicate IndexThere(p: Primitives, file: Bytes, h: Header, idx: Index)
  {
    var off, end := IndexOffset(h), IndexOffset(h) + IndexSize(h);
    && IndexSize(h) <= MAX_BLOB && end <= |file| && p.crc(file[off..end]) == IndexCRC(h)
    && ValidIndex(idx) && |idx.rows| < U32 && |idx.ranges| < U32
    && (exists pad :: |pad| == 4 && file[off..end] == PaddedBytes(p, idx, pad))
    && idx.dirOffset == h.dirOffset && idx.dirSize == h.dirSize && idx.dirCRC == h.dirCRC
    && (Generation(h) > 0 ==> idx.generation == Generation(h))
  }

  lemma BlobRead(p: Primitives, file: Bytes, h: Header, blob: Bytes, count: u32)
    ensures ReadDirBlob(file, h) == Ok(blob) && Envelope(p, blob, h.dirCRC, h.dirSize) == Ok(count) <==>
            BlobThere(p, file, h, blob, count)
  {
    hide DirHead, Footer, Envelope, Get64;
    EnvelopeIff(p, blob, h.dirCRC, h.dirSize, count);
  }

  lemma IndexRead(p: Primitives, file: Bytes, h: Header, idx: Index)
    requires LaidOut(h)
    ensures ReadIndex(p, file, h) == Ok(idx) <==> IndexThere(p, file, h, idx)
  {
    hide Unmarshal, PaddedBytes, ValidIndex, Get64, Get32;
    if IndexOffset(h) + IndexSize(h) <= |file| {
      var b := file[IndexOffset(h)..IndexOffset(h) + IndexSize(h)];
      UnmarshalIff(p, b, idx);
      if Unmarshal(p, b).Ok? { UnmarshalIff(p, b, Unmarshal(p, b).value); }
    }
  }

  /** A header loads, always lazily, exactly when it is in the canonical layout with the known features and both its
      directory, as far as its head and checksum tell, and its index are there and agree. */
  lemma LoadsIff(p: Primitives, file: Bytes, h: Header, s: Snapshot)
    ensures LoadSnapshot(p, file, h) == Ok(s) <==>
            && LaidOut(h) && Features(h) == 15
            && s.Lazy? && BlobThere(p, file, h, s.dirBlob, |s.idx.rows|) && IndexThere(p, file, h, s.idx)
  {
    hide ReadDirBlob, ReadIndex, Envelope, BlobThere, IndexThere, CheckLayout, Get64, Get32;
    CheckLayoutIff(h);
    if s.Lazy? {
      if |s.idx.rows| < U32 {
        BlobRead(p, file, h, s.dirBlob, |s.idx.rows|);
      } else if BlobThere(p, file, h, s.dirBlob, |s.idx.rows|) {
        CountFits(p, file, h, s.dirBlob, |s.idx.rows|);
      }
      if LaidOut(h) { IndexRead(p, file, h, s.idx); }
    }
  }

  lemma CountFits(p: Primitives, file: Bytes, h: Header, blob: Bytes, count: nat)
    requires BlobThere(p, file, h, blob, count)
    ensures count < U32
  {
    hide DirHead, Footer;
  }

  /** A directory in the file that the header names, or behind a readable one an index, of more than 1 GiB. */
  predicate TooBig(file: Bytes, h: Header)
  {
    && 0 < h.dirOffset && 0 < h.dirSize && h.dirOffset + h.dirSize <= |file|
    && (MAX_BLOB < h.dirSize || (IndexOffset(h) + IndexSize(h) <= |file| && MAX_BLOB < IndexSize(h)))
  }

  /** The errors of a header that does not load.  It is refused for good exactly for features that this version does not
      know, or for a directory or index of more than 1 GiB; whatever else is wrong with it sends Open on. */
  lemma LoadErrors(p: Primitives, file: Bytes, h: Header, x: Error)
    requires LoadSnapshot(p, file, h) == Err(x)
    ensures x in {InvalidFormat, CRCMismatch, UnsupportedFeature, LimitExceeded}
    ensures x == UnsupportedFeature <==> LaidOut(h) && Features(h) != 15
    ensures x == LimitExceeded <==> LaidOut(h) && Features(h) == 15 && TooBig(file, h)
  {
    hide Unmarshal, Get64, Get32, Envelope;
    LayoutErrors(h);
    if LaidOut(h) { IndexErrors(p, file, h); }
    if ReadDirBlob(file, h).Ok? { EnvelopeErrors(p, ReadDirBlob(file, h).value, h.dirCRC, h.dirSize); }
  }

  lemma LayoutErrors(h: Header)
    ensures CheckLayout(h) == if !LaidOut(h) then Err(InvalidFormat)
                              else if Features(h) == 15 then Ok(()) else Err(UnsupportedFeature)
  {
    hide Get64, Get32, Bit;
    CheckLayoutIff(h);
    if h.flags % 16 == 15 { LowBits(h.flags); }
    if Features(h) % 16 == 15 { LowBits(Features(h)); }
  }

  lemma IndexErrors(p: Primitives, file: Bytes, h: Header)
    requires LaidOut(h)
    ensures var r := ReadIndex(p, file, h);
            r.Err? ==> && r.error in {InvalidFormat, CRCMismatch, LimitExceeded}
                       && (r.error == LimitExceeded <==> IndexOffset(h) + IndexSize(h) <= |file| && MAX_BLOB < IndexSize(h))
  {
    hide ValidIndex, ParseIndex, HeadFixed, Get64, Get32;
  }

  /** A blob is refused for its checksum exactly if it has both magics, the expected size and, in its footer, the expected
      checksum, which is not that of its contents; for anything else as badly formed. */
  lemma EnvelopeErrors(p: Primitives, b: Bytes, crc: u32, size: nat)
    ensures var r := Envelope(p, b, crc, size);
            r.Err? ==> && r.error in {InvalidFormat, CRCMismatch}
                       && (r.error == CRCMismatch <==>
                             && HEADER_SIZE + FOOTER_SIZE <= |b| == size < U64 && At(b, 0, MAGIC_DIR)
                             && At(b, |b| - FOOTER_SIZE, MAGIC_END + (LE(crc, 4) + LE(size, 8)))
                             && p.crc(b[..|b| - FOOTER_SIZE]) != crc)
  {
    hide Get64, Get32, LE;
    if HEADER_SIZE + FOOTER_SIZE <= |b| == size {
      var foot := |b| - FOOTER_SIZE;
      AtSplit(b, foot, MAGIC_END, LE(crc, 4) + LE(size, 8));
      AtSplit(b, foot + 4, LE(crc, 4), LE(size, 8));
      Get32At(b, foot + 4, crc);
      if size < U64 { Get64At(b, foot + 8, size); }
      assert b[0..4] == b[..4];
    }
  }

  /** All extents recorded in the chunk maps are inside a file of this size. */
  ghost predicate ExtentsInside(es: seq<Entry>, size: nat)
  {
    forall i, j :: 0 <= i < |es| && 0 <= j < |es[i].chunks| ==>
      es[i].chunks[j].chunkOffset + 16 + es[i].chunks[j].compSize <= size
  }

  lemma InsideMapOf(es: seq<Entry>, size: nat)
    requires UniquePaths(es)
    ensures ChunksInside(MapOf(es), size) <==> ExtentsInside(es, size)
  {
    hide UniquePaths, MapOf;
    MapOfMembers(es);
    var m := MapOf(es);
    if ExtentsInside(es, size) {
      forall k, i | k in m && 0 <= i < |m[k].chunks|
        ensures RefInside(m[k].chunks[i], size)
      {
        var j :| 0 <= j < |es| && es[j].path == k;
      }
    }
    if ChunksInside(m, size) {
      forall i, j | 0 <= i < |es| && 0 <= j < |es[i].chunks|
        ensures es[i].chunks[j].chunkOffset + 16 + es[i].chunks[j].compSize <= size
      {
        assert RefInside(m[es[i].path].chunks[j], size);
      }
    }
  }

  /** The map of a container that was loaded is decoded exactly when every row of its index names an entry of its
      directory, no two with one path, all of whose recorded extents are inside the file; and then it is their map. */
  lemma MaterializesIff(p: Primitives, file: Bytes, h: Header, s: Snapshot, m: Paths)
    requires LoadSnapshot(p, file, h) == Ok(s)
    ensures s.Lazy? && (Materialize(p, file, h, s) == Ok(m) <==>
              exists es :: AllNamed(p, s.dirBlob, s.idx.rows, es) && UniquePaths(es) && m == MapOf(es)
                           && ExtentsInside(es, |file|))
  {
    hide CheckLayout, ReadIndex, Envelope, ReadRows, AllNamed, UniquePaths, MapOf, ChunksInside, ExtentsInside;
    ReadRowsIff(p, s.dirBlob, s.idx.rows, m);
    forall es | UniquePaths(es)
      ensures ChunksInside(MapOf(es), |file|) <==> ExtentsInside(es, |file|)
    {
      InsideMapOf(es, |file|);
    }
  }

  // ---------- committed headers ----------

  /** A header together with the directory it was committed with: entries in order, build time, rows. */
  datatype Anchor = Anchor(h: Header, es: seq<Entry>, build: u64, rows: seq<Row>)
  {
    function Contents(): Paths { MapOf(es) }

    function Blob(p: Primitives): Bytes { DirBytes(p, es, build) }

    function Idx(): Index
    {
      if |rows| >= U32 then Index(0, 0, 0, 0, 0, rows, [])
      else IndexOf(rows, h.dirOffset, h.dirSize, h.dirCRC, Generation(h))
    }

    function Loaded(p: Primitives): Snapshot { Lazy(Blob(p), Idx()) }
  }

  ghost predicate RefsIntact(es: seq<Entry>, size: nat)
  {
    forall e, i :: e in es && 0 <= i < |e.chunks| ==> RefInside(e.chunks[i], size) && 2 * SLOT <= e.chunks[i].chunkOffset
  }

  ghost predicate DirAnchored(p: Primitives, file: Bytes, a: Anchor)
  {
    && AllCanonical(p, a.es) && UniquePaths(a.es)
    && a.h.dirSize == |a.Blob(p)| <= MAX_BLOB && a.h.dirCRC == p.crc(BodyBytes(a.es, a.build))
    && 2 * SLOT <= a.h.dirOffset && At(file, a.h.dirOffset, a.Blob(p))
  }

  ghost predicate IndexAnchored(p: Primitives, file: Bytes, a: Anchor)
  {
    && Describes(a.rows, a.es) && |a.rows| < U32
    && IndexSize(a.h) == |IndexBytes(p, a.Idx())| <= MAX_BLOB
    && IndexCRC(a.h) == p.crc(IndexBytes(p, a.Idx()))
    && 2 * SLOT <= IndexOffset(a.h) && At(file, IndexOffset(a.h), IndexBytes(p, a.Idx()))
  }

  /** The directory and the index the header depends on lie intact in the file, past the two header slots. */
  ghost predicate Grounded(p: Primitives, file: Bytes, a: Anchor)
  {
    Stamped(a.h) && Generation(a.h) > 0 && DirAnchored(p, file, a) && IndexAnchored(p, file, a)
  }

  /** And so does every chunk record. */
  ghost predicate Anchored(p: Primitives, file: Bytes, a: Anchor)
  {
    Grounded(p, file, a) && RefsIntact(a.es, |file|)
  }

  lemma AnchorParts(p: Primitives, file: Bytes, a: Anchor)
    requires Anchored(p, file, a)
    ensures Stamped(a.h) && Generation(a.h) > 0
    ensures DirAnchored(p, file, a) && IndexAnchored(p, file, a) && RefsIntact(a.es, |file|)
  {
  }

  lemma AnchorIndex(p: Primitives, file: Bytes, a: Anchor)
    requires Grounded(p, file, a)
    ensures Unmarshal(p, IndexBytes(p, a.Idx())) == Ok(a.Idx())
  {
    hide IndexBytes, Unmarshal, BuildRanges, ValidIndex, DirBytes, BodyBytes, At, Stamped, RefsIntact;
    RangesFewerThanRows(a.rows);
    BuiltIndexValid(p, a.es, a.rows, a.h.dirOffset, a.h.dirSize, a.h.dirCRC, Generation(a.h));
    UnmarshalOfMarshal(p, a.Idx());
  }

  lemma AnchorEnvelope(p: Primitives, file: Bytes, a: Anchor)
    requires Grounded(p, file, a)
    ensures Envelope(p, a.Blob(p), a.h.dirCRC, a.h.dirSize) == Ok(|a.rows|) && |a.rows| == |a.es|
    ensures Decode(p, a.Blob(p), a.h.dirCRC, a.h.dirSize) == Ok(Dir(|a.es|, 0, a.build, a.es))
  {
    hide IndexBytes, BuildRanges, DirBytes, BodyBytes, At, Stamped, RefsIntact, Envelope, Decode, Canonical;
    DescribesLength(a.rows, a.es);
    PrintedEnvelope(p, a.es, a.build);
    PrintedDecodes(p, a.es, a.build);
  }

  // ---------- headers torn between commits ----------

  function Headers(s: set<Anchor>): set<Header>
  {
    set a | a in s :: a.h
  }

  /** The index read through any mixture of committed headers is the index of one of them, and then
      the whole directory tuple and generation of the mixture are that header's too. */
  lemma TornIndex(p: Primitives, file: Bytes, h: Header, s: set<Anchor>)
    requires Mixed(h, Headers(s)) && forall a :: a in s ==> Anchored(p, file, a)
    ensures var r := ReadIndex(p, file, h);
            && (r.Err? ==> Recoverable(r.error))
            && (r.Ok? ==> exists a :: a in s && EssenceOf(h) == EssenceOf(a.h) && r.value == a.Idx())
  {
    hide Anchored, ReadIndex, Get64, Get32, Stamped;
    var c :| c in Headers(s) && IndexOffset(h) == IndexOffset(c);
    var a :| a in s && a.h == c;
    TornIndexAt(p, file, h, s, a);
  }

  lemma TornIndexAt(p: Primitives, file: Bytes, h: Header, s: set<Anchor>, a: Anchor)
    requires Mixed(h, Headers(s)) && (forall b :: b in s ==> Anchored(p, file, b))
    requires a in s && IndexOffset(h) == IndexOffset(a.h)
    ensures var r := ReadIndex(p, file, h);
            && (r.Err? ==> Recoverable(r.error))
            && (r.Ok? ==> EssenceOf(h) == EssenceOf(a.h) && r.value == a.Idx())
  {
    hide Anchored, DirAnchored, IndexBytes, BuildRanges, Unmarshal, Stamped, RefsIntact, Get64, Get32, Mixed, Describes;
    AnchorParts(p, file, a);
    MixedLimits(p, file, h, s);
    var off, size := IndexOffset(h), IndexSize(h);
    if RegionWithinFile(off, size, |file|) {
      RangesFewerThanRows(a.rows);
      IndexFixesItsLength(p, file, off, size, a.Idx());
      AnchorIndex(p, file, a);
    }
  }

  /** Bounds that hold of every committed header hold of a mixture. */
  lemma MixedLimits(p: Primitives, file: Bytes, h: Header, s: set<Anchor>)
    requires Mixed(h, Headers(s)) && forall b :: b in s ==> Anchored(p, file, b)
    ensures Stamped(h) && IndexSize(h) <= MAX_BLOB && h.dirSize <= MAX_BLOB && Generation(h) > 0
  {
    hide IndexBytes, DirBytes, BodyBytes, BuildRanges, Stamped, RefsIntact, Canonical, Get64, Get32, At,
         CheckLayout, UniquePaths, Describes;
    forall c | c in Headers(s)
      ensures Stamped(c) && IndexSize(c) <= MAX_BLOB && c.dirSize <= MAX_BLOB && Generation(c) > 0
    {
      var b :| b in s && b.h == c;
      assert Anchored(p, file, b);
    }
    MixedStamped(h, Headers(s));
  }

  /** Loading depends on the essence of a stamped header and on nothing else in it; and it does not look at the chunk
      references, which are checked when the map is decoded, and then decide. */
  lemma GroundedLoads(p: Primitives, file: Bytes, h: Header, a: Anchor)
    requires Stamped(h) && EssenceOf(h) == EssenceOf(a.h) && Grounded(p, file, a)
    ensures LoadSnapshot(p, file, h) == Ok(a.Loaded(p))
    ensures Materialize(p, file, h, a.Loaded(p))
            == if ChunksInside(a.Contents(), |file|) then Ok(a.Contents()) else Err(InvalidFormat)
  {
    hide IndexBytes, DirBytes, BodyBytes, BuildRanges, Unmarshal, Envelope, Canonical, Get64, Get32,
         ReadRows, UniquePaths, Describes, CheckLayout, ChunksInside;
    AnchorIndex(p, file, a);
    AnchorEnvelope(p, file, a);
    assert Stamped(a.h);
    CheckLayoutIff(a.h);
    AnchorBlobSize(p, a);
    AnchorRows(p, file, a);
  }

  lemma EssenceDecides(p: Primitives, file: Bytes, h: Header, a: Anchor)
    requires Stamped(h) && EssenceOf(h) == EssenceOf(a.h) && Anchored(p, file, a)
    ensures LoadSnapshot(p, file, h) == Ok(a.Loaded(p))
    ensures Materialize(p, file, h, a.Loaded(p)) == Ok(a.Contents())
  {
    hide Grounded, LoadSnapshot, Materialize, Stamped, EssenceOf, RefsIntact, ChunksInside;
    GroundedLoads(p, file, h, a);
    AnchorMaterializes(p, file, a);
  }

  lemma AnchorBlobSize(p: Primitives, a: Anchor)
    ensures |a.Blob(p)| > 0
  {
    PrintedLayout(p, a.es, a.build);
  }

  lemma AnchorRows(p: Primitives, file: Bytes, a: Anchor)
    requires Grounded(p, file, a)
    ensures ReadRows(p, a.Blob(p), a.rows) == Ok(a.Contents())
  {
    hide IndexBytes, DirBytes, BodyBytes, BuildRanges, At, Stamped, Canonical, ReadRows, Get64, Get32, Describes,
      UniquePaths;
    DescribesLength(a.rows, a.es);
    ReadRowsDescribed(p, a.es, a.build, a.rows, |a.es|);
    assert a.rows[..|a.es|] == a.rows && a.es[..|a.es|] == a.es;
  }

  lemma AnchorMaterializes(p: Primitives, file: Bytes, a: Anchor)
    requires Anchored(p, file, a)
    ensures ChunksInside(a.Contents(), |file|)
  {
    hide IndexBytes, DirBytes, BodyBytes, BuildRanges, At, Stamped, Canonical, Get64, Get32, Describes, UniquePaths;
    MapOfMembers(a.es);
    var m := a.Contents();
    forall k, i | k in m && 0 <= i < |m[k].chunks|
      ensures RefInside(m[k].chunks[i], |file|)
    {
      var j :| 0 <= j < |a.es| && a.es[j].path == k;
      assert a.es[j] in a.es;
    }
  }

  /** Torn headers resolve without assuming anything of the checksum: a header whose every field comes
      from some committed header loads exactly when its essence is that of one of them, and then as
      that header's snapshot; otherwise the error is one that sends Open on to recovery. */
  lemma TornHeaderResolves(p: Primitives, file: Bytes, h: Header, s: set<Anchor>)
    requires Mixed(h, Headers(s)) && forall a :: a in s ==> Anchored(p, file, a)
    ensures var r := LoadSnapshot(p, file, h);
            && (r.Ok? <==> exists a :: a in s && EssenceOf(h) == EssenceOf(a.h))
            && (r.Err? ==> Recoverable(r.error))
            && (forall a :: a in s && EssenceOf(h) == EssenceOf(a.h) ==> r == Ok(a.Loaded(p)))
  {
    hide IndexBytes, DirBytes, BodyBytes, BuildRanges, ReadIndex, Envelope, RefsIntact, Canonical, Get64, Get32,
         UniquePaths, Describes, Anchored, Stamped, EssenceOf, Mixed;
    MixedLimits(p, file, h, s);
    assert CheckLayout(h).Ok? by { StampedLayout(h); }
    TornIndex(p, file, h, s);
    forall a | a in s && EssenceOf(h) == EssenceOf(a.h)
      ensures LoadSnapshot(p, file, h) == Ok(a.Loaded(p))
    {
      EssenceDecides(p, file, h, a);
    }
  }

  lemma StampedLayout(h: Header)
    requires Stamped(h)
    ensures CheckLayout(h).Ok?
  {
  }

  /** The snapshot of a committed header answers every lookup as its map does, before and after it is
      materialised. */
  lemma SnapshotAnswers(p: Primitives, file: Bytes, a: Anchor, path: Bytes)
    requires Anchored(p, file, a)
    ensures var m := a.Contents();
            var answer := Ok(if path in m then Some(m[path]) else None);
            && FindEntry(p, a.Loaded(p), path) == answer
            && FindEntry(p, Eager(m), path) == answer
            && Materialize(p, file, a.h, a.Loaded(p)) == Ok(m)
  {
    hide IndexBytes, DirBytes, BodyBytes, BuildRanges, Canonical, Get64, Get32, At,
         UniquePaths, Describes, Find, ReadRows, Stamped, RefsIntact, Materialize;
    LazyEqualsEager(p, a.es, a.build, a.rows, a.h.dirOffset, a.h.dirSize, a.h.dirCRC, Generation(a.h), path);
    EssenceDecides(p, file, a.h, a);
  }
}

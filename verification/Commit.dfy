/** What a commit writes: the new directory, its index, the header that names them, and the order of the writes. */
module Commit {
  import opened Binary
  import opened Common
  import opened Directory
  import opened Catalog
  import opened Rows
  import opened HashRanges
  import opened DirIndex
  import opened Lookup
  import opened Header
  import opened Chunk
  import opened Snapshot
  import opened Journal
  import opened Disk

  // ---------- the entries of a transaction ----------

  ghost predicate Keyed(m: Paths)
  {
    forall k :: k in m ==> m[k].path == k
  }

  /** The entries of a map in some order, as iteration over a map yields them. */
  ghost function Listing(m: Paths): (es: seq<Entry>)
    ensures |es| == |m|
  {
    if m == map[] then []
    else
      var k :| k in m;
      Listing(m - {k}) + [m[k]]
  }

  ghost predicate Lists(es: seq<Entry>, m: Paths)
  {
    forall e :: e in es <==> e.path in m && m[e.path] == e
  }

  lemma {:induction false} ListingMembers(m: Paths)
    requires Keyed(m)
    ensures UniquePaths(Listing(m)) && Lists(Listing(m), m)
    decreases |m|
  {
    if m != map[] {
      var k :| k in m && Listing(m) == Listing(m - {k}) + [m[k]];
      ListingMembers(m - {k});
      ListsMore(Listing(m - {k}), m, k);
    }
  }

  lemma ListsMore(rest: seq<Entry>, m: Paths, k: Bytes)
    requires Keyed(m) && k in m && UniquePaths(rest) && Lists(rest, m - {k})
    ensures UniquePaths(rest + [m[k]]) && Lists(rest + [m[k]], m)
  {
    forall i | 0 <= i < |rest|
      ensures rest[i].path != k
    {
      assert rest[i] in rest;
    }
  }

  function DeriveMap(p: Primitives, m: Paths): Paths
  {
    map k | k in m :: Derive(p, m[k])
  }

  /** The entries in the order and form in which they are encoded. */
  ghost function EncodedEntries(p: Primitives, m: Paths): seq<Entry>
  {
    DeriveAll(p, SortByPath(Listing(m)))
  }

  ghost predicate AllEncodable(m: Paths)
  {
    Keyed(m) && forall k :: k in m ==> Encodable(m[k])
  }

  /** Entry i of the encoded order is the derived form of some entry of the map. */
  lemma EncodedMember(p: Primitives, m: Paths, i: nat)
    requires AllEncodable(m) && i < |EncodedEntries(p, m)|
    ensures var e := EncodedEntries(p, m)[i];
            e.path in m && e == Derive(p, m[e.path]) && Canonical(p, e)
  {
    hide Encodable, Canonical, Listing, SortByPath;
    var raw := Listing(m);
    var sorted := SortByPath(raw);
    ListingMembers(m);
    var j := MultisetMembers(sorted, raw, i);
    assert raw[j] in raw;
    EncodableSizes(sorted[i]);
    EncodableDerives(p, sorted[i]);
    DerivePath(p, sorted[i]);
  }

  lemma EncodedOrder(p: Primitives, m: Paths)
    requires Keyed(m)
    ensures var es := EncodedEntries(p, m); |es| == |m| && StrictlySorted(es) && UniquePaths(es)
  {
    hide Listing, SortByPath, Derive;
    var raw := Listing(m);
    ListingMembers(m);
    DeriveKeepsOrder(p, raw);
    StrictlySortedUnique(EncodedEntries(p, m));
    assert |SortByPath(raw)| == |multiset(SortByPath(raw))| == |raw|;
  }

  /** The encoded entries are canonical, sorted, and exactly the derived map, whatever order the map was
      iterated in. */
  lemma EncodedContents(p: Primitives, m: Paths)
    requires AllEncodable(m)
    ensures var es := EncodedEntries(p, m);
            && |es| == |m| && StrictlySorted(es) && UniquePaths(es) && AllCanonical(p, es)
            && MapOf(es) == DeriveMap(p, m)
  {
    hide Encodable, Canonical, Derive, EncodedEntries, StrictlySorted, UniquePaths;
    var es := EncodedEntries(p, m);
    EncodedOrder(p, m);
    forall i | 0 <= i < |es|
      ensures es[i].path in m && es[i] == Derive(p, m[es[i].path]) && Canonical(p, es[i])
    {
      EncodedMember(p, m, i);
    }
    MapOfDerived(p, m, es);
  }

  lemma EncodableSizes(e: Entry)
    requires Encodable(e)
    ensures e.path != [] && |e.path| < U32 && |e.meta| < U32 && |e.chunks| < U32
  {
  }

  lemma DerivePath(p: Primitives, e: Entry)
    ensures Derive(p, e).path == e.path
  {
  }

  lemma MapOfDerived(p: Primitives, m: Paths, es: seq<Entry>)
    requires Keyed(m) && UniquePaths(es)
    requires |es| == |m| && forall i :: 0 <= i < |es| ==> es[i].path in m && es[i] == Derive(p, m[es[i].path])
    ensures MapOf(es) == DeriveMap(p, m)
  {
    hide Derive, MapOf, UniquePaths;
    MapOfMembers(es);
    var n := MapOf(es);
    forall k | k in n
      ensures k in m && n[k] == Derive(p, m[k])
    {
      var i :| 0 <= i < |es| && es[i].path == k;
    }
    MapOfSize(es);
    SameSizeKeys(n.Keys, m.Keys);
  }

  lemma {:induction false} MapOfSize(es: seq<Entry>)
    requires UniquePaths(es)
    ensures |MapOf(es)| == |es|
  {
    if |es| != 0 {
      var n := |es| - 1;
      MapOfSize(es[..n]);
      assert es[..n] + [es[n]] == es;
      FreshPath(es, n);
      assert MapOf(es).Keys == MapOf(es[..n]).Keys + {es[n].path};
    }
  }

  lemma {:induction false} SameSizeKeys(a: set<Bytes>, b: set<Bytes>)
    requires a <= b && |a| == |b|
    ensures a == b
  {
    if a != b {
      var x :| x in b && x !in a;
      SubsetSize(a, b - {x});
    }
  }

  lemma {:induction false} SubsetSize(a: set<Bytes>, b: set<Bytes>)
    requires a <= b
    ensures |a| <= |b|
    decreases |a|
  {
    if a != {} {
      var x :| x in a;
      SubsetSize(a - {x}, b - {x});
    }
  }

  // ---------- the new header ----------

  function NextGeneration(g: u64): (n: u64)
    ensures n > 0 && n >= g && (g < MAX64 ==> n == g + 1)
  {
    if g < MAX64 then g + 1 else g
  }

  /** Sets the four low flag bits. */
  function WithFlags(flags: u32): (f: u32)
    ensures f % 16 == 15 && f / 16 == flags / 16
  {
    flags - flags % 16 + 15
  }

  /** The header a commit publishes, built from the container's current header. */
  function NextHeader(p: Primitives, h: Header, dead: u64, churn: u64, dirOff: u64, dirBlob: Bytes, dirCRC: u32,
                      idxOff: u64, idxBlob: Bytes, journalOff: u64): Header
    requires |dirBlob| < U64 && |idxBlob| < U64
  {
    var h1 := WithStats(h, SaturatingAdd(DeadBytes(h), dead), SaturatingAdd(ChurnOps(h), churn));
    var h2 := h1.(dirOffset := dirOff, dirSize := |dirBlob|, dirCRC := dirCRC, flags := WithFlags(h.flags),
                  journalOffset := journalOff, journalSize := RECORD_SIZE);
    WithFeatures(WithIndex(WithGeneration(WithLayout(h2), NextGeneration(Generation(h))),
                           idxOff, |idxBlob|, p.crc(idxBlob)), 15)
  }

  /** Every extension field of the new header. */
  lemma NextHeaderExt(p: Primitives, h: Header, dead: u64, churn: u64, dirOff: u64, dirBlob: Bytes, dirCRC: u32,
                      idxOff: u64, idxBlob: Bytes, journalOff: u64)
    requires |dirBlob| < U64 && |idxBlob| < U64
    ensures ExtOf(NextHeader(p, h, dead, churn, dirOff, dirBlob, dirCRC, idxOff, idxBlob, journalOff).reserved) ==
            Ext(2, 0, SaturatingAdd(DeadBytes(h), dead), SaturatingAdd(ChurnOps(h), churn),
                NextGeneration(Generation(h)), idxOff, |idxBlob|, p.crc(idxBlob), 15)
  {
    hide ExtOf, LE, Splice, Get32, Get64, SaturatingAdd, NextGeneration;
    var d, c := SaturatingAdd(DeadBytes(h), dead), SaturatingAdd(ChurnOps(h), churn);
    var r0 := h.reserved;
    var r1: Reserved := Splice(r0, 8, LE(d, 8));
    var r2: Reserved := Splice(r1, 16, LE(c, 8));
    var r3: Reserved := Splice(r2, 0, [2]);
    var r4: Reserved := Splice(r3, 1, [0]);
    var r5: Reserved := Splice(r4, 24, LE(NextGeneration(Generation(h)), 8));
    var r6: Reserved := Splice(r5, 32, LE(idxOff, 8));
    var r7: Reserved := Splice(r6, 40, LE(|idxBlob|, 8));
    var r8: Reserved := Splice(r7, 48, LE(p.crc(idxBlob), 4));
    SpliceExt64(r0, 8, d);
    SpliceExt64(r1, 16, c);
    SpliceExtByte(r2, 0, 2);
    SpliceExtByte(r3, 1, 0);
    SpliceExt64(r4, 24, NextGeneration(Generation(h)));
    SpliceExt64(r5, 32, idxOff);
    SpliceExt64(r6, 40, |idxBlob|);
    SpliceExt32(r7, 48, p.crc(idxBlob));
    SpliceExt32(r8, 52, 15);
    ExtComplete(r0, ExtOf(r0));
  }

  lemma ExtComplete(r: Reserved, x: Ext)
    requires x == ExtOf(r)
    ensures x == Ext(x.marker, x.minor, x.dead, x.churn, x.gen, x.idxOff, x.idxSize, x.idxCRC, x.features)
  {
  }

  ghost predicate Branded(h: Header)
  {
    h.magic == MAGIC_HEADER && h.version == 1 && h.headerSize == SLOT
  }

  /** The essence of the new header, and that it is in the canonical layout when its pointers are nonzero. */
  lemma NextHeaderStamped(p: Primitives, h: Header, dead: u64, churn: u64, dirOff: u64, dirBlob: Bytes, dirCRC: u32,
                          idxOff: u64, idxBlob: Bytes, journalOff: u64)
    requires |dirBlob| < U64 && |idxBlob| < U64
    ensures var n := NextHeader(p, h, dead, churn, dirOff, dirBlob, dirCRC, idxOff, idxBlob, journalOff);
            && EssenceOf(n)
               == Essence(dirOff, |dirBlob|, dirCRC, NextGeneration(Generation(h)), idxOff, |idxBlob|, p.crc(idxBlob))
            && DeadBytes(n) == SaturatingAdd(DeadBytes(h), dead) && ChurnOps(n) == SaturatingAdd(ChurnOps(h), churn)
            && (CheckLayout(n).Ok? <==> journalOff != 0 && idxOff != 0 && |idxBlob| != 0 && p.crc(idxBlob) != 0)
            && Branded(n) == Branded(h)
            && n.journalOffset == journalOff && n.journalSize == RECORD_SIZE
            && n.uuid == h.uuid && n.created == h.created && n.flags / 16 == h.flags / 16 && n.reserved[2..8] == h.reserved[2..8]
  {
    hide ExtOf, LE, Splice, Get32, Get64, CheckLayout, SaturatingAdd, NextGeneration, WithFlags;
    PaddingKept(p, h, dead, churn, dirOff, dirBlob, dirCRC, idxOff, idxBlob, journalOff);
    NextHeaderExt(p, h, dead, churn, dirOff, dirBlob, dirCRC, idxOff, idxBlob, journalOff);
    var n := NextHeader(p, h, dead, churn, dirOff, dirBlob, dirCRC, idxOff, idxBlob, journalOff);
    ExtAccessors(n);
    ExtStats(n);
    CheckLayoutIff(n);
  }

  /** The six bytes between the layout marks and the counters are nobody's. */
  lemma PaddingKept(p: Primitives, h: Header, dead: u64, churn: u64, dirOff: u64, dirBlob: Bytes, dirCRC: u32,
                    idxOff: u64, idxBlob: Bytes, journalOff: u64)
    requires |dirBlob| < U64 && |idxBlob| < U64
    ensures NextHeader(p, h, dead, churn, dirOff, dirBlob, dirCRC, idxOff, idxBlob, journalOff).reserved[2..8]
            == h.reserved[2..8]
  {
    hide LE, Get64, SaturatingAdd, NextGeneration, WithFlags;
  }

  lemma ExtStats(h: Header)
    ensures ExtOf(h.reserved).dead == DeadBytes(h) && ExtOf(h.reserved).churn == ChurnOps(h)
  {
  }

  // ---------- the plan ----------

  /** What the clock and the transaction supply to a commit. */
  datatype Request = Request(entries: Paths, appendOff: nat, dead: u64, churn: u64, build: u64, tsJournal: u64, tsBackup: u64)

  datatype Plan = Plan(h: Header, es: seq<Entry>, build: u64, rows: seq<Row>, dirBlob: Bytes, idxBlob: Bytes, script: seq<FileOp>)
  {
    function Target(): Anchor { Anchor(h, es, build, rows) }
  }

  ghost function DirOf(p: Primitives, q: Request): Bytes
  {
    DirBytes(p, EncodedEntries(p, q.entries), q.build)
  }

  ghost function DirCRCOf(p: Primitives, q: Request): u32
  {
    p.crc(BodyBytes(EncodedEntries(p, q.entries), q.build))
  }

  /** The ten file operations of a commit, in the order the source issues them. */
  function Script(p: Primitives, off: nat, dirBlob: Bytes, idxBlob: Bytes, head: Bytes, tsJournal: u64,
      tsBackup: u64): (s: seq<FileOp>)
    requires |head| == SLOT
    ensures |s| == 10
  {
    var j := off + |dirBlob| + |idxBlob|;
    [WriteAt(off, dirBlob), WriteAt(off + |dirBlob|, idxBlob), Sync,
     WriteAt(j, RecordBytes(p, MAGIC_JOURNAL, head, tsJournal)),
     WriteAt(j + RECORD_SIZE, RecordBytes(p, MAGIC_BACKUP, head, tsBackup)), Sync,
     WriteAt(SLOT, head), Sync, WriteAt(0, head), Sync]
  }

  /** Everything that must hold of a commit's input for its result to be readable: what a transaction
      guarantees of its entries, and three limits the writer does not check but the reader does. */
  ghost predicate Committable(p: Primitives, h: Header, q: Request)
  {
    && Branded(h) && AllEncodable(q.entries) && 2 * SLOT <= q.appendOff
    && RefsIntact(EncodedEntries(p, q.entries), q.appendOff)
    && q.appendOff + |DirOf(p, q)| < MAX_OFFSET
  }

  ghost predicate Readable(p: Primitives, dirBlob: Bytes, idxBlob: Bytes)
  {
    |dirBlob| <= MAX_BLOB && |idxBlob| <= MAX_BLOB && p.crc(idxBlob) != 0
  }

  /** `Tx.Commit` up to its first write: directory, index, header and script. */
  ghost function PlanOf(p: Primitives, h: Header, q: Request): Option<Plan>
    requires Committable(p, h, q)
  {
    var es, dirBlob, crc := EncodedEntries(p, q.entries), DirOf(p, q), DirCRCOf(p, q);
    if |dirBlob| < FOOTER_SIZE then None
    else
      var rows := Scan(p, dirBlob);
      var idx := BuildIndex(p, dirBlob, q.appendOff, crc, NextGeneration(Generation(h)));
      if rows.Err? || idx.Err? || q.appendOff + |dirBlob| + |idx.value| + 2 * RECORD_SIZE >= MAX_OFFSET then None
      else
        var n := NextHeader(p, h, q.dead, q.churn, q.appendOff, dirBlob, crc, q.appendOff + |dirBlob|, idx.value,
                            q.appendOff + |dirBlob| + |idx.value|);
        Some(Plan(n, es, q.build, rows.value, dirBlob, idx.value,
                  Script(p, q.appendOff, dirBlob, idx.value, HeaderBytes(n), q.tsJournal, q.tsBackup)))
  }

  /** The plan, step by step as Commit computes it. */
  ghost predicate Computes(p: Primitives, h: Header, q: Request, plan: Plan)
  {
    var j := q.appendOff + |plan.dirBlob| + |plan.idxBlob|;
    && plan.dirBlob == DirOf(p, q) && FOOTER_SIZE <= |plan.dirBlob| && j + 2 * RECORD_SIZE < MAX_OFFSET
    && BuildIndex(p, plan.dirBlob, q.appendOff, DirCRCOf(p, q), NextGeneration(Generation(h))) == Ok(plan.idxBlob)
    && plan.h == NextHeader(p, h, q.dead, q.churn, q.appendOff, plan.dirBlob, DirCRCOf(p, q), q.appendOff + |plan.dirBlob|, plan.idxBlob, j)
    && plan.script == Script(p, q.appendOff, plan.dirBlob, plan.idxBlob, HeaderBytes(plan.h), q.tsJournal, q.tsBackup)
  }

  lemma PlanComputes(p: Primitives, h: Header, q: Request)
    requires Committable(p, h, q) && PlanOf(p, h, q).Some?
    ensures Computes(p, h, q, PlanOf(p, h, q).value)
  {
    hide DirBytes, BodyBytes, EncodedEntries, NextHeader, AllEncodable, RefsIntact, Script, NextGeneration, Scan,
         Generation, DirCRCOf, IndexBytes, BuildRanges, RecordBytes, HeaderBytes, Describes, Canonical, BuildIndex,
           DirOf;
  }

  /** A plan whose directory is small enough to scan has a valid index of exactly its entries. */
  lemma PlanIndex(p: Primitives, h: Header, q: Request)
    requires Committable(p, h, q) && PlanOf(p, h, q).Some? && |DirOf(p, q)| < U32
    ensures var plan := PlanOf(p, h, q).value;
            && AllCanonical(p, plan.es) && UniquePaths(plan.es) && |plan.es| < U32
            && MapOf(plan.es) == DeriveMap(p, q.entries)
            && |plan.rows| < U32 && Describes(plan.rows, plan.es)
            && plan.idxBlob == IndexBytes(p, IndexOf(plan.rows, q.appendOff, |plan.dirBlob|, DirCRCOf(p, q),
              NextGeneration(Generation(h))))
  {
    hide IndexBytes, BuildRanges, DirBytes, BodyBytes, EncodedEntries, NextHeader, AllEncodable, RefsIntact, Script,
         Describes, Canonical, UniquePaths, DeriveMap, Derive, NextGeneration, Scan, Generation;
    var plan := PlanOf(p, h, q).value;
    var es := plan.es;
    EncodedContents(p, q.entries);
    PrintedLayout(p, es, q.build);
    EntriesBytesSize(es);
    forall i | 0 <= i < |es|
      ensures CountsMatch(es[i])
    {
      CanonicalCounts(p, es[i]);
    }
    BodySize(es, q.build);
    SmallRowsFit(p, es, q.build);
    ScanPrinted(p, es, q.build);
    DescribesLength(plan.rows, es);
    RangesFewerThanRows(plan.rows);
  }

  lemma BodySize(es: seq<Entry>, build: u64)
    ensures |BodyBytes(es, build)| == HEADER_SIZE + |EntriesBytes(es)|
  {
  }

  ghost predicate Placed(file: Bytes, plan: Plan)
  {
    At(file, plan.h.dirOffset, plan.dirBlob) && At(file, IndexOffset(plan.h), plan.idxBlob)
  }

  /** The header of the plan names the planned directory and index at the planned places. */
  ghost predicate Publishes(p: Primitives, h: Header, q: Request, plan: Plan)
  {
    var n := plan.h;
    && n.dirOffset == q.appendOff && n.dirSize == |plan.dirBlob| && n.dirCRC == DirCRCOf(p, q)
    && Generation(n) == NextGeneration(Generation(h))
    && IndexOffset(n) == q.appendOff + |plan.dirBlob| && IndexSize(n) == |plan.idxBlob| && IndexCRC(n) == p.crc(plan.idxBlob)
    && DeadBytes(n) == SaturatingAdd(DeadBytes(h), q.dead) && ChurnOps(n) == SaturatingAdd(ChurnOps(h), q.churn)
    && Branded(n) && plan.dirBlob == DirOf(p, q) && 0 < |plan.idxBlob|
    && (Stamped(n) <==> p.crc(plan.idxBlob) != 0)
    && n.journalOffset == q.appendOff + |plan.dirBlob| + |plan.idxBlob| && n.journalSize == RECORD_SIZE
    && n.uuid == h.uuid && n.created == h.created && n.flags / 16 == h.flags / 16
  }

  lemma PlanHeader(p: Primitives, h: Header, q: Request)
    requires Committable(p, h, q) && PlanOf(p, h, q).Some?
    ensures Publishes(p, h, q, PlanOf(p, h, q).value)
  {
    hide DirBytes, BodyBytes, EncodedEntries, NextHeader, AllEncodable, RefsIntact, Script, CheckLayout, SaturatingAdd,
         NextGeneration, Scan, Generation, DirCRCOf, DeadBytes, ChurnOps, IndexBytes, IndexOffset, IndexSize, IndexCRC,
         BuildRanges, RecordBytes, HeaderBytes;
    var plan := PlanOf(p, h, q).value;
    NextHeaderStamped(p, h, q.dead, q.churn, q.appendOff, plan.dirBlob, DirCRCOf(p, q), q.appendOff + |plan.dirBlob|,
                      plan.idxBlob, q.appendOff + |plan.dirBlob| + |plan.idxBlob|);
  }

  /** Once directory and index are in place, the published header is anchored: it will load. */
  lemma PlanAnchors(p: Primitives, h: Header, q: Request, file: Bytes)
    requires Committable(p, h, q) && PlanOf(p, h, q).Some?
    requires var plan := PlanOf(p, h, q).value; Readable(p, plan.dirBlob, plan.idxBlob) && Placed(file, plan)
    requires q.appendOff <= |file|
    ensures Anchored(p, file, PlanOf(p, h, q).value.Target())
    ensures PlanOf(p, h, q).value.Target().Contents() == DeriveMap(p, q.entries)
  {
    hide DirBytes, BodyBytes, EncodedEntries, NextHeader, AllEncodable, Script, Stamped, NextGeneration, Scan,
      Generation,
         BuildRanges, IndexBytes, Describes, Canonical, UniquePaths, DeriveMap, At, IndexOffset, IndexSize, IndexCRC;
    var plan := PlanOf(p, h, q).value;
    PlanHeader(p, h, q);
    PlanIndex(p, h, q);
    assert RefsIntact(plan.es, |file|) by { RefsGrow(plan.es, q.appendOff, |file|); }
  }

  lemma DeriveMapPreserves(p: Primitives, m: Paths)
    ensures Preserves(p, m, DeriveMap(p, m))
  {
    hide Derive, Records;
    forall k | k in m
      ensures Records(p, m[k], DeriveMap(p, m)[k])
    {
      DeriveRecords(p, m[k]);
    }
  }

  /** The map that a commit publishes has the paths of the transaction's map and says all that it says of each. */
  lemma PlanPreserves(p: Primitives, h: Header, q: Request)
    requires Committable(p, h, q) && PlanOf(p, h, q).Some?
    ensures Preserves(p, q.entries, PlanOf(p, h, q).value.Target().Contents())
  {
    hide DirBytes, BodyBytes, EncodedEntries, NextHeader, AllEncodable, RefsIntact, Script, NextGeneration, Scan,
         Generation, DirCRCOf, IndexBytes, BuildRanges, RecordBytes, HeaderBytes, Describes, Canonical, BuildIndex,
           DirOf, MapOf, DeriveMap, Preserves;
    EncodedContents(p, q.entries);
    DeriveMapPreserves(p, q.entries);
  }

  lemma RefsGrow(es: seq<Entry>, a: nat, b: nat)
    requires RefsIntact(es, a) && a <= b
    ensures RefsIntact(es, b)
  {
  }

  /** A freshly published header loads if and only if the three limits hold that the writer leaves
      unchecked: directory and index of at most 1 GiB each, and an index checksum other than zero. */
  lemma PublishedLoadsIff(p: Primitives, h: Header, q: Request, file: Bytes)
    requires Committable(p, h, q) && PlanOf(p, h, q).Some?
    requires Placed(file, PlanOf(p, h, q).value) && q.appendOff <= |file|
    ensures var plan := PlanOf(p, h, q).value;
            LoadSnapshot(p, file, plan.h).Ok? <==> Readable(p, plan.dirBlob, plan.idxBlob)
  {
    hide PlanOf, Committable, NextGeneration, SaturatingAdd, EssenceOf, Generation, CheckLayout, Envelope,
      DecodeIndex, At, Branded;
    var plan := PlanOf(p, h, q).value;
    PlanHeader(p, h, q);
    if Readable(p, plan.dirBlob, plan.idxBlob) {
      PlanAnchors(p, h, q, file);
      EssenceDecides(p, file, plan.h, plan.Target());
    } else {
      if p.crc(plan.idxBlob) == 0 { NotStampedNoLayout(plan.h); }
    }
  }

  lemma NotStampedNoLayout(h: Header)
    requires Branded(h) && !Stamped(h)
    ensures CheckLayout(h).Err?
  {
  }

  /** A committable request has a plan exactly if every row of its directory's index fits in 32 bits, as always below
      four gigabytes. */
  lemma PlanExists(p: Primitives, h: Header, q: Request)
    requires Committable(p, h, q) && q.appendOff < MAX_OFFSET / 2 && |DirOf(p, q)| < MAX_OFFSET / 4
    ensures |q.entries| < U32 ==> (PlanOf(p, h, q).Some? <==> RowsFit(EncodedEntries(p, q.entries), 0))
    ensures |DirOf(p, q)| < U32 ==> PlanOf(p, h, q).Some?
  {
    hide DirBytes, BodyBytes, EncodedEntries, NextHeader, AllEncodable, RefsIntact, Script, NextGeneration, Scan,
         Generation, DirCRCOf, IndexBytes, BuildRanges, RecordBytes, HeaderBytes, Describes, Canonical, FitsRow, RowsFit;
    var es := EncodedEntries(p, q.entries);
    EncodedContents(p, q.entries);
    EntriesBytesSize(es);
    PrintedLayout(p, es, q.build);
    BodySize(es, q.build);
    if |DirOf(p, q)| < U32 { SmallRowsFit(p, es, q.build); }
    if |q.entries| >= U32 { return; }
    forall i | 0 <= i < |es|
      ensures CountsMatch(es[i])
    {
      CanonicalCounts(p, es[i]);
    }
    ScanPrinted(p, es, q.build);
    if !RowsFit(es, 0) { return; }
    var rows := Scan(p, DirOf(p, q)).value;
    DescribesLength(rows, es);
    RangesFewerThanRows(rows);
  }

  function ZeroChecksum(): Primitives
  {
    Primitives(b => 0, b => 0, (raw, codec, level) => Ok(raw), (comp, codec, n) => Ok(comp))
  }

  /** The limit on the checksum is real: with a checksum that is zero everywhere, committing an empty map
      right behind the slots of a new container publishes a header that does not load. */
  lemma ZeroChecksumUnloadable(file: Bytes)
    requires |file| >= 2 * SLOT
    ensures var p, h := ZeroChecksum(), Header(MAGIC_HEADER, 1, SLOT, 0, Zeros(16), 0, 0, 0, 0, 0, 0, Zeros(56));
            var q := Request(map[], 2 * SLOT, 0, 0, 0, 0, 0);
            && Committable(p, h, q) && PlanOf(p, h, q).Some?
            && (Placed(file, PlanOf(p, h, q).value) ==> LoadSnapshot(p, file, PlanOf(p, h, q).value.h).Err?)
  {
    hide PlanOf, DirBytes, EncodedEntries, Placed;
    var p, h := ZeroChecksum(), Header(MAGIC_HEADER, 1, SLOT, 0, Zeros(16), 0, 0, 0, 0, 0, 0, Zeros(56));
    var q := Request(map[], 2 * SLOT, 0, 0, 0, 0, 0);
    EncodedContents(p, map[]);
    EmptyDirectory(p, q.build);
    PlanExists(p, h, q);
    if Placed(file, PlanOf(p, h, q).value) { PublishedLoadsIff(p, h, q, file); }
  }

  lemma EmptyDirectory(p: Primitives, build: u64)
    ensures |DirBytes(p, [], build)| == HEADER_SIZE + FOOTER_SIZE
  {
  }
}

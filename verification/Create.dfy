/** A newly created container: the state every run starts from. */
module Create {
  import opened Binary
  import opened Common
  import opened Directory
  import opened Catalog
  import opened Rows
  import opened HashRanges
  import opened DirIndex
  import opened Lookup
  import opened Header
  import opened Chunk
  import opened Snapshot
  import opened Journal
  import opened Disk
  import opened Commit
  import opened Slots
  import opened Runs

  /** What the clock and the random source supply to Create. */
  datatype Birth = Birth(uuid: Uuid, created: u64, build: u64, tsJournal: u64, tsBackup: u64)

  function BlankHeader(b: Birth): Header
  {
    Header(MAGIC_HEADER, 1, SLOT, 0, b.uuid, b.created, 0, 0, 0, 0, 0, Zeros(56))
  }

  function FirstRequest(b: Birth): Request
  {
    Request(map[], 2 * SLOT, 0, 0, b.build, b.tsJournal, b.tsBackup)
  }

  /** The header of a new container, field by field in the order Create sets them. */
  function FirstHeader(p: Primitives, b: Birth, dirBlob: Bytes, dirCRC: u32, idxBlob: Bytes): Header
    requires |dirBlob| + |idxBlob| < U32
  {
    var h := WithLayout(BlankHeader(b));
    var idxOff := 2 * SLOT + |dirBlob|;
    var h1 := h.(dirOffset := 2 * SLOT, dirSize := |dirBlob|, dirCRC := dirCRC, flags := 15,
                 journalOffset := idxOff + |idxBlob|, journalSize := RECORD_SIZE);
    WithFeatures(WithIndex(WithGeneration(h1, 1), idxOff, |idxBlob|, p.crc(idxBlob)), 15)
  }

  /** The writes of Create in order; unlike a commit it syncs once, at the end. */
  function CreateScript(p: Primitives, b: Birth, dirBlob: Bytes, idxBlob: Bytes, head: Bytes): seq<FileOp>
    requires |head| == SLOT
  {
    var j := 2 * SLOT + |dirBlob| + |idxBlob|;
    [WriteAt(2 * SLOT, dirBlob), WriteAt(2 * SLOT + |dirBlob|, idxBlob),
     WriteAt(j, RecordBytes(p, MAGIC_JOURNAL, head, b.tsJournal)),
     WriteAt(j + RECORD_SIZE, RecordBytes(p, MAGIC_BACKUP, head, b.tsBackup)),
     WriteAt(SLOT, head), WriteAt(0, head)]
  }

  /** Create's first directory has a plan, like any commit's. */
  lemma FirstPlan(p: Primitives, b: Birth)
    ensures Committable(p, BlankHeader(b), FirstRequest(b)) && PlanOf(p, BlankHeader(b), FirstRequest(b)).Some?
    ensures DirOf(p, FirstRequest(b)) == DirBytes(p, [], b.build) && |DirOf(p,
      FirstRequest(b))| == HEADER_SIZE + FOOTER_SIZE
  {
    hide PlanOf, DirBytes, EncodedEntries;
    EncodedContents(p, map[]);
    EmptyDirectory(p, b.build);
    PlanExists(p, BlankHeader(b), FirstRequest(b));
  }

  lemma {:induction false} ZeroLE(n: nat)
    ensures LE(0, n) == Zeros(n)
  {
    if n != 0 { ZeroLE(n - 1); }
  }

  lemma BlankStats(b: Birth)
    ensures DeadBytes(BlankHeader(b)) == 0 && ChurnOps(BlankHeader(b)) == 0 && Generation(BlankHeader(b)) == 0
    ensures WithStats(BlankHeader(b), 0, 0) == BlankHeader(b)
  {
    hide LE, UnLE;
    ZeroLE(8);
    var r := BlankHeader(b).reserved;
    Get64At(r, 8, 0);
    Get64At(r, 16, 0);
    Get64At(r, 24, 0);
    assert r[8..16] == r[16..24] == r[24..32] == Zeros(8);
    assert Splice(r, 8, LE(0, 8)) == r && Splice(r, 16, LE(0, 8)) == r;
  }

  /** Create's header is the one a commit of the empty map would publish over a blank header. */
  lemma FirstHeaderIsNext(p: Primitives, b: Birth, dirBlob: Bytes, dirCRC: u32, idxBlob: Bytes)
    requires |dirBlob| + |idxBlob| < U32
    ensures var idxOff := 2 * SLOT + |dirBlob|;
            FirstHeader(p, b, dirBlob, dirCRC, idxBlob)
            == NextHeader(p, BlankHeader(b), 0, 0, 2 * SLOT, dirBlob, dirCRC, idxOff, idxBlob, idxOff + |idxBlob|)
    ensures var h := FirstHeader(p, b, dirBlob, dirCRC, idxBlob);
            h.magic == MAGIC_HEADER && h.version == 1 && h.headerSize == SLOT && h.uuid == b.uuid && h.created == b.created
  {
    hide Splice, LE, Get64, DeadBytes, ChurnOps, Generation, WithStats;
    BlankStats(b);
  }

  ghost function FirstBlobs(p: Primitives, b: Birth): (Bytes, Bytes)
  {
    FirstPlan(p, b);
    var plan := PlanOf(p, BlankHeader(b), FirstRequest(b)).value;
    (plan.dirBlob, plan.idxBlob)
  }

  /** The first directory and index are 36 and 64 bytes long, so of the limits on a readable commit only that on
      the checksum remains. */
  lemma FirstSizes(p: Primitives, b: Birth)
    ensures |FirstBlobs(p, b).0| == 36 && |FirstBlobs(p, b).1| == 64
  {
    hide PlanOf, DirBytes, EncodedEntries, DirOf, Describes, IndexBytes, BuildRanges;
    FirstPlan(p, b);
    var h, q := BlankHeader(b), FirstRequest(b);
    PlanIndex(p, h, q);
    PlanHeader(p, h, q);
    EncodedContents(p, map[]);
    var plan := PlanOf(p, h, q).value;
    FirstEntries(p, h, q);
    DescribesLength(plan.rows, plan.es);
    RangesFewerThanRows(plan.rows);
  }

  lemma FirstEntries(p: Primitives, h: Header, q: Request)
    requires Committable(p, h, q) && PlanOf(p, h, q).Some?
    ensures PlanOf(p, h, q).value.es == EncodedEntries(p, q.entries)
    ensures PlanOf(p, h, q).value.build == q.build
  {
    hide DirBytes, BodyBytes, EncodedEntries, NextHeader, AllEncodable, RefsIntact, Script, NextGeneration, Scan,
         Generation, DirCRCOf, IndexBytes, BuildRanges, RecordBytes, HeaderBytes, Describes, Canonical;
  }

  lemma ViewSnoc(x: Bytes, ops: seq<FileOp>, op: FileOp)
    requires AllWrites(ops) && op.WriteAt?
    ensures View(Disk(x, ops + [op])) == Overwrite(View(Disk(x, ops)), op.off, op.data)
  {
    assert (ops + [op])[..|ops|] == ops;
  }

  lemma SixWrites(o: seq<FileOp>)
    requires |o| == 6 && AllWrites(o)
    ensures var v1 := Overwrite([], o[0].off, o[0].data);
            var v2 := Overwrite(v1, o[1].off, o[1].data);
            var v3 := Overwrite(v2, o[2].off, o[2].data);
            var v4 := Overwrite(v3, o[3].off, o[3].data);
            var v5 := Overwrite(v4, o[4].off, o[4].data);
            View(Disk([], o)) == Overwrite(v5, o[5].off, o[5].data)
  {
    hide Overwrite, View;
    assert View(Disk([], [])) == [] by { ViewQuiet(Disk([], [])); }
    ViewSnoc([], [], o[0]);
    ViewSnoc([], [o[0]], o[1]);
    ViewSnoc([], [o[0], o[1]], o[2]);
    ViewSnoc([], [o[0], o[1], o[2]], o[3]);
    ViewSnoc([], [o[0], o[1], o[2], o[3]], o[4]);
    ViewSnoc([], [o[0], o[1], o[2], o[3], o[4]], o[5]);
    assert [] + [o[0]] == [o[0]];
    assert [o[0]] + [o[1]] == [o[0], o[1]];
    assert [o[0], o[1]] + [o[2]] == [o[0], o[1], o[2]];
    assert [o[0], o[1], o[2]] + [o[3]] == [o[0], o[1], o[2], o[3]];
    assert [o[0], o[1], o[2], o[3]] + [o[4]] == [o[0], o[1], o[2], o[3], o[4]];
    assert [o[0], o[1], o[2], o[3], o[4]] + [o[5]] == o;
  }

  /** What the script leaves: both slots hold the header, directory and index lie behind them, the records at the end. */
  lemma ScriptLayout(p: Primitives, b: Birth, dirBlob: Bytes, idxBlob: Bytes, head: Bytes)
    requires |head| == SLOT
    ensures var ops := CreateScript(p, b, dirBlob, idxBlob, head);
            AllWrites(ops) && var f := View(Disk([], ops));
            && |f| == 2 * SLOT + |dirBlob| + |idxBlob| + 2 * RECORD_SIZE
            && f[0..SLOT] == head && f[SLOT..2 * SLOT] == head
            && At(f, 2 * SLOT, dirBlob) && At(f, 2 * SLOT + |dirBlob|, idxBlob)
            && At(f, |f| - RECORD_SIZE, RecordBytes(p, MAGIC_BACKUP, head, b.tsBackup))
  {
    hide RecordBytes, Overwrite, View;
    var o := CreateScript(p, b, dirBlob, idxBlob, head);
    SixWrites(o);
    var v1 := Overwrite([], o[0].off, o[0].data);
    var v2 := Overwrite(v1, o[1].off, o[1].data);
    var v3 := Overwrite(v2, o[2].off, o[2].data);
    var v4 := Overwrite(v3, o[3].off, o[3].data);
    var v5 := Overwrite(v4, o[4].off, o[4].data);
    Untouched(v1, o[1], 2 * SLOT, dirBlob);
    Untouched(v2, o[2], 2 * SLOT, dirBlob);
    Untouched(v3, o[3], 2 * SLOT, dirBlob);
    Untouched(v4, o[4], 2 * SLOT, dirBlob);
    Untouched(v5, o[5], 2 * SLOT, dirBlob);
    var i := 2 * SLOT + |dirBlob|;
    Untouched(v2, o[2], i, idxBlob);
    Untouched(v3, o[3], i, idxBlob);
    Untouched(v4, o[4], i, idxBlob);
    Untouched(v5, o[5], i, idxBlob);
    Untouched(v4, o[4], o[3].off, o[3].data);
    Untouched(v5, o[5], o[3].off, o[3].data);
    Untouched(v5, o[5], SLOT, head);
  }

  lemma Untouched(b: Bytes, op: FileOp, off: nat, piece: Bytes)
    requires op.WriteAt? && At(b, off, piece) && (off + |piece| <= op.off || op.off + |op.data| <= off)
    ensures At(Overwrite(b, op.off, op.data), off, piece)
  {
    OverwriteElsewhere(b, op.off, op.data, off, off + |piece|);
  }

  ghost function Created(p: Primitives, b: Birth): State
  {
    var (dirBlob, idxBlob) := FirstBlobs(p, b);
    FirstSizes(p, b);
    var h := FirstHeader(p, b, dirBlob, DirCRCOf(p, FirstRequest(b)), idxBlob);
    ScriptLayout(p, b, dirBlob, idxBlob, HeaderBytes(h));
    var f := View(Disk([], CreateScript(p, b, dirBlob, idxBlob, HeaderBytes(h))));
    State(Disk(f, []), Idle(h, Eager(map[])), Versions(Volume(map[], f), None))
  }

  ghost function FirstPlanOf(p: Primitives, b: Birth): Plan
  {
    FirstPlan(p, b);
    PlanOf(p, BlankHeader(b), FirstRequest(b)).value
  }

  lemma FirstPublished(p: Primitives, b: Birth)
    ensures var plan := FirstPlanOf(p, b);
            && FirstBlobs(p, b) == (plan.dirBlob, plan.idxBlob) && |plan.dirBlob| == 36 && |plan.idxBlob| == 64
            && plan.h == FirstHeader(p, b, plan.dirBlob, DirCRCOf(p, FirstRequest(b)), plan.idxBlob)
  {
    hide PlanOf, FirstHeader, NextHeader, Committable, DirOf, DirCRCOf, EncodedEntries;
    FirstSizes(p, b);
    FirstPlan(p, b);
    PlanComputes(p, BlankHeader(b), FirstRequest(b));
    var plan := FirstPlanOf(p, b);
    FirstHeaderIsNext(p, b, plan.dirBlob, DirCRCOf(p, FirstRequest(b)), plan.idxBlob);
  }

  lemma FirstPlaces(p: Primitives, b: Birth)
    ensures var plan := FirstPlanOf(p, b);
            plan.h.dirOffset == 2 * SLOT && IndexOffset(plan.h) == 2 * SLOT + |plan.dirBlob| && Branded(plan.h)
  {
    hide PlanOf, Committable, DirOf, DirCRCOf, EncodedEntries, IndexOffset, Generation, IndexSize, IndexCRC, DeadBytes,
         ChurnOps, Branded, Stamped;
    FirstPlan(p, b);
    PlanHeader(p, BlankHeader(b), FirstRequest(b));
  }

  /** The header, directory and index that Create writes, as an anchored header of the empty map. */
  lemma FirstAnchor(p: Primitives, b: Birth, file: Bytes)
    requires p.crc(FirstBlobs(p, b).1) != 0
    requires At(file, 2 * SLOT, FirstBlobs(p, b).0) && At(file, 2 * SLOT + |FirstBlobs(p, b).0|, FirstBlobs(p, b).1)
    ensures var a := FirstPlanOf(p, b).Target(); Anchored(p, file, a) && a.Contents() == map[]
  {
    hide PlanOf, FirstHeader, NextHeader, Anchored, Committable, DirOf, DirCRCOf, EncodedEntries, Branded,
      FirstBlobs, IndexOffset;
    var h, q := BlankHeader(b), FirstRequest(b);
    FirstPlan(p, b);
    FirstPublished(p, b);
    FirstPlaces(p, b);
    PlanAnchors(p, h, q, file);
    assert DeriveMap(p, map[]) == map[];
  }

  /** The disk that Create leaves has settled on its header. */
  lemma CreatedShape(p: Primitives, b: Birth) returns (w: Shape)
    requires p.crc(FirstBlobs(p, b).1) != 0
    ensures InvWith(p, Created(p, b), w) && w.Settled?
    ensures Created(p, b).phase.Idle? && Created(p, b).phase.snap == Eager(map[])
  {
    hide PlanOf, HeaderBytes, FirstHeader, CreateScript, DirCRCOf, View, Anchored, Branded,
         Committable, EncodedEntries, IndexOffset, FirstBlobs, FirstPlanOf;
    var (dirBlob, idxBlob) := FirstBlobs(p, b);
    FirstSizes(p, b);
    var h := FirstHeader(p, b, dirBlob, DirCRCOf(p, FirstRequest(b)), idxBlob);
    ScriptLayout(p, b, dirBlob, idxBlob, HeaderBytes(h));
    var s := Created(p, b);
    var f := s.disk.durable;
    FirstAnchor(p, b, f);
    FirstPublished(p, b);
    FirstPlaces(p, b);
    w := Settled(FirstPlanOf(p, b).Target(), s.versions.base);
  }

  /** A new container whose index has a nonzero checksum is a sound start for every run. */
  lemma CreatedSound(p: Primitives, b: Birth)
    requires p.crc(FirstBlobs(p, b).1) != 0
    ensures Inv(p, Created(p, b))
  {
    hide InvWith, Created, FirstBlobs;
    var w := CreatedShape(p, b);
  }

  /** The crash guarantee for every run of a container made by Create. */
  lemma CrashSafety(p: Primitives, b: Birth, states: seq<State>, acts: seq<Action>, n: nat, r: Bytes)
    requires p.crc(FirstBlobs(p, b).1) != 0
    requires Runs.Run(p, states, acts) && states[0] == Created(p, b) && n <= |acts|
    ensures Disciplined(states[n].disk)
    ensures CrashImage(states[n].disk, r) ==> var vs := states[n].versions;
              Shows(p, r, vs.base) || (vs.moving.Some? && Shows(p, r, vs.moving.value))
  {
    hide Shows, CrashImage, Inv, Step, Created, FirstBlobs;
    CreatedSound(p, b);
    CrashAtomicity(p, states, acts, n, r);
  }
}

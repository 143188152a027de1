/** The packed container as it is opened: create, pack, commit, open. */
module Packed {
  import opened Binary
  import opened Common
  import opened Directory
  import opened Catalog
  import opened Rows
  import opened Header
  import opened Chunk
  import opened Snapshot
  import opened Journal
  import opened Disk
  import opened Commit
  import opened Open
  import opened Slots
  import opened Runs
  import opened Create
  import opened Tail
  import opened ChunkWriter
  import opened WriteRead
  import opened EntryReader
  import opened Transaction
  import opened Pack

  // ---------- the packed map can be committed ----------

  predicate EntryFits(o: PackOptions, e: Entry)
  {
    Fits(e.path, o.MetaFor(e), o.ArgsFor(e))
  }

  lemma OneKeepsMap(p: Primitives, o: PackOptions, image: Bytes, t: TxState, e: Entry, refuse: Refuse)
    requires p.InversePair() && EntryFits(o, e) && e.path !in t.entries && !t.closed
    requires 2 * SLOT <= t.off && MapOk(t.entries, t.off) && PackOne(p, o, image, t, e, refuse).e.None?
    requires FewChunks(PackOne(p, o, image, t, e, refuse).t.entries)
    ensures var r := PackOne(p, o, image, t, e, refuse); MapOk(r.t.entries, r.t.off) && r.t.off == t.off + |r.log|
  {
    hide PutEntry, MapOk, EntryReader.Tail, Fits;
    PutKeepsMap(p, t, e.path, Some(SourceOf(StreamOf(p, o, image, e))), o.MetaFor(e), o.ArgsFor(e), refuse);
  }

  lemma {:induction false} PackKeepsMap(p: Primitives, o: PackOptions, image: Bytes, es: seq<Entry>, n: nat, off: nat,
      refuse: Refuse)
    requires p.InversePair() && (forall e :: o.choose(e).size < U32) && UniquePaths(es) && n <= |es| && 2 * SLOT <= off
    requires forall e :: e in es ==> EntryFits(o, e)
    requires PackFirst(p, o, image, es, n, TxState(map[], off, 0, 0, false), refuse).e.None?
    requires FewChunks(PackFirst(p, o, image, es, n, TxState(map[], off, 0, 0, false), refuse).t.entries)
    ensures var r := PackFirst(p, o, image, es, n, TxState(map[], off, 0, 0, false), refuse);
            MapOk(r.t.entries, r.t.off) && r.t.off == off + |r.log|
  {
    hide PackOne, Rewritten, AllRewritten, EntryFits, MapOk;
    if n == 0 {
      NothingOk(off);
    } else {
      var before := PackFirst(p, o, image, es, n - 1, TxState(map[], off, 0, 0, false), refuse);
      FirstRewritten(p, o, image, es, n - 1, off, refuse);
      FreshEntry(p, o, image, es, n - 1, off, before);
      OneRewritten(p, o, image, before.t, es[n - 1], refuse);
      PackKeepsMap(p, o, image, es, n - 1, off, refuse);
      OneKeepsMap(p, o, image, before.t, es[n - 1], refuse);
    }
  }

  lemma NothingOk(off: nat)
    ensures MapOk(map[], off)
  {
  }

  /** The commit of a packed map can be refused only for the file's size. */
  lemma PackedCommittable(p: Primitives, o: PackOptions, image: Bytes, es: seq<Entry>, off: nat, refuse: Refuse,
      h: Header, q: Request)
    requires p.InversePair() && (forall e :: o.choose(e).size < U32) && UniquePaths(es) && 2 * SLOT <= off && Branded(h)
    requires forall e :: e in es ==> EntryFits(o, e)
    requires var r := PackFirst(p, o, image, es, |es|, TxState(map[], off, 0, 0, false), refuse);
             r.e.None? && FewChunks(r.t.entries) && q.entries == r.t.entries && q.appendOff == r.t.off
    ensures Committable(p, h, q) <==> q.appendOff + |DirOf(p, q)| < MAX_OFFSET
  {
    hide PackFirst, Branded, DirOf, EncodedEntries, DeriveMap, AllEncodable, UniquePaths, EntryFits;
    PackKeepsMap(p, o, image, es, |es|, off, refuse);
    EncodedRefs(p, q.entries, q.appendOff);
  }

  // ---------- the file after the commit ----------

  /** After a commit the header, the blobs and everything that was appended before lie where they should. */
  lemma CommittedFile(p: Primitives, h: Header, q: Request, plan: Plan, d: Disk, before: Bytes, log: Bytes)
    requires Planned(p, h, q, plan) && AllWrites(d.pending) && View(d) == before + log && |View(d)| == q.appendOff
    requires 2 * SLOT <= |before|
    ensures var file := View(ApplyAll(d, plan.script));
            && At(file, |before|, log) && Placed(file, plan) && q.appendOff <= |file|
            && SLOT <= |file| && file[..SLOT] == HeaderBytes(plan.h)
  {
    hide Planned, View, ApplyAll, Seen, RecordBytes, HeaderBytes, Overwrite, At, Placed;
    PlanScript(p, h, q, plan);
    ApplyAllSeen(d, plan.script);
    var head := HeaderBytes(plan.h);
    ScriptSeen(p, View(d), plan.dirBlob, plan.idxBlob, head, q.tsJournal, q.tsBackup);
    var file := View(ApplyAll(d, plan.script));
    var rest := plan.dirBlob + plan.idxBlob + RecordBytes(p, MAGIC_JOURNAL, head, q.tsJournal)
                + RecordBytes(p, MAGIC_BACKUP, head, q.tsBackup);
    var grown := View(d) + plan.dirBlob + plan.idxBlob + RecordBytes(p, MAGIC_JOURNAL, head, q.tsJournal)
                 + RecordBytes(p, MAGIC_BACKUP, head, q.tsBackup);
    assert file == Overwrite(Overwrite(grown, SLOT, head), 0, head);
    SameFile(grown, head);
    TailPlaces(p, h, q, plan, View(d), file);
    LogInside(before, log, grown) by { assert grown == before + log + rest; }
    BehindSlots(grown, file, |before|, log);
  }

  lemma SameFile(grown: Bytes, head: Bytes)
    requires |head| == SLOT && 2 * SLOT <= |grown|
    ensures var file := Overwrite(Overwrite(grown, SLOT, head), 0, head);
            SameBehindSlots(grown, file) && SameBehindSlots(file, file) && file[..SLOT] == head
  {
    var file := Overwrite(Overwrite(grown, SLOT, head), 0, head);
    assert file[..SLOT] == file[0..0 + |head|];
  }

  lemma LogInside(before: Bytes, log: Bytes, grown: Bytes)
    requires before + log <= grown
    ensures At(grown, |before|, log)
  {
  }

  // ---------- the packed container ----------

  lemma CreatedHeader(p: Primitives, b: Birth)
    ensures Created(p, b).phase.Idle? && var h := Created(p, b).phase.h; DeadBytes(h) == 0 && ChurnOps(h) == 0
    ensures 2 * SLOT <= |Created(p, b).disk.durable|
  {
    hide PlanOf, HeaderBytes, CreateScript, DirCRCOf, View, FirstBlobs, FirstHeader, NextHeader, DeadBytes, ChurnOps;
    var (dirBlob, idxBlob) := FirstBlobs(p, b);
    FirstSizes(p, b);
    var crc := DirCRCOf(p, FirstRequest(b));
    var h := FirstHeader(p, b, dirBlob, crc, idxBlob);
    ScriptLayout(p, b, dirBlob, idxBlob, HeaderBytes(h));
    FirstHeaderIsNext(p, b, dirBlob, crc, idxBlob);
    var idxOff := 2 * SLOT + |dirBlob|;
    NextHeaderStamped(p, BlankHeader(b), 0, 0, 2 * SLOT, dirBlob, crc, idxOff, idxBlob, idxOff + |idxBlob|);
    BlankStats(b);
  }

  /** What is left of an entry in the packed file: the same path, time, mode, flags and metadata, and the same stream. */
  ghost predicate Repacked(p: Primitives, o: PackOptions, image: Bytes, e: Entry, x: Entry, file: Bytes)
  {
    && x.path == e.path && x.meta == (if o.clearMeta then [] else e.meta) && x.mode == e.mode && FlagsKept(e, x)
    && x.mtime == (if e.mtime != 0 then e.mtime else o.now(e))
    && x.fileSize == |StreamOf(p, o, image, e).bytes| && StreamOf(p, o, image, e).final == EOF
    && forall l {:trigger EntryReader.Tail(p, file, l, x.chunks, 0, 0)} ::
         StreamsAs(EntryReader.Tail(p, file, l, x.chunks, 0, 0), StreamOf(p, o, image, e).bytes, l, x.chunks)
  }

  lemma RewrittenRepacked(p: Primitives, o: PackOptions, image: Bytes, e: Entry, x: Entry, off: nat, log: Bytes,
      file: Bytes)
    requires Rewritten(p, o, image, e, x, off, log) && At(file, off, log)
    ensures Repacked(p, o, image, e, Derive(p, x), file)
  {
    hide EntryReader.Tail, StreamsAs, At, ClearReserved;
    DerivedFields(p, x);
  }

  lemma DerivedFields(p: Primitives, e: Entry)
    ensures var x := Derive(p, e);
            && x.path == e.path && x.meta == e.meta && x.mode == e.mode && x.mtime == e.mtime && x.flags == e.flags
            && x.fileSize == e.fileSize && x.chunks == ClearReserved(e.chunks)
  {
    hide ClearReserved;
  }

  /** Every lookup in the opened container: a path of the original finds its entry repacked, no other path is found. */
  ghost predicate OpensPacked(p: Primitives, o: PackOptions, image: Bytes, m: Paths, file: Bytes, snap: Snapshot)
  {
    forall k :: match FindEntry(p, snap, k)
                case Ok(Some(x)) => k in m && Repacked(p, o, image, m[k], x, file)
                case Ok(None) => k !in m
                case Err(_) => false
  }

  /** Create, pack, commit, open.  If packing succeeds and its commit runs through, the new file opens by its primary
      header; it has exactly the paths of the original, each with its metadata kept or cleared as asked, its mode
      and time (`now` for a zero one), and the stream the original had, read under any limits that admit it; and its
      header counts no dead bytes and no churn. */
  lemma PackedOpens(p: Primitives, o: PackOptions, image: Bytes, m: Paths, es: seq<Entry>, b: Birth, refuse: Refuse,
      d: Disk, q: Request, plan: Plan)
    requires p.InversePair() && forall e :: o.choose(e).size < U32
    requires UniquePaths(es) && (forall k :: k in m ==> m[k].path == k) && forall e :: e in es <==> e.path in m && m[e.path] == e
    requires var made := Created(p, b);
             var r := PackFirst(p, o, image, es, |es|, TxState(map[], |made.disk.durable|, 0, 0, false), refuse);
             && r.e.None? && Disciplined(d) && View(d) == made.disk.durable + r.log
             && q.entries == r.t.entries && q.appendOff == r.t.off && q.dead == r.t.dead && q.churn == r.t.churn
             && made.phase.Idle? && Planned(p, made.phase.h, q, plan)
    ensures var file := View(ApplyAll(d, plan.script));
            && OpenImage(p, file) == Ok(Opened(plan.h, plan.Target().Loaded(p), false))
            && OpensPacked(p, o, image, m, file, plan.Target().Loaded(p))
            && DeadBytes(plan.h) == 0 && ChurnOps(plan.h) == 0
  {
    hide PackFirst, Rewritten, Planned, View, ApplyAll, OpenImage, FindEntry, Created, Anchored, DeriveMap, HeaderBytes,
      At, DeadBytes, ChurnOps, UniquePaths, OpensPacked, Placed, Disciplined;
    var made := Created(p, b);
    var off := |made.disk.durable|;
    var r := PackFirst(p, o, image, es, |es|, TxState(map[], off, 0, 0, false), refuse);
    PackPreserves(p, o, image, m, es, off, refuse);
    PackedEnd(p, o, image, es, off, refuse);
    CreatedHeader(p, b);
    assert AllWrites(d.pending) by { DisciplinedWrites(d); }
    CommittedFile(p, made.phase.h, q, plan, d, made.disk.durable, r.log);
    var file := View(ApplyAll(d, plan.script));
    PlannedOpens(p, made.phase.h, q, plan, file);
    LookupsPacked(p, o, image, m, r, off, file, plan);
  }

  lemma DisciplinedWrites(d: Disk)
    requires Disciplined(d)
    ensures AllWrites(d.pending)
  {
  }

  lemma PackedEnd(p: Primitives, o: PackOptions, image: Bytes, es: seq<Entry>, off: nat, refuse: Refuse)
    requires p.InversePair() && (forall e :: o.choose(e).size < U32) && UniquePaths(es)
    requires PackFirst(p, o, image, es, |es|, TxState(map[], off, 0, 0, false), refuse).e.None?
    ensures var r := PackFirst(p, o, image, es, |es|, TxState(map[], off, 0, 0, false), refuse); r.t.off == off + |r.log|
  {
    hide PackFirst, Rewritten, UniquePaths;
    FirstRewritten(p, o, image, es, |es|, off, refuse);
  }

  /** A file with a committed header in its primary slot and the blobs in place opens as the committed map. */
  lemma PlannedOpens(p: Primitives, h: Header, q: Request, plan: Plan, file: Bytes)
    requires Planned(p, h, q, plan) && Placed(file, plan) && q.appendOff <= |file|
    requires SLOT <= |file| && file[..SLOT] == HeaderBytes(plan.h)
    ensures OpenImage(p, file) == Ok(Opened(plan.h, plan.Target().Loaded(p), false))
    ensures Anchored(p, file, plan.Target()) && plan.Target().Contents() == DeriveMap(p, q.entries)
    ensures DeadBytes(h) == 0 && q.dead == 0 ==> DeadBytes(plan.h) == 0
    ensures ChurnOps(h) == 0 && q.churn == 0 ==> ChurnOps(plan.h) == 0
  {
    hide PlanOf, Committable, OpenImage, Anchored, DeriveMap, HeaderBytes, Placed, DeadBytes, ChurnOps, Commit.Readable;
    PlanAnchors(p, h, q, file);
    PrimaryOpens(p, file, plan.Target());
    PlanHeader(p, h, q);
  }

  lemma LookupsPacked(p: Primitives, o: PackOptions, image: Bytes, m: Paths, r: OpResult, off: nat, file: Bytes,
      plan: Plan)
    requires Anchored(p, file, plan.Target()) && plan.Target().Contents() == DeriveMap(p, r.t.entries)
    requires r.t.entries.Keys == m.Keys && At(file, off, r.log)
    requires forall k :: k in m ==> Rewritten(p, o, image, m[k], r.t.entries[k], off, r.log)
    ensures OpensPacked(p, o, image, m, file, plan.Target().Loaded(p))
  {
    hide Anchored, FindEntry, Rewritten, Repacked, At, Derive;
    forall k
      ensures FindEntry(p, plan.Target().Loaded(p), k)
              == Ok(if k in m then Some(Derive(p, r.t.entries[k])) else None)
      ensures k in m ==> Repacked(p, o, image, m[k], Derive(p, r.t.entries[k]), file)
    {
      SnapshotAnswers(p, file, plan.Target(), k);
      if k in m { RewrittenRepacked(p, o, image, m[k], r.t.entries[k], off, r.log, file); }
    }
  }
}

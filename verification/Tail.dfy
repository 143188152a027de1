/** Recovery from the records at the end of the file, right after a successful commit. */
module Tail {
  import opened Binary
  import opened Common
  import opened Directory
  import opened Catalog
  import opened Header
  import opened Snapshot
  import opened Journal
  import opened Disk
  import opened Commit
  import opened Open
  import opened Slots
  import opened Runs

  /** The bytes a process sees after the operations; syncs change nothing it sees. */
  function Seen(b: Bytes, ops: seq<FileOp>): Bytes
    decreases |ops|
  {
    if |ops| == 0 then b
    else Seen(if ops[0].Sync? then b else Overwrite(b, ops[0].off, ops[0].data), ops[1..])
  }

  lemma {:induction false} ApplyAllSeen(d: Disk, ops: seq<FileOp>)
    requires AllWrites(d.pending)
    ensures View(ApplyAll(d, ops)) == Seen(View(d), ops)
    decreases |ops|
  {
    hide Overwrite;
    if |ops| != 0 {
      ApplyAllSeen(Apply(d, ops[0]), ops[1..]);
      if ops[0].WriteAt? { assert (d.pending + [ops[0]])[..|d.pending|] == d.pending; }
    }
  }

  function SeenOne(b: Bytes, op: FileOp): Bytes
  {
    if op.Sync? then b else Overwrite(b, op.off, op.data)
  }

  lemma SeenFrom(b: Bytes, ops: seq<FileOp>, k: nat)
    requires k < |ops|
    ensures Seen(b, ops[k..]) == Seen(SeenOne(b, ops[k]), ops[k + 1..])
  {
    assert ops[k..][1..] == ops[k + 1..];
  }

  lemma AppendIs(b: Bytes, data: Bytes, off: nat)
    requires off == |b|
    ensures Overwrite(b, off, data) == b + data && |b + data| == off + |data|
  {
  }

  function SeenFive(b: Bytes, x0: FileOp, x1: FileOp, x2: FileOp, x3: FileOp, x4: FileOp): Bytes
  {
    SeenOne(SeenOne(SeenOne(SeenOne(SeenOne(b, x0), x1), x2), x3), x4)
  }

  lemma FiveOps(b: Bytes, s: seq<FileOp>, k: nat)
    requires k + 5 <= |s|
    ensures Seen(b, s[k..]) == Seen(SeenFive(b, s[k], s[k + 1], s[k + 2], s[k + 3], s[k + 4]), s[k + 5..])
  {
    hide Seen, SeenOne;
    var b1 := SeenOne(b, s[k]);
    var b2 := SeenOne(b1, s[k + 1]);
    var b3 := SeenOne(b2, s[k + 2]);
    var b4 := SeenOne(b3, s[k + 3]);
    SeenFrom(b, s, k);
    SeenFrom(b1, s, k + 1);
    SeenFrom(b2, s, k + 2);
    SeenFrom(b3, s, k + 3);
    SeenFrom(b4, s, k + 4);
  }

  lemma Appends(b: Bytes, s: seq<FileOp>, b1: Bytes, b2: Bytes, b3: Bytes, b4: Bytes)
    requires |s| >= 5 && s[0].WriteAt? && s[1].WriteAt? && s[2] == Sync && s[3].WriteAt? && s[4].WriteAt?
    requires s[0].off == |b| && s[1].off == |b1| && s[3].off == |b2| && s[4].off == |b3|
    requires b1 == b + s[0].data && b2 == b1 + s[1].data && b3 == b2 + s[3].data && b4 == b3 + s[4].data
    ensures SeenFive(b, s[0], s[1], s[2], s[3], s[4]) == b4
  {
    hide Overwrite;
    AppendIs(b, s[0].data, s[0].off);
    AppendIs(b1, s[1].data, s[1].off);
    AppendIs(b2, s[3].data, s[3].off);
    AppendIs(b3, s[4].data, s[4].off);
  }

  lemma SlotWrites(b: Bytes, x: FileOp, fixed: FileOp, primary: FileOp)
    requires x.Sync? && fixed.WriteAt? && primary.WriteAt?
    ensures SeenFive(b, x, fixed, x, primary, x)
            == Overwrite(Overwrite(b, fixed.off, fixed.data), primary.off, primary.data)
  {
    hide Overwrite;
  }

  /** The file after all ten operations of a commit: everything appended in order, both slots replaced. */
  lemma ScriptSeen(p: Primitives, b: Bytes, dirBlob: Bytes, idxBlob: Bytes, head: Bytes, tj: u64, tb: u64)
    requires |head| == SLOT
    ensures var grown := b + dirBlob + idxBlob + RecordBytes(p, MAGIC_JOURNAL, head, tj) + RecordBytes(p,
      MAGIC_BACKUP, head, tb);
            Seen(b, Script(p, |b|, dirBlob, idxBlob, head, tj, tb)) == Overwrite(Overwrite(grown, SLOT, head), 0, head)
  {
    hide Overwrite, RecordBytes, Seen, SeenFive, SeenOne, Script;
    var s := Script(p, |b|, dirBlob, idxBlob, head, tj, tb);
    ScriptOps(p, |b|, dirBlob, idxBlob, head, tj, tb);
    var b1 := b + dirBlob;
    var b2 := b1 + idxBlob;
    var b3 := b2 + s[3].data;
    var b4 := b3 + s[4].data;
    Appends(b, s, b1, b2, b3, b4);
    TenOps(b, s, b4);
    SlotWrites(b4, s[5], s[6], s[8]);
  }

  lemma ScriptOps(p: Primitives, off: nat, dirBlob: Bytes, idxBlob: Bytes, head: Bytes, tj: u64, tb: u64)
    requires |head| == SLOT
    ensures var s := Script(p, off, dirBlob, idxBlob, head, tj, tb);
            && s[0] == WriteAt(off, dirBlob) && s[1] == WriteAt(off + |dirBlob|, idxBlob)
            && s[3] == WriteAt(off + |dirBlob| + |idxBlob|, RecordBytes(p, MAGIC_JOURNAL, head, tj))
            && s[4] == WriteAt(off + |dirBlob| + |idxBlob| + RECORD_SIZE, RecordBytes(p, MAGIC_BACKUP, head, tb))
            && s[6] == WriteAt(SLOT, head) && s[8] == WriteAt(0, head)
            && s[2] == Sync && s[5] == Sync && s[7] == Sync && s[9] == Sync
  {
    hide RecordBytes;
  }

  lemma TenOps(b: Bytes, s: seq<FileOp>, mid: Bytes)
    requires |s| == 10 && mid == SeenFive(b, s[0], s[1], s[2], s[3], s[4])
    ensures Seen(b, s) == SeenFive(mid, s[5], s[6], s[7], s[8], s[9])
  {
    hide Seen, SeenFive;
    FiveOps(b, s, 0);
    FiveOps(mid, s, 5);
    SeenNothing(SeenFive(mid, s[5], s[6], s[7], s[8], s[9]));
    assert s[0..] == s && s[10..] == [];
  }

  lemma SeenNothing(b: Bytes)
    ensures Seen(b, []) == b
  {
  }

  /** Neither header slot of the file can be used: each fails in a way that sends Open on. */
  ghost predicate SlotsUnusable(p: Primitives, file: Bytes)
  {
    && SLOT <= |file| && Primary(p, file).Err? && Recoverable(Primary(p, file).error)
    && TryRecovered(p, file, FixedSlot(p, file)) == Ok(None)
  }

  /** A file that after the commit lost at most its header slots. */
  ghost predicate SameBehindSlots(a: Bytes, b: Bytes)
  {
    |a| == |b| && forall i :: 2 * SLOT <= i < |a| ==> a[i] == b[i]
  }

  /** Tail-record recovery: after a commit has completed, if neither header slot can be used any more, Open yields the
      committed map, provided that no usable JNL1 record starts inside the two last records of the file, or that none
      found in the tail is later than the commit.  In the first case the times of the records do not matter.  The
      header's journal pointer leads to the first of them. */
  lemma CommittedTailOpens(p: Primitives, h: Header, q: Request, plan: Plan, d: Disk, file: Bytes)
    requires Planned(p, h, q, plan) && Disciplined(d) && |View(d)| == q.appendOff
    requires SameBehindSlots(View(ApplyAll(d, plan.script)), file) && SlotsUnusable(p, file)
    requires NoJournalInside(p, file) || var j := RecoverByMagic(p, file, MAGIC_JOURNAL); j.Ok? ==> j.value.1 <= q.tsBackup
    ensures OpenImage(p, file) == Ok(Opened(plan.h, plan.Target().Loaded(p), true))
    ensures Materialize(p, file, plan.h, plan.Target().Loaded(p)) == Ok(DeriveMap(p, q.entries))
    ensures Preserves(p, q.entries, DeriveMap(p, q.entries))
    ensures At(file, plan.h.journalOffset, RecordBytes(p, MAGIC_JOURNAL, HeaderBytes(plan.h), q.tsJournal))
  {
    hide Planned, View, Anchored, ApplyAll, RecordBytes, HeaderBytes, OpenImage, RecoverByMagic, DeriveMap, At,
      SlotsUnusable, Materialize, EssenceOf, NoJournalInside, Preserves, SameBehindSlots, Stamped;
    CommittedPlaces(p, h, q, plan, d, file);
    DeriveMapPreserves(p, q.entries);
    TailLoads(p, file, plan.Target(), q.tsJournal, q.tsBackup);
  }

  lemma TailLoads(p: Primitives, file: Bytes, a: Anchor, tj: u64, tb: u64)
    requires Anchored(p, file, a) && 2 * SLOT + 2 * RECORD_SIZE <= |file| && SlotsUnusable(p, file)
    requires At(file, |file| - 2 * RECORD_SIZE, RecordBytes(p, MAGIC_JOURNAL, HeaderBytes(a.h), tj))
    requires At(file, |file| - RECORD_SIZE, RecordBytes(p, MAGIC_BACKUP, HeaderBytes(a.h), tb))
    requires NoJournalInside(p, file) || var j := RecoverByMagic(p, file, MAGIC_JOURNAL); j.Ok? ==> j.value.1 <= tb
    ensures OpenImage(p, file) == Ok(Opened(a.h, a.Loaded(p), true))
    ensures Materialize(p, file, a.h, a.Loaded(p)) == Ok(a.Contents())
  {
    hide Anchored, OpenImage, RecoverByMagic, RecordBytes, HeaderBytes, SlotsUnusable, Stamped, NoJournalInside,
      EssenceOf, Materialize, At;
    TailRecordUsed(p, file, a, tj, tb);
    AnchorParts(p, file, a);
    EssenceDecides(p, file, a.h, a);
  }

  /** The committed header is anchored in the file, and its two records are the file's last. */
  lemma CommittedPlaces(p: Primitives, h: Header, q: Request, plan: Plan, d: Disk, file: Bytes)
    requires Planned(p, h, q, plan) && Disciplined(d) && |View(d)| == q.appendOff
    requires SameBehindSlots(View(ApplyAll(d, plan.script)), file)
    ensures Anchored(p, file, plan.Target()) && plan.Target().Contents() == DeriveMap(p, q.entries)
    ensures 2 * SLOT + 2 * RECORD_SIZE <= |file| && plan.h.journalOffset == |file| - 2 * RECORD_SIZE
    ensures At(file, |file| - 2 * RECORD_SIZE, RecordBytes(p, MAGIC_JOURNAL, HeaderBytes(plan.h), q.tsJournal))
    ensures At(file, |file| - RECORD_SIZE, RecordBytes(p, MAGIC_BACKUP, HeaderBytes(plan.h), q.tsBackup))
  {
    hide PlanOf, Committable, View, Anchored, Seen, ApplyAll, Script, RecordBytes, HeaderBytes, Overwrite, DeriveMap,
      IndexOffset, At;
    PlanScript(p, h, q, plan);
    ApplyAllSeen(d, plan.script);
    ScriptSeen(p, View(d), plan.dirBlob, plan.idxBlob, HeaderBytes(plan.h), q.tsJournal, q.tsBackup);
    TailPlaces(p, h, q, plan, View(d), file);
    PlanAnchors(p, h, q, file);
  }

  lemma TailRecordUsed(p: Primitives, file: Bytes, a: Anchor, tj: u64, tb: u64)
    requires Anchored(p, file, a) && 2 * SLOT + 2 * RECORD_SIZE <= |file| && SlotsUnusable(p, file)
    requires At(file, |file| - 2 * RECORD_SIZE, RecordBytes(p, MAGIC_JOURNAL, HeaderBytes(a.h), tj))
    requires At(file, |file| - RECORD_SIZE, RecordBytes(p, MAGIC_BACKUP, HeaderBytes(a.h), tb))
    requires NoJournalInside(p, file) || var j := RecoverByMagic(p, file, MAGIC_JOURNAL); j.Ok? ==> j.value.1 <= tb
    ensures OpenImage(p, file) == Ok(Opened(a.h, a.Loaded(p), true))
  {
    hide Anchored, OpenImage, RecoverByMagic, RecordBytes, HeaderBytes, Primary, TryRecovered, FixedSlot, Stamped,
      NamesDirectory, NoJournalInside, RecoverBest;
    if NoJournalInside(p, file) {
      AnchorUnmarshals(p, file, a);
      AnchorParts(p, file, a);
      BothRecordsRecover(p, file, a.h, tj, tb);
      BestRecordOpens(p, file, a);
    } else {
      TailRecordOpens(p, file, a, tb);
    }
  }

  lemma TailPlaces(p: Primitives, h: Header, q: Request, plan: Plan, before: Bytes, file: Bytes)
    requires Planned(p, h, q, plan) && |before| == q.appendOff
    requires var head := HeaderBytes(plan.h);
             var grown := before + plan.dirBlob + plan.idxBlob
                          + RecordBytes(p, MAGIC_JOURNAL, head, q.tsJournal) + RecordBytes(p, MAGIC_BACKUP, head,
                            q.tsBackup);
             SameBehindSlots(Overwrite(Overwrite(grown, SLOT, head), 0, head), file)
    ensures Placed(file, plan) && q.appendOff <= |file| && 2 * SLOT + 2 * RECORD_SIZE <= |file|
    ensures plan.h.journalOffset == |file| - 2 * RECORD_SIZE && plan.h.journalSize == RECORD_SIZE
    ensures At(file, |file| - 2 * RECORD_SIZE, RecordBytes(p, MAGIC_JOURNAL, HeaderBytes(plan.h), q.tsJournal))
    ensures At(file, |file| - RECORD_SIZE, RecordBytes(p, MAGIC_BACKUP, HeaderBytes(plan.h), q.tsBackup))
  {
    hide PlanOf, RecordBytes, HeaderBytes, Overwrite, IndexOffset, At, SameBehindSlots, Script;
    PlanScript(p, h, q, plan);
    PlannedOffset(p, h, q, plan);
    var head := HeaderBytes(plan.h);
    var rj, rb := RecordBytes(p, MAGIC_JOURNAL, head, q.tsJournal), RecordBytes(p, MAGIC_BACKUP, head, q.tsBackup);
    var grown := before + plan.dirBlob + plan.idxBlob + rj + rb;
    FiveParts(before, plan.dirBlob, plan.idxBlob, rj, rb);
    SameLength(Overwrite(Overwrite(grown, SLOT, head), 0, head), file);
    SlotsAside(grown, head, file);
    BehindSlots(grown, file, |before|, plan.dirBlob);
    BehindSlots(grown, file, |before| + |plan.dirBlob|, plan.idxBlob);
    BehindSlots(grown, file, |grown| - 2 * RECORD_SIZE, rj);
    BehindSlots(grown, file, |grown| - RECORD_SIZE, rb);
  }

  lemma FiveParts(a: Bytes, b: Bytes, c: Bytes, d: Bytes, e: Bytes)
    ensures var all := a + b + c + d + e;
            && At(all, |a|, b) && At(all, |a| + |b|, c) && At(all, |a| + |b| + |c|, d) && At(all, |a| + |b| + |c| + |d|, e)
  {
    hide At;
    var all := a + b + c + d + e;
    assert all == a + (b + (c + (d + e)));
    assert At(all, 0, all) by { Whole(all); }
    AtSplit(all, 0, a, b + (c + (d + e)));
    AtSplit(all, |a|, b, c + (d + e));
    AtSplit(all, |a| + |b|, c, d + e);
    AtSplit(all, |a| + |b| + |c|, d, e);
  }

  lemma Whole(b: Bytes)
    ensures At(b, 0, b)
  {
    assert b[0..0 + |b|] == b;
  }

  lemma SameLength(a: Bytes, b: Bytes)
    requires SameBehindSlots(a, b)
    ensures |a| == |b|
  {
  }

  lemma SlotsAside(grown: Bytes, head: Bytes, file: Bytes)
    requires |head| == SLOT && 2 * SLOT <= |grown|
    requires SameBehindSlots(Overwrite(Overwrite(grown, SLOT, head), 0, head), file)
    ensures SameBehindSlots(grown, file) && |file| == |grown|
  {
    hide Overwrite;
  }

  lemma BehindSlots(a: Bytes, b: Bytes, off: nat, piece: Bytes)
    requires SameBehindSlots(a, b) && 2 * SLOT <= off && At(a, off, piece)
    ensures At(b, off, piece)
  {
  }
}

/** Append-only writing: what readers opened earlier still see, and what survives from a write to an extraction. */
module Isolation {
  import opened Binary
  import opened Common
  import opened Directory
  import opened Catalog
  import opened Header
  import opened Chunk
  import opened Snapshot
  import opened Journal
  import opened Disk
  import opened Commit
  import opened Open
  import opened Slots
  import opened Runs
  import opened ChunkWriter
  import opened WriteRead
  import opened EntryReader

  // ---------- the frame of every step ----------

  lemma GrowsTrans(a: Bytes, b: Bytes, c: Bytes)
    requires Grows(a, b) && Grows(b, c)
    ensures Grows(a, c)
  {
  }

  lemma GrowsSelf(a: Bytes)
    ensures Grows(a, a)
  {
  }

  /** Where a commit writes: at the end of the file, or a whole header slot. */
  lemma CommitOpGrows(p: Primitives, h: Header, d: Disk, vs: Versions, w: Shape, q: Request, plan: Plan, v: Volume,
      done: nat)
    requires Planned(p, h, q, plan) && CommitOk(p, d, vs, w, q, plan, v, done) && done < |plan.script|
    requires Disciplined(Apply(d, plan.script[done]))
    ensures Grows(View(d), View(Apply(d, plan.script[done])))
    ensures var op := plan.script[done]; op.Sync? || SlotWrite(op) || op.off == |View(d)|
  {
    hide Holds, View, Planned, DeriveMap, RecordBytes, HeaderBytes, Grows, Names, Intact, Live, Torn;
    PlanScript(p, h, q, plan);
    var op := plan.script[done];
    if op.Sync? {
      ViewSynced(d);
      GrowsSelf(View(d));
    } else if done == 6 || done == 8 {
      SlotWriteLength(d, op);
    } else {
      AppendView(d, op.off, op.data);
    }
  }

  /** Every step but a crash leaves everything behind the header slots in place: committed, failed and rolled-back
      transactions, and the header repair of Open, only ever add to the file. */
  lemma StepGrows(p: Primitives, s: State, act: Action, t: State)
    requires Inv(p, s) && Step(p, s, act, t) && !act.Crash?
    ensures Disciplined(s.disk) && Disciplined(t.disk) && Grows(View(s.disk), View(t.disk))
  {
    hide Step, InvWith, View, Grows;
    StepKeeps(p, s, act, t);
    InvDisciplined(p, s);
    InvDisciplined(p, t);
    if act.Append? { AppendGrows(p, s, act.data, t); }
    else if act.CommitOp? { CommitStepGrows(p, s, t); }
    else if act.RepairOp? { RepairGrows(p, s, t); }
    else {
      QuietStep(p, s, act, t);
      GrowsSelf(View(s.disk));
    }
  }

  lemma InvDisciplined(p: Primitives, s: State)
    requires Inv(p, s)
    ensures Disciplined(s.disk)
  {
    hide Shaped, PhaseOk;
  }

  lemma QuietStep(p: Primitives, s: State, act: Action, t: State)
    requires Step(p, s, act, t) && !act.Crash? && !act.Append? && !act.CommitOp? && !act.RepairOp?
    ensures t.disk == s.disk
  {
    hide View, Materialize, PlanOf, Committable, Shows, RepairScript, MapOk, OpenImage;
  }

  lemma AppendGrows(p: Primitives, s: State, data: Bytes, t: State)
    requires Inv(p, s) && Step(p, s, Append(data), t) && Disciplined(t.disk)
    ensures Disciplined(s.disk) && Grows(View(s.disk), View(t.disk))
  {
    hide Shaped, View, Live, Torn, MapOk, Branded, Grows;
    var w :| InvWith(p, s, w);
    AppendView(s.disk, s.phase.appendOff, data);
  }

  lemma CommitStepGrows(p: Primitives, s: State, t: State)
    requires Inv(p, s) && Step(p, s, CommitOp, t) && Disciplined(t.disk)
    ensures Disciplined(s.disk) && Grows(View(s.disk), View(t.disk))
  {
    hide Shaped, View, Planned, Progress, DeriveMap, MapOk, Branded, Step, Grows;
    var w :| InvWith(p, s, w);
    CommitOpEffect(p, s, t);
    var c := s.phase;
    PlannedOffset(p, c.h, c.q, c.plan);
    CommitOpGrows(p, c.h, s.disk, s.versions, w, c.q, c.plan, c.v, c.done);
  }

  lemma RepairGrows(p: Primitives, s: State, t: State)
    requires Inv(p, s) && Step(p, s, RepairOp, t) && Disciplined(t.disk)
    ensures Disciplined(s.disk) && Grows(View(s.disk), View(t.disk))
  {
    hide Shaped, View, HeaderBytes, Live, Torn, RepairScript, Serves, Stamped, Grows;
    RepairLength(s.phase.h);
    var op := RepairScript(s.phase.h)[s.phase.done];
    if op == Sync {
      ViewSynced(s.disk);
      GrowsSelf(View(s.disk));
    } else {
      SlotWriteLength(s.disk, op);
    }
  }

  ghost predicate NoCrash(acts: seq<Action>, n: nat, m: nat)
  {
    forall i :: n <= i < m <= |acts| ==> !acts[i].Crash?
  }

  lemma {:induction false} RunGrows(p: Primitives, states: seq<State>, acts: seq<Action>, n: nat, m: nat)
    requires Runs.Run(p, states, acts) && Inv(p, states[0]) && n <= m <= |acts| && NoCrash(acts, n, m)
    ensures Disciplined(states[n].disk) && Disciplined(states[m].disk)
    ensures Grows(View(states[n].disk), View(states[m].disk))
    decreases m
  {
    hide Step, Inv, Grows, View;
    RunKeeps(p, states, acts, n);
    InvDisciplined(p, states[n]);
    if n == m {
      GrowsSelf(View(states[n].disk));
    } else {
      RunGrows(p, states, acts, n, m - 1);
      RunKeeps(p, states, acts, m - 1);
      StepGrows(p, states[m - 1], acts[m - 1], states[m]);
      GrowsTrans(View(states[n].disk), View(states[m - 1].disk), View(states[m].disk));
    }
  }

  /** Reader isolation: whatever a reader has already read, and whether or not its chunks load, what it still delivers is
      the same after any further transactions, whatever they replace or remove. */
  lemma ReaderIsolated(p: Primitives, states: seq<State>, acts: seq<Action>, n: nat, m: nat, l: Limits,
      cs: seq<ChunkRef>, idx: nat, cur: Bytes, curRead: nat, total: u64)
    requires Runs.Run(p, states, acts) && Inv(p, states[0]) && n <= m <= |acts| && NoCrash(acts, n, m)
    requires Disciplined(states[n].disk) && Disciplined(states[m].disk) && idx <= |cs| && curRead <= |cur|
    requires forall j :: idx <= j < |cs| ==>
               RefInside(cs[j], |View(states[n].disk)|) && 2 * SLOT <= cs[j].chunkOffset && cs[j].compSize > 0
    ensures Ahead(p, View(states[m].disk), l, cs, idx, cur, curRead, total)
            == Ahead(p, View(states[n].disk), l, cs, idx, cur, curRead, total)
  {
    hide Step, Inv, View, Tail, LoadRef, Grows, SameRecord, RefInside;
    RunGrows(p, states, acts, n, m);
    var x, y := View(states[n].disk), View(states[m].disk);
    forall j | idx <= j < |cs|
      ensures SameRecord(x, y, cs[j])
    {
      GrowsRecord(x, y, cs[j]);
    }
    TailStable(p, x, y, l, cs, idx, (total + (|cur| - curRead)) % U64);
  }

  lemma GrowsRecord(x: Bytes, y: Bytes, c: ChunkRef)
    requires Grows(x, y) && RefInside(c, |x|) && 2 * SLOT <= c.chunkOffset
    ensures SameRecord(x, y, c)
  {
  }

  // ---------- from a write to an extraction ----------

  /** The records of the references lie in the file as they lay in the image. */
  ghost predicate Keeps(image: Bytes, file: Bytes, cs: seq<ChunkRef>)
  {
    forall j :: 0 <= j < |cs| ==> SameRecord(image, file, cs[j])
  }

  /** The chunks that a successful write made stream the data it was given, from every file that keeps their records. */
  lemma KeptStreams(s: Settings, src: Source, off: nat, refuse: Refuse, image: Bytes, file: Bytes,
      l: Limits)
    requires s.p.InversePair() && s.size < U32 && Written(s, src, off, refuse).result.Ok?
    requires At(image, off, Written(s, src, off, refuse).log)
    requires Keeps(image, file, Written(s, src, off, refuse).result.value.0)
    ensures var cs := Written(s, src, off, refuse).result.value.0;
            StreamsAs(Tail(s.p, file, l, cs, 0, 0), src.data, l, cs)
  {
    hide Written, Tail, ReadBack, TiledRefs, Packed, LoadRef, StreamsAs, SameRecord;
    var cs := Written(s, src, off, refuse).result.value.0;
    WrittenReadsBack(s, src, off, refuse, image, l.verify);
    WriteThenRead(s, src, off, refuse, image, l);
    ReadBackParts(s.p, image, cs, |cs|, l.verify);
    forall j | 0 <= j < |cs|
      ensures SameRecord(image, file, cs[j]) && cs[j].compSize > 0
    {
      assert LoadRef(s.p, image, cs[j], l.verify, 0).Ok?;
    }
    TailStable(s.p, image, file, l, cs, 0, 0);
  }

  lemma IntactRecord(file: Bytes, v: Volume, path: Bytes, j: nat)
    requires Intact(file, v) && path in v.entries && j < |v.entries[path].chunks|
    ensures SameRecord(v.image, file, v.entries[path].chunks[j])
  {
    assert RecordOf(file, v.entries[path].chunks[j]) == RecordOf(v.image, v.entries[path].chunks[j]);
  }

  // ---------- over a run ----------

  predicate OnlyCommitOps(acts: seq<Action>, n: nat, m: nat)
  {
    forall i :: n <= i < m <= |acts| ==> acts[i].CommitOp?
  }

  lemma {:induction false} CommitOpsKeepVersion(p: Primitives, states: seq<State>, acts: seq<Action>, n: nat, m: nat)
    requires Runs.Run(p, states, acts) && n <= m <= |acts| && OnlyCommitOps(acts, n, m) && states[n].phase.Committing?
    ensures states[m].phase.Committing? && states[m].phase.v == states[n].phase.v
  {
    hide Step;
    if n < m {
      CommitOpsKeepVersion(p, states, acts, n, m - 1);
      CommitOpEffect(p, states[m - 1], states[m]);
    }
  }

  lemma AppendsAt(p: Primitives, s: State)
    requires Inv(p, s) && s.phase.InTx?
    ensures Disciplined(s.disk) && s.phase.appendOff == |View(s.disk)| >= 2 * SLOT
  {
    hide Holds, View, Live, Torn, MapOk, Branded;
    var w :| InvWith(p, s, w);
    ViewLength(s.disk);
  }

  lemma AppendEffect(p: Primitives, s: State, data: Bytes, t: State)
    requires Inv(p, s) && Step(p, s, Append(data), t)
    ensures s.phase.InTx? && Disciplined(s.disk) && Disciplined(t.disk) && At(View(t.disk), s.phase.appendOff, data)
  {
    hide Holds, View, Live, Torn, MapOk, Branded;
    var w :| InvWith(p, s, w);
    AppendView(s.disk, s.phase.appendOff, data);
  }

  /** The version has an entry of these chunks at the path, and their records. */
  ghost predicate Carries(v: Volume, image: Bytes, path: Bytes, cs: seq<ChunkRef>,
      size: nat)
  {
    path in v.entries && v.entries[path].chunks == cs && v.entries[path].fileSize == size && Keeps(image, v.image, cs)
  }

  /** Every version that can show has the entry, and so has the one being committed; the file has the records. */
  ghost predicate Held(s: State, image: Bytes, path: Bytes, cs: seq<ChunkRef>,
      size: nat)
  {
    && Disciplined(s.disk) && Keeps(image, View(s.disk), cs)
    && Carries(s.versions.base, image, path, cs, size)
    && (s.versions.moving.Some? ==> Carries(s.versions.moving.value, image, path, cs, size))
    && (s.phase.Committing? ==> Carries(s.phase.v, image, path, cs, size))
  }

  lemma KeepsGrows(image: Bytes, x: Bytes, y: Bytes, cs: seq<ChunkRef>)
    requires Keeps(image, x, cs) && Grows(x, y) && forall j :: 0 <= j < |cs| ==> 2 * SLOT <= cs[j].chunkOffset
    ensures Keeps(image, y, cs)
  {
    hide Grows;
    forall j | 0 <= j < |cs|
      ensures SameRecord(image, y, cs[j])
    {
      GrowsRecord(x, y, cs[j]);
    }
  }

  lemma KeepsItself(image: Bytes, cs: seq<ChunkRef>)
    requires forall j :: 0 <= j < |cs| ==> RefInside(cs[j], |image|)
    ensures Keeps(image, image, cs)
  {
  }

  /** A file that shows a version carrying the entry keeps its records, and the lookup finds the entry. */
  lemma ShownCarries(p: Primitives, file: Bytes, v: Volume, image: Bytes, path: Bytes, cs: seq<ChunkRef>,
      size: nat)
    requires Shows(p, file, v) && Carries(v, image, path, cs, size)
    ensures Keeps(image, file, cs) && OpenImage(p, file).Ok?
    ensures FindEntry(p, OpenImage(p, file).value.snap, path) == Ok(Some(v.entries[path]))
  {
    hide OpenImage, Materialize, FindEntry, SameRecord, RecordOf;
    forall j | 0 <= j < |cs|
      ensures SameRecord(image, file, cs[j])
    {
      IntactRecord(file, v, path, j);
      SameRecordTrans(image, v.image, file, cs[j]);
    }
  }

  lemma SameRecordTrans(a: Bytes, b: Bytes, c: Bytes, ref: ChunkRef)
    requires SameRecord(a, b, ref) && SameRecord(b, c, ref)
    ensures SameRecord(a, c, ref)
  {
  }

  /** The map of a commit that keeps the entry. */
  predicate Retains(s: State, path: Bytes, cs: seq<ChunkRef>,
      size: nat)
  {
    && s.phase.InTx? && path in s.phase.entries
    && s.phase.entries[path].chunks == cs && s.phase.entries[path].fileSize == size
  }

  lemma HeldCrash(p: Primitives, s: State, r: Bytes, t: State, image: Bytes, path: Bytes, cs: seq<ChunkRef>,
      size: nat)
    requires Inv(p, s) && Held(s, image, path, cs, size) && Step(p, s, Crash(r), t)
    ensures Held(t, image, path, cs, size)
  {
    hide Inv, Step, View, Carries, Keeps, CrashImage, Shows;
    CrashEffect(p, s, r, t);
    StepKeeps(p, s, Crash(r), t);
    InvDisciplined(p, t);
    ViewQuiet(t.disk);
    CrashShows(p, s, r);
    ShownCarries(p, r, if Shows(p, r, s.versions.base) then s.versions.base else s.versions.moving.value, image, path, cs, size);
  }

  lemma HeldOther(p: Primitives, s: State, act: Action, t: State, image: Bytes, path: Bytes, cs: seq<ChunkRef>,
      size: nat)
    requires Inv(p, s) && Held(s, image, path, cs, size) && Step(p, s, act, t) && !act.Crash?
    requires act.CommitStart? ==> Retains(s, path, cs, size)
    requires ClearReserved(cs) == cs && forall j :: 0 <= j < |cs| ==> 2 * SLOT <= cs[j].chunkOffset
    ensures Held(t, image, path, cs, size)
  {
    hide Inv, Step, View, Keeps, Grows, Shows, ClearReserved, Planned, PrimaryLoads;
    StepGrows(p, s, act, t);
    KeepsGrows(image, View(s.disk), View(t.disk), cs);
    match act
    case Reopen(v) => ReopenEffect(p, s, v, t);
    case CommitStart(_, _, _) =>
      StartEffect(p, s, act, t);
      DerivedAt(p, s.phase.entries, path);
    case CommitOp => CommitOpEffect(p, s, t);
    case CommitFails => CommitFailsEffect(p, s, t);
    case Acknowledge => AcknowledgeEffect(p, s, t);
    case _ => IdleEffect(p, s, act, t);
  }

  lemma IdleEffect(p: Primitives, s: State, act: Action, t: State)
    requires Step(p, s, act, t) && !act.Reopen? && !act.CommitStart? && !act.CommitOp? && !act.CommitFails?
    requires !act.Acknowledge?
    ensures (t.versions == s.versions || t.versions == s.versions.Synced()) && !t.phase.Committing?
  {
    hide View, Materialize, PlanOf, Committable, CrashImage, RepairScript, MapOk, Apply, Shows;
  }

  predicate AllRetain(states: seq<State>, acts: seq<Action>, n: nat, m: nat, path: Bytes, cs: seq<ChunkRef>,
      size: nat)
    requires |states| == |acts| + 1
  {
    forall i :: n <= i < m <= |acts| && acts[i].CommitStart? ==> Retains(states[i], path, cs, size)
  }

  lemma {:induction false} HeldRun(p: Primitives, states: seq<State>, acts: seq<Action>, n: nat, m: nat, image: Bytes,
      path: Bytes, cs: seq<ChunkRef>, size: nat)
    requires Runs.Run(p, states, acts) && Inv(p, states[0]) && n <= m <= |acts| && AllRetain(states, acts, n, m, path, cs, size)
    requires ClearReserved(cs) == cs && forall j :: 0 <= j < |cs| ==> 2 * SLOT <= cs[j].chunkOffset
    requires Held(states[n], image, path, cs, size)
    ensures Held(states[m], image, path, cs, size)
    decreases m
  {
    hide Step, Inv, Held, Retains, ClearReserved;
    if n < m {
      HeldRun(p, states, acts, n, m - 1, image, path, cs, size);
      RunKeeps(p, states, acts, m - 1);
      if acts[m - 1].Crash? {
        HeldCrash(p, states[m - 1], acts[m - 1].image, states[m], image, path, cs, size);
      } else {
        HeldOther(p, states[m - 1], acts[m - 1], states[m], image, path, cs, size);
      }
    }
  }

  /** The references of a successful write: canonical, behind the slots, their records in any image with the log. */
  lemma WrittenRefs(s: Settings, src: Source, off: nat, refuse: Refuse, image: Bytes)
    requires s.p.InversePair() && s.size < U32 && Written(s, src, off, refuse).result.Ok? && 2 * SLOT <= off
    requires At(image, off, Written(s, src, off, refuse).log)
    ensures var cs := Written(s, src, off, refuse).result.value.0;
            && Written(s, src, off, refuse).result.value.1 == |src.data|
            && ClearReserved(cs) == cs && Keeps(image, image, cs)
            && forall j :: 0 <= j < |cs| ==> 2 * SLOT <= cs[j].chunkOffset
  {
    hide Written, ReadBack, TiledRefs, Packed, StoredBytes;
    var w := Written(s, src, off, refuse);
    var cs := w.result.value.0;
    WrittenReadsBack(s, src, off, refuse, image, false);
    TiledInOrder(cs, 0, |src.data|);
    OrderedCleared(cs, 0);
    forall j | 0 <= j < |cs|
      ensures RefInside(cs[j], |image|) && 2 * SLOT <= cs[j].chunkOffset
    {
      PackedInside(cs, off, j);
    }
    KeepsItself(image, cs);
  }

  /** What a transaction appended is still in place, in the image the next commit starts from. */
  lemma LogStays(s: Settings, states: seq<State>, acts: seq<Action>, i: nat, j: nat, log: Bytes)
    requires Runs.Run(s.p, states, acts) && Inv(s.p, states[0]) && i < j <= |acts| && NoCrash(acts, i, j)
    requires states[i].phase.InTx? && (log == [] || acts[i] == Append(log))
    ensures Disciplined(states[j].disk) && 2 * SLOT <= states[i].phase.appendOff
    ensures At(View(states[j].disk), states[i].phase.appendOff, log)
  {
    hide Step, Inv, View, Grows, At;
    var p, off := s.p, states[i].phase.appendOff;
    RunKeeps(p, states, acts, i);
    AppendsAt(p, states[i]);
    RunGrows(p, states, acts, i, i + 1);
    assert At(View(states[i + 1].disk), off, log) by {
      if log == [] {
        GrowsLength(View(states[i].disk), View(states[i + 1].disk));
        AtEmpty(View(states[i + 1].disk), off);
      } else {
        AppendEffect(p, states[i], log, states[i + 1]);
      }
    }
    RunGrows(p, states, acts, i + 1, j);
    PieceGrows(View(states[i + 1].disk), View(states[j].disk), off, log);
  }

  /** Once the commit has been acknowledged, the entry is held. */
  lemma HeldAfterCommit(s: Settings, src: Source, refuse: Refuse, states: seq<State>,
      acts: seq<Action>, i: nat, j: nat, k: nat, path: Bytes)
    requires s.p.InversePair() && s.size < U32
    requires Runs.Run(s.p, states, acts) && Inv(s.p, states[0]) && i < j < k < |acts| && states[i].phase.InTx?
    requires var w := Written(s, src, states[i].phase.appendOff, refuse);
             && w.result.Ok? && (w.log == [] || acts[i] == Append(w.log))
             && Retains(states[j], path, w.result.value.0, w.result.value.1)
    requires NoCrash(acts, i, j) && acts[j].CommitStart? && OnlyCommitOps(acts, j + 1, k) && acts[k] == Acknowledge
    ensures Disciplined(states[j].disk) && 2 * SLOT <= states[i].phase.appendOff
    ensures var w, image := Written(s, src, states[i].phase.appendOff, refuse), View(states[j].disk);
            && At(image, states[i].phase.appendOff, w.log)
            && Held(states[k + 1], image, path, w.result.value.0, w.result.value.1)
  {
    hide Step, Inv, View, Written, DeriveMap, Grows, At, Keeps, Allowed, ClearReserved, Planned, PrimaryLoads;
    var p, off, w := s.p, states[i].phase.appendOff, Written(s, src, states[i].phase.appendOff, refuse);
    LogStays(s, states, acts, i, j, w.log);
    var cs, size, image := w.result.value.0, w.result.value.1, View(states[j].disk);
    WrittenRefs(s, src, off, refuse, image);
    StartEffect(p, states[j], acts[j], states[j + 1]);
    DerivedAt(p, states[j].phase.entries, path);
    CommitOpsKeepVersion(p, states, acts, j + 1, k);
    RunKeeps(p, states, acts, k);
    AcknowledgedOnly(p, states[k], states[k + 1]);
    RunGrows(p, states, acts, j, k + 1);
    KeepsGrows(image, image, View(states[k + 1].disk), cs);
  }

  lemma AcknowledgedOnly(p: Primitives, s: State, t: State)
    requires Inv(p, s) && Step(p, s, Acknowledge, t)
    ensures t.versions.base == Published(s) && !t.phase.Committing?
    ensures t.versions.moving.Some? ==> t.versions.moving.value == Published(s)
  {
    hide InvWith, Step, Allowed;
    var w :| InvWith(p, s, w);
    AcknowledgeStep(p, s, w, t);
    AcknowledgeEffect(p, s, t);
    OnlyAllowed(t, Published(s));
  }

  /** `OpenReader`: the lookup, the check of the recorded size, and the stream. */
  function OpenReader(p: Primitives, file: Bytes, snap: Snapshot, l: Limits, path: Bytes): Result<Stream>
  {
    match FindEntry(p, snap, path)
    case Err(x) => Err(x)
    case Ok(None) => Err(NotFound)
    case Ok(Some(e)) => OpenEntry(p, file, l, e)
  }

  /** The size that `Stat` reports. */
  function SizeAt(p: Primitives, snap: Snapshot, path: Bytes): Result<nat>
  {
    match FindEntry(p, snap, path)
    case Err(x) => Err(x)
    case Ok(None) => Err(NotFound)
    case Ok(Some(e)) => Ok(e.fileSize)
  }

  /** On a committed header's snapshot, before and after it is decoded: a path that the map does not have is not found;
      an entry over the limit is refused, and any other can be read. */
  lemma OpenReaderAnswers(p: Primitives, file: Bytes, a: Anchor, l: Limits, path: Bytes)
    requires Anchored(p, file, a)
    ensures forall snap :: snap == a.Loaded(p) || snap == Eager(a.Contents()) ==>
              var r, m := OpenReader(p, file, snap, l, path), a.Contents();
              && SizeAt(p, snap, path) == (if path in m then Ok(m[path].fileSize) else Err(NotFound))
              && r == if path !in m then Err(NotFound)
                      else if l.maxEntry != 0 && l.maxEntry < m[path].fileSize then Err(LimitExceeded)
                      else Ok(Tail(p, file, l, m[path].chunks, 0, 0))
  {
    hide Anchored, FindEntry, Tail, Materialize;
    SnapshotAnswers(p, file, a, path);
  }

  /** Write, commit, crash, reopen, extract.  At step i of a run a transaction appends what the writer makes of a source;
      at step j, with no crash in between, a commit starts whose map has an entry with the references and the size
      the writer returned; the commit runs through and is acknowledged at step k.  Then, for the rest of the container's
      life, through any number of transactions, crashes and reopenings, as long as no commit drops the entry: whatever
      a crash leaves of the file, Open succeeds, the entry is found with its size, and a reader opened on it delivers
      exactly the data that was written, unless its limits refuse the entry or one of its chunks. */
  lemma WrittenIsExtracted(s: Settings, src: Source, refuse: Refuse, states: seq<State>,
      acts: seq<Action>, i: nat, j: nat, k: nat, m: nat, path: Bytes, r: Bytes, l: Limits)
    requires s.p.InversePair() && s.size < U32
    requires Runs.Run(s.p, states, acts) && Inv(s.p, states[0]) && i < j < k < m <= |acts| && states[i].phase.InTx?
    requires var w := Written(s, src, states[i].phase.appendOff, refuse);
             && w.result.Ok? && (w.log == [] || acts[i] == Append(w.log))
             && Retains(states[j], path, w.result.value.0, w.result.value.1)
             && AllRetain(states, acts, k + 1, m, path, w.result.value.0, w.result.value.1)
    requires NoCrash(acts, i, j) && acts[j].CommitStart? && OnlyCommitOps(acts, j + 1, k) && acts[k] == Acknowledge
    requires Disciplined(states[m].disk) && CrashImage(states[m].disk, r)
    ensures OpenImage(s.p, r).Ok?
    ensures var snap := OpenImage(s.p, r).value.snap;
            var cs := Written(s, src, states[i].phase.appendOff, refuse).result.value.0;
            && SizeAt(s.p, snap, path) == Ok(|src.data|)
            && ReadsAs(OpenReader(s.p, r, snap, l, path), src.data, l, cs)
  {
    hide Step, Inv, View, Written, Shows, CrashImage, OpenImage, StreamsAs, Tail, FindEntry, Keeps, At, Retains,
      AllRetain, NoCrash, OnlyCommitOps, ClearReserved;
    var p, off := s.p, states[i].phase.appendOff;
    HeldAfterCommit(s, src, refuse, states, acts, i, j, k, path);
    var (cs, size) := Written(s, src, off, refuse).result.value;
    var image := View(states[j].disk);
    WrittenRefs(s, src, off, refuse, image);
    HeldRun(p, states, acts, k + 1, m, image, path, cs, size);
    CrashAtomicity(p, states, acts, m, r);
    var vs := states[m].versions;
    var v := if Shows(p, r, vs.base) then vs.base else vs.moving.value;
    ShownCarries(p, r, v, image, path, cs, size);
    KeptStreams(s, src, off, refuse, image, r, l);
  }

  lemma DerivedAt(p: Primitives, m: Paths, path: Bytes)
    requires path in m
    ensures path in DeriveMap(p, m) && DeriveMap(p, m)[path] == Derive(p, m[path])
    ensures Derive(p, m[path]).chunks == ClearReserved(m[path].chunks) && Derive(p, m[path]).fileSize == m[path].fileSize
  {
  }
}

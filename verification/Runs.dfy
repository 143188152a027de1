/** One container handle over whole runs: transactions, failing steps, crashes and reopening. */
module Runs {
  import opened Binary
  import opened Common
  import opened Directory
  import opened Catalog
  import opened Rows
  import opened HashRanges
  import opened DirIndex
  import opened Header
  import opened Chunk
  import opened Snapshot
  import opened Journal
  import opened Disk
  import opened Commit
  import opened Open
  import opened Slots

  // ---------- maps a transaction may hold ----------

  /** What a transaction guarantees of its map: entries can be encoded, chunk records lie inside the file. */
  ghost predicate MapOk(m: Paths, size: nat)
  {
    AllEncodable(m) && MapRefsIntact(m, size)
  }

  lemma MapOkMore(m: Paths, a: nat, b: nat)
    requires MapOk(m, a) && a <= b
    ensures MapOk(m, b)
  {
    hide AllEncodable;
  }

  lemma EncodedRefs(p: Primitives, m: Paths, size: nat)
    requires MapOk(m, size)
    ensures RefsIntact(EncodedEntries(p, m), size) && MapRefsIntact(DeriveMap(p, m), size)
  {
    hide EncodedEntries, Canonical, Encodable;
    var es := EncodedEntries(p, m);
    forall e, i | e in es && 0 <= i < |e.chunks|
      ensures RefInside(e.chunks[i], size) && 2 * SLOT <= e.chunks[i].chunkOffset
    {
      var j :| 0 <= j < |es| && es[j] == e;
      EncodedMember(p, m, j);
      assert e.chunks[i] == m[e.path].chunks[i].(reserved := 0);
    }
  }

  /** A map read back from a committed directory may be committed again. */
  lemma ContentsOk(p: Primitives, file: Bytes, a: Anchor)
    requires Anchored(p, file, a)
    ensures MapOk(a.Contents(), |file|)
  {
    hide At, Stamped, IndexAnchored, DirBytes, BodyBytes, Canonical, MapOf, UniquePaths;
    MapOfMembers(a.es);
    var m := a.Contents();
    forall k | k in m
      ensures m[k] in a.es && m[k].path == k && Encodable(m[k])
    {
      var i :| 0 <= i < |a.es| && a.es[i].path == k;
      CanonicalEncodable(p, a.es[i]);
    }
  }

  lemma CanonicalEncodable(p: Primitives, e: Entry)
    requires Canonical(p, e)
    ensures Encodable(e)
  {
    OrderedCleared(e.chunks, 0);
  }

  lemma {:induction false} OrderedCleared(cs: seq<ChunkRef>, prevEnd: u64)
    requires ChunksInOrder(cs, prevEnd)
    ensures ClearReserved(cs) == cs
  {
    if |cs| != 0 {
      OrderedCleared(cs[1..], cs[0].rawOffset + cs[0].rawSize);
      forall i | 0 <= i < |cs|
        ensures ClearReserved(cs)[i] == cs[i]
      {
        if i > 0 { assert ClearReserved(cs[1..])[i - 1] == cs[1..][i - 1]; }
      }
    }
  }

  // ---------- states ----------

  datatype Phase =
    | Down
    | Idle(h: Header, snap: Snapshot)
    | InTx(h: Header, base: Paths, entries: Paths, appendOff: nat, dead: u64, churn: u64)
    | Committing(h: Header, base: Paths, q: Request, plan: Plan, v: Volume, done: nat)
    | Repairing(h: Header, snap: Snapshot, done: nat)

  /** base is the version the disk has settled on; moving is the version whose header has been written to the primary
      slot and not been synced since. */
  datatype Versions = Versions(base: Volume, moving: Option<Volume>)
  {
    function All(): set<Volume>
    {
      if moving.Some? then {base, moving.value} else {base}
    }

    function Synced(): Versions
    {
      if moving.Some? then Versions(moving.value, None) else this
    }

    /** What a file operation of a commit of version v makes of them. */
    function After(op: FileOp, v: Volume): Versions
    {
      if op.Sync? then Synced() else if op.off == 0 then Versions(base, Some(v)) else this
    }
  }

  datatype State = State(disk: Disk, phase: Phase, versions: Versions)

  function Allowed(s: State): (vs: set<Volume>)
    ensures 1 <= |vs| <= 2
  {
    s.versions.All()
  }

  datatype Action =
    | Reopen(v: Volume)
    | RepairOp
    | RepairRefused
    | RepairSyncFails
    | Begin
    | Append(data: Bytes)
    | Edit(entries: Paths, dead: u64, churn: u64)
    | Rollback
    | CommitStart(build: u64, tsJournal: u64, tsBackup: u64)
    | CommitOp
    | CommitFails
    | Acknowledge
    | Close
    | Crash(image: Bytes)

  /** `persistRecoveredHeader`; a write of it that is refused is left out, and its sync may fail. */
  function RepairScript(h: Header): seq<FileOp>
  {
    [WriteAt(0, HeaderBytes(h))] + (if Marker(h) == 2 then [WriteAt(SLOT, HeaderBytes(h))] else []) + [Sync]
  }

  function RequestOf(s: Phase, build: u64, tsJournal: u64, tsBackup: u64): Request
    requires s.InTx?
  {
    Request(s.entries, s.appendOff, s.dead, s.churn, build, tsJournal, tsBackup)
  }

  /** The primary slot of a file image loads by itself. */
  predicate PrimaryLoads(p: Primitives, file: Bytes)
  {
    SLOT <= |file| && Primary(p, file).Ok?
  }

  /** When a step can happen.  A reopening names the version it shows; an edit leaves any map that a transaction
      can reach; a commit must respect the limits that the reader checks and the writer does not, and must not start
      while the primary slot is torn because its repair was refused. */
  ghost predicate Enabled(p: Primitives, s: State, act: Action)
  {
    && Disciplined(s.disk)
    && match act
       case Reopen(v) => s.phase.Down? && v in Allowed(s) && Shows(p, View(s.disk), v)
       case RepairOp => s.phase.Repairing? && s.phase.done < |RepairScript(s.phase.h)|
       case RepairRefused => s.phase.Repairing? && s.phase.done + 1 < |RepairScript(s.phase.h)|
       case RepairSyncFails => s.phase.Repairing? && s.phase.done + 1 == |RepairScript(s.phase.h)|
       case Begin => s.phase.Idle? && Materialize(p, View(s.disk), s.phase.h, s.phase.snap).Ok?
       case Append(data) => s.phase.InTx? && |data| > 0
       case Edit(m, dead, churn) => s.phase.InTx? && MapOk(m, s.phase.appendOff)
       case Rollback => s.phase.InTx?
       case CommitStart(build, tj, tb) =>
         s.phase.InTx? && PrimaryLoads(p, View(s.disk)) && var q := RequestOf(s.phase, build, tj, tb);
         Committable(p, s.phase.h, q) && PlanOf(p, s.phase.h, q).Some?
         && Commit.Readable(p, PlanOf(p, s.phase.h, q).value.dirBlob, PlanOf(p, s.phase.h, q).value.idxBlob)
       case CommitOp => s.phase.Committing? && s.phase.done < |s.phase.plan.script|
       case CommitFails => s.phase.Committing?
       case Acknowledge => s.phase.Committing? && s.phase.done == |s.phase.plan.script|
       case Close => s.phase.Idle?
       case Crash(r) => CrashImage(s.disk, r)
  }

  /** The state after an enabled step.  A step that fails leaves the disk as it was; a version shown by an Open
      that found nothing unsynced is the one the disk has settled on. */
  ghost function Do(p: Primitives, s: State, act: Action): State
    requires Enabled(p, s, act)
  {
    var d := s.disk;
    match act
    case Reopen(v) =>
      var o := OpenImage(p, View(d)).value;
      var phase := if o.repair then Repairing(o.h, o.snap, 0) else Idle(o.h, o.snap);
      if d.pending == [] then State(d, phase, Versions(v, None)) else s.(phase := phase)
    case RepairOp =>
      var h, snap, n := s.phase.h, s.phase.snap, s.phase.done;
      var op := RepairScript(h)[n];
      State(Apply(d, op), if n + 1 == |RepairScript(h)| then Idle(h, snap) else Repairing(h, snap, n + 1),
            if op.Sync? then s.versions.Synced() else s.versions)
    case RepairRefused => s.(phase := Repairing(s.phase.h, s.phase.snap, s.phase.done + 1))
    case RepairSyncFails => s.(phase := Idle(s.phase.h, s.phase.snap))
    case Begin =>
      var m := Materialize(p, View(d), s.phase.h, s.phase.snap).value;
      s.(phase := InTx(s.phase.h, m, m, |View(d)|, 0, 0))
    case Append(data) =>
      s.(disk := Apply(d, WriteAt(s.phase.appendOff, data)), phase := s.phase.(appendOff := s.phase.appendOff + |data|))
    case Edit(m, dead, churn) => s.(phase := s.phase.(entries := m, dead := dead, churn := churn))
    case Rollback => s.(phase := Idle(s.phase.h, Eager(s.phase.base)))
    case CommitStart(build, tj, tb) =>
      var q := RequestOf(s.phase, build, tj, tb);
      var v := Volume(DeriveMap(p, q.entries), View(d));
      s.(phase := Committing(s.phase.h, s.phase.base, q, PlanOf(p, s.phase.h, q).value, v, 0))
    case CommitOp =>
      var c := s.phase;
      var op := c.plan.script[c.done];
      State(Apply(d, op), Committing(c.h, c.base, c.q, c.plan, c.v, c.done + 1), s.versions.After(op, c.v))
    case CommitFails => s.(phase := Idle(s.phase.h, Eager(s.phase.base)))
    case Acknowledge => s.(phase := Idle(s.phase.plan.h, Eager(s.phase.q.entries)))
    case Close => s.(phase := Down)
    case Crash(r) => State(Disk(r, []), Down, s.versions)
  }

  ghost predicate Step(p: Primitives, s: State, act: Action, t: State)
  {
    Enabled(p, s, act) && t == Do(p, s, act)
  }

  /** A run: the states passed through and the steps between them. */
  ghost predicate Run(p: Primitives, states: seq<State>, acts: seq<Action>)
  {
    && |states| == |acts| + 1
    && forall i :: 0 <= i < |acts| ==> Step(p, states[i], acts[i], states[i + 1])
  }

  // ---------- invariant ----------

  /** The disk has shape w, and if a version is on its way, it is the one w moves to. */
  ghost predicate Holds(p: Primitives, d: Disk, vs: Versions, w: Shape)
  {
    Shaped(p, d, vs.All(), w) && (vs.moving.Some? ==> w.Moving? && w.vb == vs.moving.value)
  }

  /** The container's memory is what the disk holds. */
  ghost predicate Serves(p: Primitives, d: Disk, h: Header, snap: Snapshot)
    requires Disciplined(d)
  {
    match snap
    case Eager(m) => Branded(h) && MapOk(m, |View(d)|)
    case Lazy(_, _) => exists cur :: ServesFrom(p, d.durable, h, snap, cur)
  }

  ghost predicate ServesFrom(p: Primitives, file: Bytes, h: Header, snap: Snapshot, cur: Anchor)
  {
    Stamped(h) && EssenceOf(h) == EssenceOf(cur.h) && Anchored(p, file, cur) && snap == cur.Loaded(p)
  }

  /** How far a commit has got on the disk. */
  ghost predicate Progress(p: Primitives, d: Disk, w: Shape, q: Request, plan: Plan, v: Volume, done: nat)
    requires Disciplined(d)
  {
    var j := q.appendOff + |plan.dirBlob| + |plan.idxBlob|;
    if done <= 2 then
      && Live(d, w) && Intact(View(d), v)
      && |View(d)| == q.appendOff + (if done >= 1 then |plan.dirBlob| else 0) + (if done >= 2 then |plan.idxBlob| else 0)
      && (done >= 1 ==> At(View(d), q.appendOff, plan.dirBlob))
      && (done >= 2 ==> At(View(d), q.appendOff + |plan.dirBlob|, plan.idxBlob))
    else
      && Names(p, d.durable, plan.Target(), v)
      && (if done <= 8 then w.Settled?
          else if done == 9 then Live(d, w) && w.Moving? && w.b == plan.Target() && w.vb == v
          else w == Settled(plan.Target(), v))
      && (done <= 5 ==> |d.durable| <= j && |View(d)| == j + (done - 3) * RECORD_SIZE)
      && (done == 6 || done == 8 || done == 10 ==> d.pending == [])
      && (done == 7 ==> d.pending == [WriteAt(SLOT, HeaderBytes(plan.h))])
      && (done == 8 ==> d.durable[SLOT..2 * SLOT] == HeaderBytes(plan.h))
  }

  ghost predicate Planned(p: Primitives, h: Header, q: Request, plan: Plan)
  {
    Committable(p, h, q) && PlanOf(p, h, q) == Some(plan) && Commit.Readable(p, plan.dirBlob, plan.idxBlob)
  }

  ghost predicate PhaseOk(p: Primitives, s: State, w: Shape)
    requires Disciplined(s.disk)
  {
    var d := s.disk;
    match s.phase
    case Down => d.pending != [] ==> Ready(d, w)
    case Idle(h, snap) => Ready(d, w) && Serves(p, d, h, snap)
    case InTx(h, base, m, off, _, _) =>
      Ready(d, w) && Branded(h) && MapOk(base, |View(d)|) && MapOk(m, off) && off == |View(d)|
    case Committing(h, base, q, plan, v, done) =>
      && Branded(h) && MapOk(base, |View(d)|) && MapOk(q.entries, q.appendOff) && q.appendOff <= |View(d)|
      && Planned(p, h, q, plan) && v.entries == DeriveMap(p, q.entries)
      && done <= |plan.script| && Progress(p, d, w, q, plan, v, done)
    case Repairing(h, snap, done) =>
      && w.Moving? && h == w.b.h && Serves(p, d, h, snap) && done < |RepairScript(h)| && Ready(d, w)
  }

  ghost predicate InvWith(p: Primitives, s: State, w: Shape)
  {
    Holds(p, s.disk, s.versions, w) && Disciplined(s.disk) && PhaseOk(p, s, w)
  }

  ghost predicate Inv(p: Primitives, s: State)
  {
    exists w :: InvWith(p, s, w)
  }

  // ---------- every step keeps the invariant ----------

  lemma ViewLength(d: Disk)
    requires Disciplined(d)
    ensures Grows(d.durable, View(d)) && |View(d)| >= |d.durable| >= 2 * SLOT
  {
    ViewGrows(d);
  }

  /** A write behind the durable end, at the end of what the process sees, only adds to what it sees. */
  lemma AppendView(d: Disk, off: nat, data: Bytes)
    requires Disciplined(d) && off == |View(d)|
    ensures var n := Apply(d, WriteAt(off, data));
            Disciplined(n) && View(n) == View(d) + data && Grows(View(d), View(n)) && |d.durable| <= off
  {
    hide View, Overwrite;
    ViewLength(d);
    AppendExtendsView(d, data);
  }

  lemma HoldsCrash(p: Primitives, d: Disk, vs: Versions, w: Shape, r: Bytes)
    requires Holds(p, d, vs, w) && Disciplined(d) && CrashImage(d, r)
    ensures Holds(p, Disk(r, []), vs, w) && Disciplined(Disk(r, []))
  {
    hide Shaped, CrashImage;
    CrashKeeps(p, d, vs.All(), w, r);
    ShapedDisciplined(p, Disk(r, []), vs.All(), w);
  }

  lemma CrashEffect(p: Primitives, s: State, r: Bytes, t: State)
    requires Step(p, s, Crash(r), t)
    ensures Disciplined(s.disk) && CrashImage(s.disk, r) && t == State(Disk(r, []), Down, s.versions)
  {
    hide View, CrashImage;
  }

  lemma CrashStep(p: Primitives, s: State, w: Shape, r: Bytes, t: State)
    requires InvWith(p, s, w) && Step(p, s, Crash(r), t)
    ensures Inv(p, t)
  {
    hide Holds, CrashImage, View, Step, Live, Torn;
    CrashEffect(p, s, r, t);
    HoldsCrash(p, s.disk, s.versions, w, r);
    assert InvWith(p, t, w);
  }

  lemma ShapedDisciplined(p: Primitives, d: Disk, allowed: set<Volume>, w: Shape)
    requires Shaped(p, d, allowed, w)
    ensures Disciplined(d)
  {
    hide Names, Mixed, EssenceOf, ParseHeader, HeaderBytes;
  }

  lemma ReopenEffect(p: Primitives, s: State, v: Volume, t: State)
    requires Step(p, s, Reopen(v), t)
    ensures s.phase.Down? && Disciplined(s.disk) && v in Allowed(s) && Shows(p, View(s.disk), v)
    ensures var o := OpenImage(p, View(s.disk)).value;
            && t.disk == s.disk && t.phase == (if o.repair then Repairing(o.h, o.snap, 0) else Idle(o.h, o.snap))
            && t.versions == (if s.disk.pending == [] then Versions(v, None) else s.versions)
  {
    hide View, OpenImage, Intact, Materialize;
  }

  /** What Open finds on a disk, and the shape the disk is in afterwards. */
  lemma OpenHolds(p: Primitives, d: Disk, vs: Versions, w: Shape, v: Volume)
    returns (h: Header, repair: bool, cur: Anchor, u: Volume, w2: Shape)
    requires Holds(p, d, vs, w) && (d.pending != [] ==> Ready(d, w))
    requires Disciplined(d) && Shows(p, View(d), v)
    ensures Holds(p, d, if d.pending == [] then Versions(v, None) else vs, w2)
    ensures OpenImage(p, View(d)) == Ok(Opened(h, cur.Loaded(p), repair)) && Serves(p, d, h, cur.Loaded(p))
    ensures Ready(d, w2) && (repair ==> w2.Moving? && h == w2.b.h)
  {
    hide Shaped, View, OpenImage, Names, EssenceOf, Materialize, HeaderBytes, Live, Torn, Intact, Serves, Stamped;
    h, repair, cur, u, w2 := ShapeOpens(p, d, vs.All(), w);
    YieldsShows(p, d, h, repair, cur, u, w2);
    NamedServes(p, d, h, cur, u);
    if d.pending == [] {
      ViewQuiet(d);
      SwapVolume(p, d, u, v, w2);
      LiveSwapped(d, w2, u, v);
      w2 := Swapped(w2, u, v);
    }
  }

  /** Reopening: whichever version the file shows, the disk keeps a shape that can yield it. */
  lemma ReopenStep(p: Primitives, s: State, w: Shape, v: Volume, t: State)
    requires InvWith(p, s, w) && Step(p, s, Reopen(v), t)
    ensures Inv(p, t)
  {
    hide Holds, View, OpenImage, Live, Torn, RepairScript, Step, Serves, Shows, InvWith;
    ReopenEffect(p, s, v, t);
    DownHolds(p, s, w);
    var h, repair, cur, u, w2 := OpenHolds(p, s.disk, s.versions, w, v);
    RepairLength(h);
    assert InvWith(p, t, w2) by { OpenedOk(p, t, w2, h, cur.Loaded(p), repair); }
  }

  lemma OpenedOk(p: Primitives, t: State, w: Shape, h: Header, snap: Snapshot, repair: bool)
    requires Disciplined(t.disk) && Holds(p, t.disk, t.versions, w) && Serves(p, t.disk, h, snap) && 0 < |RepairScript(h)|
    requires t.phase == if repair then Repairing(h, snap, 0) else Idle(h, snap)
    requires Ready(t.disk, w) && (repair ==> w.Moving? && h == w.b.h)
    ensures InvWith(p, t, w)
  {
    hide Holds, View, Live, Torn, RepairScript, Serves, Disciplined;
  }

  lemma DownHolds(p: Primitives, s: State, w: Shape)
    requires InvWith(p, s, w) && s.phase.Down?
    ensures Holds(p, s.disk, s.versions, w) && (s.disk.pending != [] ==> Ready(s.disk, w))
  {
    hide Holds, View, Live, Torn, Shows;
  }

  lemma ViewQuiet(d: Disk)
    requires d.pending == []
    ensures View(d) == d.durable
  {
  }

  /** The shape with one description of a version exchanged for another of the same version. */
  function Swapped(w: Shape, u: Volume, v: Volume): Shape
  {
    match w
    case Settled(a, va) => Settled(a, if va == u then v else va)
    case Moving(a, va, b, vb) => Moving(a, if va == u then v else va, b, if vb == u then v else vb)
  }

  lemma LiveSwapped(d: Disk, w: Shape, u: Volume, v: Volume)
    ensures Live(d, Swapped(w, u, v)) == Live(d, w) && Torn(d, Swapped(w, u, v)) == Torn(d, w)
  {
  }

  lemma SwapVolume(p: Primitives, d: Disk, u: Volume, v: Volume, w: Shape)
    requires Shaped(p, d, {u}, w) && u.entries == v.entries && Intact(d.durable, v)
    ensures Shaped(p, d, {v}, Swapped(w, u, v))
  {
    hide Anchored, Intact, HeaderBytes, Mixed, EssenceOf, ParseHeader;
  }

  lemma NamedServes(p: Primitives, d: Disk, h: Header, cur: Anchor, v: Volume)
    requires Disciplined(d) && Stamped(h) && EssenceOf(h) == EssenceOf(cur.h) && Names(p, d.durable, cur, v)
    ensures Serves(p, d, h, cur.Loaded(p))
  {
    hide Stamped, Anchored, Intact, EssenceOf;
    assert ServesFrom(p, d.durable, h, cur.Loaded(p), cur);
  }

  lemma RepairLength(h: Header)
    ensures 2 <= |RepairScript(h)| <= 3
    ensures forall i :: 0 <= i < |RepairScript(h)| ==>
              if i + 1 == |RepairScript(h)| then RepairScript(h)[i] == Sync
              else RepairScript(h)[i] == WriteAt(if i == 0 then 0 else SLOT, HeaderBytes(h))
  {
    hide HeaderBytes, Marker;
  }

  lemma HoldsRepair(p: Primitives, d: Disk, vs: Versions, w: Shape, slot: nat)
    requires Holds(p, d, vs, w) && w.Moving? && slot in {0, SLOT}
    ensures Disciplined(d) && var next := Apply(d, WriteAt(slot, HeaderBytes(w.b.h)));
              Holds(p, next, vs, w) && Disciplined(next) && (slot == 0 || Ready(d, w) ==> Ready(next, w))
  {
    hide Shaped, HeaderBytes, Live, Torn;
    ShapedDisciplined(p, d, vs.All(), w);
    RepairKeeps(p, d, vs.All(), w, slot);
    ShapedDisciplined(p, Apply(d, WriteAt(slot, HeaderBytes(w.b.h))), vs.All(), w);
  }

  lemma RepairEffect(p: Primitives, s: State, t: State)
    requires Step(p, s, RepairOp, t)
    ensures Disciplined(s.disk) && s.phase.Repairing? && s.phase.done < |RepairScript(s.phase.h)|
    ensures var h, snap, n := s.phase.h, s.phase.snap, s.phase.done;
            var op := RepairScript(h)[n];
            && t.disk == Apply(s.disk, op)
            && t.phase == (if n + 1 == |RepairScript(h)| then Idle(h, snap) else Repairing(h, snap, n + 1))
            && t.versions == (if op.Sync? then s.versions.Synced() else s.versions)
  {
    hide RepairScript, View, Apply;
  }

  lemma RepairStep(p: Primitives, s: State, w: Shape, t: State)
    requires InvWith(p, s, w) && Step(p, s, RepairOp, t)
    ensures Inv(p, t)
  {
    hide Holds, View, HeaderBytes, Live, Torn, RepairScript, Serves, Step;
    RepairEffect(p, s, t);
    var h, snap, n := s.phase.h, s.phase.snap, s.phase.done;
    RepairLength(h);
    var op := RepairScript(h)[n];
    if op == Sync {
      var w2 := HoldsSyncReady(p, s.disk, s.versions, w);
      ServesLater(p, s.disk, t.disk, h, snap) by { ViewSynced(s.disk); }
      assert InvWith(p, t, w2);
    } else {
      HoldsRepair(p, s.disk, s.versions, w, if n == 0 then 0 else SLOT);
      ServesLater(p, s.disk, t.disk, h, snap) by { SlotWriteLength(s.disk, op); }
      assert InvWith(p, t, w);
    }
  }

  lemma SettledLive(d: Disk, w: Shape)
    requires w.Settled?
    ensures Live(d, w)
  {
  }

  lemma ViewSynced(d: Disk)
    requires Disciplined(d)
    ensures var n := Apply(d, Sync);
            && Disciplined(n) && View(n) == View(d) && Grows(d.durable, n.durable)
            && n.durable == View(d) && n.pending == []
  {
    hide View, Overwrite;
    ViewLength(d);
    ViewQuiet(Apply(d, Sync));
  }

  lemma SlotWriteLength(d: Disk, op: FileOp)
    requires Disciplined(d) && SlotWrite(op)
    ensures var n := Apply(d, op); Disciplined(n) && |View(n)| == |View(d)| && n.durable == d.durable
    ensures Grows(View(d), View(Apply(d, op)))
  {
    ViewLength(d);
    assert (d.pending + [op])[..|d.pending|] == d.pending;
  }

  lemma ServesLater(p: Primitives, d: Disk, e: Disk, h: Header, snap: Snapshot)
    requires Disciplined(d) && Disciplined(e) && Grows(d.durable, e.durable) && |View(d)| <= |View(e)|
    requires Serves(p, d, h, snap)
    ensures Serves(p, e, h, snap)
  {
    hide View, EssenceOf, Anchored, AllEncodable, Stamped, Grows;
    if snap.Lazy? {
      var cur :| ServesFrom(p, d.durable, h, snap, cur);
      AnchoredGrows(p, d.durable, e.durable, cur);
      assert ServesFrom(p, e.durable, h, snap, cur);
    } else {
      MapOkMore(snap.entries, |View(d)|, |View(e)|);
    }
  }

  lemma RepairRefusedStep(p: Primitives, s: State, w: Shape, t: State)
    requires InvWith(p, s, w) && Step(p, s, RepairRefused, t)
    ensures Inv(p, t)
  {
    hide Holds, View, HeaderBytes, Live, Torn, RepairScript, Serves, Disciplined, Stamped;
    assert InvWith(p, t, w);
  }

  lemma RepairEnds(p: Primitives, s: State, t: State)
    requires Step(p, s, RepairSyncFails, t)
    ensures s.phase.Repairing? && t == s.(phase := Idle(s.phase.h, s.phase.snap))
  {
    hide RepairScript;
  }

  lemma RepairSyncFailsStep(p: Primitives, s: State, w: Shape, t: State)
    requires InvWith(p, s, w) && Step(p, s, RepairSyncFails, t)
    ensures Inv(p, t)
  {
    hide Holds, View, Ready, RepairScript, Serves, Disciplined, Step;
    RepairEnds(p, s, t);
    assert InvWith(p, t, w);
  }

  lemma BeginEffect(p: Primitives, s: State, t: State)
    requires Step(p, s, Begin, t)
    ensures s.phase.Idle? && Disciplined(s.disk) && Materialize(p, View(s.disk), s.phase.h, s.phase.snap).Ok?
    ensures var m := Materialize(p, View(s.disk), s.phase.h, s.phase.snap).value;
            t == s.(phase := InTx(s.phase.h, m, m, |View(s.disk)|, 0, 0))
  {
    hide View, Materialize;
  }

  /** Beginning a transaction reads the whole map; what was loaded may be committed again. */
  lemma BeginStep(p: Primitives, s: State, w: Shape, t: State)
    requires InvWith(p, s, w) && Step(p, s, Begin, t)
    ensures Inv(p, t)
  {
    hide Holds, View, Ready, MapOk, Materialize, Branded, Step, Serves;
    BeginEffect(p, s, t);
    MaterializedOk(p, s.disk, s.phase.h, s.phase.snap);
    assert InvWith(p, t, w);
  }

  /** What the container serves can be materialised, and the result may be committed again. */
  lemma MaterializedOk(p: Primitives, d: Disk, h: Header, snap: Snapshot)
    requires Disciplined(d) && Serves(p, d, h, snap)
    ensures Materialize(p, View(d), h, snap).Ok? && Branded(h)
    ensures MapOk(Materialize(p, View(d), h, snap).value, |View(d)|)
  {
    hide View, Anchored, Stamped, MapOk, EssenceOf, Grows, Branded;
    if snap.Lazy? {
      hide Materialize;
      var cur :| ServesFrom(p, d.durable, h, snap, cur);
      ViewLength(d);
      AnchoredGrows(p, d.durable, View(d), cur);
      EssenceDecides(p, View(d), h, cur);
      ContentsOk(p, View(d), cur);
      StampedBranded(h);
    }
  }

  lemma StampedBranded(h: Header)
    requires Stamped(h)
    ensures Branded(h)
  {
  }

  lemma AppendStep(p: Primitives, s: State, w: Shape, data: Bytes, t: State)
    requires InvWith(p, s, w) && Step(p, s, Append(data), t)
    ensures Inv(p, t)
  {
    hide Holds, View, HeaderBytes, Live, Torn, MapOk, Branded, Grows;
    AppendView(s.disk, s.phase.appendOff, data);
    HoldsAppend(p, s.disk, s.versions, w, s.phase.appendOff, data);
    MapOkMore(s.phase.base, |View(s.disk)|, |View(t.disk)|);
    MapOkMore(s.phase.entries, |View(s.disk)|, |View(t.disk)|);
    assert InvWith(p, t, w);
  }

  lemma EditEffect(p: Primitives, s: State, m: Paths, dead: u64, churn: u64, t: State)
    requires Step(p, s, Edit(m, dead, churn), t)
    ensures s.phase.InTx? && MapOk(m, s.phase.appendOff)
    ensures t == s.(phase := InTx(s.phase.h, s.phase.base, m, s.phase.appendOff, dead, churn))
  {
    hide View, MapOk;
  }

  lemma EditStep(p: Primitives, s: State, w: Shape, m: Paths, dead: u64, churn: u64, t: State)
    requires InvWith(p, s, w) && Step(p, s, Edit(m, dead, churn), t)
    ensures Inv(p, t)
  {
    hide Holds, View, Ready, MapOk, Branded, Step;
    EditEffect(p, s, m, dead, churn, t);
    assert InvWith(p, t, w);
  }

  lemma RollbackEffect(p: Primitives, s: State, t: State)
    requires Step(p, s, Rollback, t)
    ensures s.phase.InTx? && t == s.(phase := Idle(s.phase.h, Eager(s.phase.base)))
  {
    hide View;
  }

  lemma RollbackStep(p: Primitives, s: State, w: Shape, t: State)
    requires InvWith(p, s, w) && Step(p, s, Rollback, t)
    ensures Inv(p, t)
  {
    hide Holds, View, Ready, MapOk, Branded, Step;
    RollbackEffect(p, s, t);
    assert InvWith(p, t, w);
  }

  lemma CloseEffect(p: Primitives, s: State, t: State)
    requires Step(p, s, Close, t)
    ensures s.phase.Idle? && t == s.(phase := Down)
  {
    hide View;
  }

  lemma CloseStep(p: Primitives, s: State, w: Shape, t: State)
    requires InvWith(p, s, w) && Step(p, s, Close, t)
    ensures Inv(p, t)
  {
    hide Holds, View, Live, Torn, Serves, Step;
    CloseEffect(p, s, t);
    assert InvWith(p, t, w);
  }

  // ---------- the steps of a commit ----------

  /** A commit under way, without the rest of the state. */
  ghost predicate CommitOk(p: Primitives, d: Disk, vs: Versions, w: Shape, q: Request, plan: Plan, v: Volume, done: nat)
  {
    && Holds(p, d, vs, w) && Disciplined(d) && v.entries == DeriveMap(p, q.entries)
    && 2 * SLOT <= q.appendOff <= |View(d)| && done <= |plan.script| && Progress(p, d, w, q, plan, v, done)
  }

  lemma PlanScript(p: Primitives, h: Header, q: Request, plan: Plan)
    requires Planned(p, h, q, plan)
    ensures plan.script == Script(p, q.appendOff, plan.dirBlob, plan.idxBlob, HeaderBytes(plan.h), q.tsJournal,
      q.tsBackup)
    ensures plan.h.dirOffset == q.appendOff && IndexOffset(plan.h) == q.appendOff + |plan.dirBlob|
    ensures plan.h.journalOffset == q.appendOff + |plan.dirBlob| + |plan.idxBlob| && plan.h.journalSize == RECORD_SIZE
  {
    hide DirBytes, BodyBytes, EncodedEntries, NextHeader, AllEncodable, RefsIntact, Script, NextGeneration, Scan,
         Generation, DirCRCOf, IndexBytes, BuildRanges, RecordBytes, HeaderBytes, Describes, Canonical, IndexOffset;
    PlanHeader(p, h, q);
  }

  lemma StartEffect(p: Primitives, s: State, act: Action, t: State)
    requires Step(p, s, act, t) && act.CommitStart?
    ensures s.phase.InTx? && Disciplined(s.disk) && PrimaryLoads(p, View(s.disk)) && t.phase.Committing?
    ensures var q := RequestOf(s.phase, act.build, act.tsJournal, act.tsBackup);
            && Planned(p, s.phase.h, q, t.phase.plan)
            && t == s.(phase := Committing(s.phase.h, s.phase.base, q, t.phase.plan,
                                           Volume(DeriveMap(p, q.entries), View(s.disk)), 0))
  {
    hide View, DeriveMap, PlanOf, Committable, Commit.Readable, Primary;
  }

  lemma StartLive(p: Primitives, s: State, w: Shape)
    requires InvWith(p, s, w) && s.phase.InTx? && PrimaryLoads(p, View(s.disk))
    ensures Live(s.disk, w)
  {
    hide Shaped, View, Live, Torn, Primary, MapOk, Branded;
    PrimaryLoadsIff(p, s.disk, Allowed(s), w);
  }

  lemma StartStep(p: Primitives, s: State, w: Shape, build: u64, tj: u64, tb: u64, t: State)
    requires InvWith(p, s, w) && Step(p, s, CommitStart(build, tj, tb), t)
    ensures Inv(p, t)
  {
    hide Holds, View, Live, Torn, Branded, AllEncodable, Step, DeriveMap, PrimaryLoads, Planned;
    StartEffect(p, s, CommitStart(build, tj, tb), t);
    StartLive(p, s, w);
    var q := RequestOf(s.phase, build, tj, tb);
    EncodedRefs(p, q.entries, q.appendOff);
    IntactItself(t.phase.v);
    assert InvWith(p, t, w);
  }

  lemma IntactItself(v: Volume)
    requires MapRefsIntact(v.entries, |v.image|)
    ensures Intact(v.image, v)
  {
  }

  /** What a disk looks like after an append, a sync, or the writes of the two slots. */
  lemma HoldsAppend(p: Primitives, d: Disk, vs: Versions, w: Shape, off: nat, data: Bytes)
    requires Holds(p, d, vs, w) && |d.durable| <= off
    ensures AllWrites(d.pending) && Holds(p, Apply(d, WriteAt(off, data)), vs, w) && Disciplined(Apply(d, WriteAt(off, data)))
    ensures Live(d, w) ==> Live(Apply(d, WriteAt(off, data)), w)
    ensures Ready(d, w) ==> Ready(Apply(d, WriteAt(off, data)), w)
  {
    hide Shaped, Live, Torn;
    ShapedDisciplined(p, d, vs.All(), w);
    AppendKeeps(p, d, vs.All(), w, off, data);
    ShapedDisciplined(p, Apply(d, WriteAt(off, data)), vs.All(), w);
  }

  lemma HoldsSync(p: Primitives, d: Disk, vs: Versions, w: Shape)
    requires Holds(p, d, vs, w) && Live(d, w)
    ensures Disciplined(d) && Holds(p, Apply(d, Sync), vs.Synced(), Resolved(w)) && Disciplined(Apply(d, Sync))
  {
    hide SettledOn, MovingTo, EssenceOf, ParseHeader, View;
    assert Disciplined(d) by { ShapedDisciplined(p, d, vs.All(), w); }
    SyncSettles(p, d, vs.All(), w);
    ShapedDisciplined(p, Apply(d, Sync), vs.All(), Resolved(w));
  }

  /** A sync while the container is open settles the disk, unless its primary slot is torn. */
  lemma HoldsSyncReady(p: Primitives, d: Disk, vs: Versions, w: Shape) returns (w2: Shape)
    requires Holds(p, d, vs, w) && Ready(d, w)
    ensures Disciplined(d) && Holds(p, Apply(d, Sync), vs.Synced(), w2) && Disciplined(Apply(d, Sync))
    ensures Ready(Apply(d, Sync), w2) && (Live(d, w) ==> w2 == Resolved(w))
  {
    hide SettledOn, Mixed, Names, OnlySlotBytes, EssenceOf, ParseHeader, View, HeaderBytes, Live;
    assert Disciplined(d) by { ShapedDisciplined(p, d, vs.All(), w); }
    if Live(d, w) {
      HoldsSync(p, d, vs, w);
      w2 := Resolved(w);
      SettledLive(Apply(d, Sync), w2);
    } else {
      SyncTorn(p, d, vs.All(), w);
      ShapedDisciplined(p, Apply(d, Sync), vs.All(), w);
      w2 := w;
    }
  }

  lemma HoldsPrimary(p: Primitives, d: Disk, vs: Versions, w: Shape, b: Anchor, vb: Volume)
    requires Holds(p, d, vs, w) && w.Settled? && d.pending == []
    requires Names(p, d.durable, b, vb) && d.durable[SLOT..2 * SLOT] == HeaderBytes(b.h)
    ensures Disciplined(d) && var next, m := Apply(d, WriteAt(0, HeaderBytes(b.h))), Moving(w.a, w.va, b, vb);
            && Holds(p, next, Versions(vs.base, Some(vb)), m) && Live(next, m)
  {
    hide Shaped, HeaderBytes, Names, Live, Torn;
    assert Disciplined(d) by { ShapedDisciplined(p, d, vs.All(), w); }
    var both := Versions(vs.base, Some(vb)).All();
    ShapedMore(p, d, vs.All(), both, w);
    PrimaryWriteMoves(p, d, both, w, b, vb);
  }

  lemma DirOp(p: Primitives, h: Header, d: Disk, vs: Versions, w: Shape, q: Request, plan: Plan, v: Volume)
    requires Planned(p, h, q, plan) && CommitOk(p, d, vs, w, q, plan, v, 0)
    ensures CommitOk(p, Apply(d, plan.script[0]), vs.After(plan.script[0], v), w, q, plan, v, 1)
  {
    hide Holds, View, Live, Torn, Planned, RecordBytes, HeaderBytes, Intact, DeriveMap, Grows;
    PlanScript(p, h, q, plan);
    AppendView(d, q.appendOff, plan.dirBlob);
    HoldsAppend(p, d, vs, w, q.appendOff, plan.dirBlob);
    IntactGrows(View(d), View(Apply(d, plan.script[0])), v);
  }

  lemma IdxOp(p: Primitives, h: Header, d: Disk, vs: Versions, w: Shape, q: Request, plan: Plan, v: Volume)
    requires Planned(p, h, q, plan) && CommitOk(p, d, vs, w, q, plan, v, 1)
    ensures CommitOk(p, Apply(d, plan.script[1]), vs.After(plan.script[1], v), w, q, plan, v, 2)
  {
    hide Holds, View, Live, Torn, Planned, RecordBytes, HeaderBytes, Intact, DeriveMap, Grows;
    PlanScript(p, h, q, plan);
    AppendView(d, q.appendOff + |plan.dirBlob|, plan.idxBlob);
    HoldsAppend(p, d, vs, w, q.appendOff + |plan.dirBlob|, plan.idxBlob);
    IntactGrows(View(d), View(Apply(d, plan.script[1])), v);
    PieceGrows(View(d), View(Apply(d, plan.script[1])), q.appendOff, plan.dirBlob);
  }

  /** The first sync: from here on the new directory, its index and all chunk records are durable. */
  lemma FirstSyncOp(p: Primitives, h: Header, d: Disk, vs: Versions, w: Shape, q: Request, plan: Plan, v: Volume)
    requires Planned(p, h, q, plan) && CommitOk(p, d, vs, w, q, plan, v, 2)
    ensures CommitOk(p, Apply(d, plan.script[2]), vs.After(plan.script[2], v), Resolved(w), q, plan, v, 3)
  {
    hide Holds, View, Live, Torn, RecordBytes, HeaderBytes, Intact, DeriveMap, Grows, Anchored, PlanOf, Committable, At,
         IndexOffset, Commit.Readable;
    PlanScript(p, h, q, plan);
    HoldsSync(p, d, vs, w);
    ViewSynced(d);
    PlanAnchors(p, h, q, View(d));
  }

  lemma RecordOp(p: Primitives, h: Header, d: Disk, vs: Versions, w: Shape, q: Request, plan: Plan, v: Volume,
      done: nat)
    requires Planned(p, h, q, plan) && CommitOk(p, d, vs, w, q, plan, v, done) && done in {3, 4}
    ensures CommitOk(p, Apply(d, plan.script[done]), vs.After(plan.script[done], v), w, q, plan, v, done + 1)
  {
    hide Holds, View, Live, Torn, Planned, RecordBytes, HeaderBytes, Names, DeriveMap, Grows;
    PlanScript(p, h, q, plan);
    var op := plan.script[done];
    AppendView(d, op.off, op.data);
    HoldsAppend(p, d, vs, w, op.off, op.data);
  }

  lemma ViewReaches(d: Disk, op: FileOp)
    requires Disciplined(d) && op.WriteAt? && Disciplined(Apply(d, op))
    ensures |View(Apply(d, op))| >= |View(d)|
  {
    assert (d.pending + [op])[..|d.pending|] == d.pending;
  }

  lemma SecondSyncOp(p: Primitives, h: Header, d: Disk, vs: Versions, w: Shape, q: Request, plan: Plan, v: Volume)
    requires Planned(p, h, q, plan) && CommitOk(p, d, vs, w, q, plan, v, 5)
    ensures CommitOk(p, Apply(d, plan.script[5]), vs.After(plan.script[5], v), w, q, plan, v, 6)
  {
    hide Holds, View, Planned, RecordBytes, HeaderBytes, DeriveMap, Grows, Names;
    PlanScript(p, h, q, plan);
    SettledLive(d, w);
    HoldsSync(p, d, vs, w);
    ViewSynced(d);
    NamesGrows(p, d.durable, View(d), plan.Target(), v);
  }

  lemma FixedOp(p: Primitives, h: Header, d: Disk, vs: Versions, w: Shape, q: Request, plan: Plan, v: Volume)
    requires Planned(p, h, q, plan) && CommitOk(p, d, vs, w, q, plan, v, 6)
    ensures CommitOk(p, Apply(d, plan.script[6]), vs.After(plan.script[6], v), w, q, plan, v, 7)
  {
    hide Shaped, View, Planned, RecordBytes, HeaderBytes, DeriveMap, Grows, Names;
    PlanScript(p, h, q, plan);
    FixedWriteKeeps(p, d, vs.All(), w, HeaderBytes(plan.h));
    SlotWriteLength(d, plan.script[6]);
  }

  lemma FixedSyncOp(p: Primitives, h: Header, d: Disk, vs: Versions, w: Shape, q: Request, plan: Plan, v: Volume)
    requires Planned(p, h, q, plan) && CommitOk(p, d, vs, w, q, plan, v, 7)
    ensures CommitOk(p, Apply(d, plan.script[7]), vs.After(plan.script[7], v), w, q, plan, v, 8)
  {
    hide Holds, View, Planned, RecordBytes, HeaderBytes, DeriveMap, Grows, Names;
    PlanScript(p, h, q, plan);
    SettledLive(d, w);
    HoldsSync(p, d, vs, w);
    ViewSynced(d);
    ViewSlot(d, SLOT);
    NamesGrows(p, d.durable, View(d), plan.Target(), v);
  }

  /** The write of the primary slot: from here on, and not before, the disk can yield the new version. */
  lemma PrimaryOp(p: Primitives, h: Header, d: Disk, vs: Versions, w: Shape, q: Request, plan: Plan, v: Volume)
    requires Planned(p, h, q, plan) && CommitOk(p, d, vs, w, q, plan, v, 8)
    ensures CommitOk(p, Apply(d, plan.script[8]), vs.After(plan.script[8], v),
                     Moving(w.a, w.va, plan.Target(), v), q, plan, v, 9)
  {
    hide Holds, View, Planned, RecordBytes, HeaderBytes, DeriveMap, Grows, Names, Live, Torn;
    PlanScript(p, h, q, plan);
    HoldsPrimary(p, d, vs, w, plan.Target(), v);
    SlotWriteLength(d, plan.script[8]);
  }

  lemma PrimarySyncOp(p: Primitives, h: Header, d: Disk, vs: Versions, w: Shape, q: Request, plan: Plan, v: Volume)
    requires Planned(p, h, q, plan) && CommitOk(p, d, vs, w, q, plan, v, 9)
    ensures CommitOk(p, Apply(d, plan.script[9]), vs.After(plan.script[9], v), Resolved(w), q, plan, v, 10)
  {
    hide Holds, View, Planned, RecordBytes, HeaderBytes, DeriveMap, Grows, Names, Live, Torn;
    PlanScript(p, h, q, plan);
    HoldsSync(p, d, vs, w);
    ViewSynced(d);
    NamesGrows(p, d.durable, View(d), plan.Target(), v);
  }

  /** Every file operation of a commit keeps the invariant of the commit. */
  lemma CommitOpKeeps(p: Primitives, h: Header, d: Disk, vs: Versions, w: Shape, q: Request, plan: Plan, v: Volume,
      done: nat) returns (w2: Shape)
    requires Planned(p, h, q, plan) && CommitOk(p, d, vs, w, q, plan, v, done) && done < |plan.script|
    ensures CommitOk(p, Apply(d, plan.script[done]), vs.After(plan.script[done], v), w2, q, plan, v, done + 1)
  {
    hide CommitOk, Planned, View;
    assert |plan.script| == 10 by { PlanScript(p, h, q, plan); }
    assert AllWrites(d.pending) by { CommitDisciplined(p, d, vs, w, q, plan, v, done); }
    w2 := w;
    if done == 0 { DirOp(p, h, d, vs, w, q, plan, v); }
    else if done == 1 { IdxOp(p, h, d, vs, w, q, plan, v); }
    else if done == 2 { FirstSyncOp(p, h, d, vs, w, q, plan, v); w2 := Resolved(w); }
    else if done <= 4 { RecordOp(p, h, d, vs, w, q, plan, v, done); }
    else if done == 5 { SecondSyncOp(p, h, d, vs, w, q, plan, v); }
    else if done == 6 { FixedOp(p, h, d, vs, w, q, plan, v); }
    else if done == 7 { FixedSyncOp(p, h, d, vs, w, q, plan, v); }
    else if done == 8 { PrimaryOp(p, h, d, vs, w, q, plan, v); w2 := Moving(w.a, w.va, plan.Target(), v); }
    else { PrimarySyncOp(p, h, d, vs, w, q, plan, v); w2 := Resolved(w); }
  }

  lemma CommitDisciplined(p: Primitives, d: Disk, vs: Versions, w: Shape, q: Request, plan: Plan, v: Volume,
      done: nat)
    requires CommitOk(p, d, vs, w, q, plan, v, done)
    ensures Disciplined(d)
  {
    hide Holds, Progress, DeriveMap;
  }

  lemma CommitOpEffect(p: Primitives, s: State, t: State)
    requires Step(p, s, CommitOp, t)
    ensures s.phase.Committing? && Disciplined(s.disk) && s.phase.done < |s.phase.plan.script|
    ensures t.disk == Apply(s.disk, s.phase.plan.script[s.phase.done])
    ensures var c := s.phase;
            && t.phase == Committing(c.h, c.base, c.q, c.plan, c.v, c.done + 1)
            && t.versions == s.versions.After(c.plan.script[c.done], c.v)
  {
    hide View;
  }

  lemma CommitOpStep(p: Primitives, s: State, w: Shape, t: State)
    requires InvWith(p, s, w) && Step(p, s, CommitOp, t)
    ensures Inv(p, t)
  {
    hide Holds, View, Planned, Progress, DeriveMap, MapOk, Branded, Step;
    CommitOpEffect(p, s, t);
    var c := s.phase;
    assert 2 * SLOT <= c.q.appendOff by { PlannedOffset(p, c.h, c.q, c.plan); }
    assert CommitOk(p, s.disk, s.versions, w, c.q, c.plan, c.v, c.done);
    var w2 := CommitOpKeeps(p, c.h, s.disk, s.versions, w, c.q, c.plan, c.v, c.done);
    CommitViewGrows(p, c.h, s.disk, s.versions, w, c.q, c.plan, c.v, c.done);
    MapOkMore(c.base, |View(s.disk)|, |View(t.disk)|);
    assert InvWith(p, t, w2);
  }

  lemma PlannedOffset(p: Primitives, h: Header, q: Request, plan: Plan)
    requires Planned(p, h, q, plan)
    ensures 2 * SLOT <= q.appendOff
  {
  }

  lemma CommitViewGrows(p: Primitives, h: Header, d: Disk, vs: Versions, w: Shape, q: Request, plan: Plan, v: Volume,
      done: nat)
    requires Planned(p, h, q, plan) && CommitOk(p, d, vs, w, q, plan, v, done) && done < |plan.script|
    requires Disciplined(Apply(d, plan.script[done]))
    ensures |View(Apply(d, plan.script[done]))| >= |View(d)|
  {
    hide Holds, View, Planned, Progress, DeriveMap;
    var op := plan.script[done];
    if op.Sync? { ViewSynced(d); } else { ViewReaches(d, op); }
  }

  lemma CommitFailsEffect(p: Primitives, s: State, t: State)
    requires Step(p, s, CommitFails, t)
    ensures s.phase.Committing? && t == s.(phase := Idle(s.phase.h, Eager(s.phase.base)))
  {
    hide View;
  }

  lemma CommitFailsStep(p: Primitives, s: State, w: Shape, t: State)
    requires InvWith(p, s, w) && Step(p, s, CommitFails, t)
    ensures Inv(p, t)
  {
    hide Holds, View, Planned, DeriveMap, MapOk, Branded, Names, Intact, Step, Torn, At, RecordBytes, HeaderBytes;
    CommitFailsEffect(p, s, t);
    assert Live(s.disk, w);
    assert InvWith(p, t, w);
  }

  lemma AcknowledgeEffect(p: Primitives, s: State, t: State)
    requires Step(p, s, Acknowledge, t)
    ensures s.phase.Committing? && s.phase.done == |s.phase.plan.script|
    ensures t == s.(phase := Idle(s.phase.plan.h, Eager(s.phase.q.entries)))
  {
    hide View;
  }

  /** When the last sync has returned, the new version is the only one the disk can yield. */
  lemma AcknowledgeStep(p: Primitives, s: State, w: Shape, t: State)
    requires InvWith(p, s, w) && Step(p, s, Acknowledge, t)
    ensures Inv(p, t) && Allowed(t) == {Published(s)}
  {
    hide View, Planned, DeriveMap, MapOk, Branded, Names, HeaderBytes, Step, SettledOn, MovingTo, Intact;
    AcknowledgeEffect(p, s, t);
    var c := s.phase;
    PlanScript(p, c.h, c.q, c.plan);
    PlannedBranded(p, c.h, c.q, c.plan);
    MapOkMore(c.q.entries, c.q.appendOff, |View(s.disk)|);
    assert InvWith(p, t, w);
  }

  lemma PlannedBranded(p: Primitives, h: Header, q: Request, plan: Plan)
    requires Planned(p, h, q, plan)
    ensures Branded(plan.h)
  {
    hide PlanOf, Committable, Commit.Readable;
    PlanHeader(p, h, q);
  }

  lemma StepKeeps(p: Primitives, s: State, act: Action, t: State)
    requires Inv(p, s) && Step(p, s, act, t)
    ensures Inv(p, t)
  {
    hide InvWith, Step;
    var w :| InvWith(p, s, w);
    match act
    case Reopen(v) => ReopenStep(p, s, w, v, t);
    case RepairOp => RepairStep(p, s, w, t);
    case RepairRefused => RepairRefusedStep(p, s, w, t);
    case RepairSyncFails => RepairSyncFailsStep(p, s, w, t);
    case Begin => BeginStep(p, s, w, t);
    case Append(data) => AppendStep(p, s, w, data, t);
    case Edit(m, dead, churn) => EditStep(p, s, w, m, dead, churn, t);
    case Rollback => RollbackStep(p, s, w, t);
    case CommitStart(build, tj, tb) => StartStep(p, s, w, build, tj, tb, t);
    case CommitOp => CommitOpStep(p, s, w, t);
    case CommitFails => CommitFailsStep(p, s, w, t);
    case Acknowledge => AcknowledgeStep(p, s, w, t);
    case Close => CloseStep(p, s, w, t);
    case Crash(r) => CrashStep(p, s, w, r, t);
  }

  lemma {:induction false} RunKeeps(p: Primitives, states: seq<State>, acts: seq<Action>, n: nat)
    requires Run(p, states, acts) && Inv(p, states[0]) && n <= |acts|
    ensures Inv(p, states[n])
  {
    hide Inv, Step;
    if n != 0 {
      RunKeeps(p, states, acts, n - 1);
      StepKeeps(p, states[n - 1], acts[n - 1], states[n]);
    }
  }

  // ---------- crash atomicity ----------

  /** Whatever a crash leaves of the file in a state in which the invariant holds, Open yields one of two versions. */
  lemma CrashShows(p: Primitives, s: State, r: Bytes)
    requires Inv(p, s)
    ensures Disciplined(s.disk)
    ensures CrashImage(s.disk, r) ==>
              Shows(p, r, s.versions.base) || (s.versions.moving.Some? && Shows(p, r, s.versions.moving.value))
  {
    hide Shaped, PhaseOk, CrashImage, Shows, View;
    var w :| InvWith(p, s, w);
    if CrashImage(s.disk, r) {
      CrashKeeps(p, s.disk, Allowed(s), w, r);
      var v := ShapeShows(p, Disk(r, []), Allowed(s), w);
      ViewQuiet(Disk(r, []));
    }
  }

  /** Crash atomicity over whole runs.  From any state in which the invariant holds, as after Create, and after any
      steps: whatever a crash leaves of the file, Open succeeds on it, and yields the version the disk has settled on
      or, between the write and the sync of a primary slot, the one being published; with every chunk record intact. */
  lemma CrashAtomicity(p: Primitives, states: seq<State>, acts: seq<Action>, n: nat, r: Bytes)
    requires Run(p, states, acts) && Inv(p, states[0]) && n <= |acts|
    ensures Disciplined(states[n].disk)
    ensures CrashImage(states[n].disk, r) ==> var vs := states[n].versions;
              Shows(p, r, vs.base) || (vs.moving.Some? && Shows(p, r, vs.moving.value))
  {
    hide Inv, Step, CrashImage, Shows;
    RunKeeps(p, states, acts, n);
    CrashShows(p, states[n], r);
  }

  lemma ShapeShows(p: Primitives, d: Disk, allowed: set<Volume>, w: Shape) returns (v: Volume)
    requires Shaped(p, d, allowed, w)
    ensures Disciplined(d) && v in allowed && Shows(p, View(d), v)
  {
    hide Shaped, Yields, View, Shows;
    var h, repair, cur, u, w2 := ShapeOpens(p, d, allowed, w);
    YieldsShows(p, d, h, repair, cur, u, w2);
    v := u;
  }

  /** The version a commit under way will publish. */
  function Published(s: State): Volume
  {
    if s.phase.Committing? then s.phase.v else s.versions.base
  }

  /** A commit that has not yet written the primary slot cannot be seen: once its first sync has returned, and until
      that write, every crash and every failure leaves the version before. */
  lemma UnpublishedHidden(p: Primitives, s: State)
    requires Inv(p, s) && s.phase.Committing? && 3 <= s.phase.done <= 8
    ensures Allowed(s) == {s.versions.base}
  {
    hide Shaped, View, Planned, DeriveMap, MapOk, Branded, Names, HeaderBytes, Live, Torn;
    var w :| InvWith(p, s, w);
  }

  predicate NoCommit(acts: seq<Action>, n: nat, m: nat)
  {
    forall i :: n <= i < m <= |acts| ==> !acts[i].CommitStart?
  }

  /** Once only one version is left, the only step that can bring in another is the start of a commit; crashes and
      reopening, in any order and number, cannot. */
  lemma DefiniteStep(p: Primitives, s: State, act: Action, t: State, u: Volume)
    requires Step(p, s, act, t) && Allowed(s) == {u} && !s.phase.Committing? && !act.CommitStart?
    ensures Allowed(t) == {u} && !t.phase.Committing?
  {
    hide Step;
    if act.Reopen? {
      ReopenEffect(p, s, act.v, t);
    } else {
      OtherEffect(p, s, act, t);
    }
  }

  lemma OtherEffect(p: Primitives, s: State, act: Action, t: State)
    requires Step(p, s, act, t) && !s.phase.Committing? && !act.CommitStart? && !act.Reopen?
    ensures (t.versions == s.versions || t.versions == s.versions.Synced()) && !t.phase.Committing?
  {
    hide View, Materialize, PlanOf, Committable, CrashImage, RepairScript, MapOk, Apply;
  }

  lemma {:induction false} StaysDefinite(p: Primitives, states: seq<State>, acts: seq<Action>, n: nat, m: nat,
      u: Volume)
    requires Run(p, states, acts) && n <= m <= |acts| && NoCommit(acts, n, m)
    requires Allowed(states[n]) == {u} && !states[n].phase.Committing?
    ensures Allowed(states[m]) == {u} && !states[m].phase.Committing?
  {
    hide Step, Allowed;
    if n < m {
      StaysDefinite(p, states, acts, n, m - 1, u);
      DefiniteStep(p, states[m - 1], acts[m - 1], states[m], u);
    }
  }

  lemma DefiniteShows(p: Primitives, states: seq<State>, acts: seq<Action>, n: nat, m: nat, u: Volume, r: Bytes)
    requires Run(p, states, acts) && Inv(p, states[0]) && n <= m <= |acts| && NoCommit(acts, n, m)
    requires Allowed(states[n]) == {u} && !states[n].phase.Committing?
    ensures Disciplined(states[m].disk)
    ensures CrashImage(states[m].disk, r) ==> Shows(p, r, u)
  {
    hide Shows, CrashImage, Inv, Step;
    StaysDefinite(p, states, acts, n, m, u);
    OnlyAllowed(states[m], u);
    CrashAtomicity(p, states, acts, m, r);
  }

  lemma OnlyAllowed(s: State, u: Volume)
    requires Allowed(s) == {u}
    ensures s.versions.base == u && (s.versions.moving.Some? ==> s.versions.moving.value == u)
  {
    assert s.versions.base in Allowed(s);
    assert s.versions.moving.Some? ==> s.versions.moving.value in Allowed(s);
  }

  /** Once a commit has returned successfully, and until another one starts, every crash leaves exactly its version,
      however often the container has been closed, has crashed and has been reopened in between. */
  lemma AcknowledgedSurvives(p: Primitives, states: seq<State>, acts: seq<Action>, n: nat, m: nat, r: Bytes)
    requires Run(p, states, acts) && Inv(p, states[0]) && n < m <= |acts|
    requires acts[n] == Acknowledge && NoCommit(acts, n + 1, m)
    ensures Disciplined(states[m].disk)
    ensures CrashImage(states[m].disk, r) ==> Shows(p, r, Published(states[n]))
  {
    hide Shows, CrashImage, InvWith, Step, Allowed;
    RunKeeps(p, states, acts, n);
    var w :| InvWith(p, states[n], w);
    AcknowledgeEffect(p, states[n], states[n + 1]);
    AcknowledgeStep(p, states[n], w, states[n + 1]);
    DefiniteShows(p, states, acts, n + 1, m, Published(states[n]), r);
  }

  /** The version that an Open after a crash has shown is definite: until a commit starts, no later crash brings
      another one back, not even one that strikes while Open repairs the header slots. */
  lemma ShownSurvives(p: Primitives, states: seq<State>, acts: seq<Action>, n: nat, m: nat, r: Bytes)
    requires Run(p, states, acts) && Inv(p, states[0]) && n + 2 <= m <= |acts|
    requires acts[n].Crash? && acts[n + 1].Reopen? && NoCommit(acts, n + 2, m)
    ensures Disciplined(states[m].disk)
    ensures CrashImage(states[m].disk, r) ==> Shows(p, r, acts[n + 1].v)
  {
    hide Shows, CrashImage, Inv, Step;
    CrashEffect(p, states[n], acts[n].image, states[n + 1]);
    ReopenEffect(p, states[n + 1], acts[n + 1].v, states[n + 2]);
    DefiniteShows(p, states, acts, n + 2, m, acts[n + 1].v, r);
  }

  /** A shown version reads as it did when it was committed: every chunk that could be read then reads the same. */
  lemma ShownReads(p: Primitives, file: Bytes, v: Volume, k: Bytes, i: nat, verify: bool, maxChunk: u32)
    requires Shows(p, file, v) && k in v.entries && i < |v.entries[k].chunks|
    requires LoadRef(p, v.image, v.entries[k].chunks[i], verify, maxChunk).Ok?
    ensures LoadRef(p, file, v.entries[k].chunks[i], verify, maxChunk)
            == LoadRef(p, v.image, v.entries[k].chunks[i], verify, maxChunk)
  {
    hide OpenImage, Materialize, LoadRef;
    var c := v.entries[k].chunks[i];
    assert RecordOf(file, c) == RecordOf(v.image, c);
    assert SameRecord(v.image, file, c);
    LoadRefStable(p, v.image, file, c, verify, maxChunk);
  }

  // ---------- the primary slot ----------

  lemma AppendLoads(p: Primitives, s: State, data: Bytes, t: State)
    requires Inv(p, s) && Step(p, s, Append(data), t) && Disciplined(s.disk) && PrimaryLoads(p, View(s.disk))
    ensures Disciplined(t.disk) && PrimaryLoads(p, View(t.disk))
  {
    hide Holds, View, Live, Torn, MapOk, Branded, Primary, Grows;
    var w :| InvWith(p, s, w);
    StartLive(p, s, w);
    AppendView(s.disk, s.phase.appendOff, data);
    HoldsAppend(p, s.disk, s.versions, w, s.phase.appendOff, data);
    LiveLoads(p, t.disk, s.versions, w);
  }

  lemma LiveLoads(p: Primitives, d: Disk, vs: Versions, w: Shape)
    requires Holds(p, d, vs, w) && Live(d, w)
    ensures Disciplined(d) && PrimaryLoads(p, View(d))
  {
    hide Shaped, View, Live, Torn, Primary;
    PrimaryLoadsIff(p, d, vs.All(), w);
  }

  /** While a commit is under way the primary slot loads. */
  lemma CommittingLoads(p: Primitives, s: State)
    requires Inv(p, s) && s.phase.Committing?
    ensures Disciplined(s.disk) && PrimaryLoads(p, View(s.disk))
  {
    hide Holds, View, Planned, DeriveMap, MapOk, Branded, Primary, Names, Intact, HeaderBytes, At;
    var w :| InvWith(p, s, w);
    assert Live(s.disk, w);
    LiveLoads(p, s.disk, s.versions, w);
  }

  /** The primary slot loads wherever a transaction can begin or be open.  It says nothing of a closed container with
      nothing unsynced, nor of a repair that has yet to write the slot. */
  ghost predicate Loading(p: Primitives, s: State)
    requires Disciplined(s.disk)
  {
    match s.phase
    case Down => s.disk.pending != [] ==> PrimaryLoads(p, View(s.disk))
    case Repairing(_, _, done) => done > 0 ==> PrimaryLoads(p, View(s.disk))
    case Committing(_, _, _, _, _, _) => true
    case _ => PrimaryLoads(p, View(s.disk))
  }

  lemma ReopenLoads(p: Primitives, s: State, v: Volume, t: State)
    requires Inv(p, s) && Step(p, s, Reopen(v), t)
    ensures Disciplined(t.disk) && Loading(p, t)
  {
    hide Shaped, View, Live, Torn, PrimaryLoads, OpenImage, Step, Shows, PhaseOk, Names, Stamped, EssenceOf;
    ReopenEffect(p, s, v, t);
    var w :| InvWith(p, s, w);
    var h, repair, cur, u, w2 := ShapeOpens(p, s.disk, s.versions.All(), w);
    if !repair { LiveShapeLoads(p, s.disk, s.versions.All(), w2); }
  }

  lemma LiveShapeLoads(p: Primitives, d: Disk, allowed: set<Volume>, w: Shape)
    requires Shaped(p, d, allowed, w) && Live(d, w)
    ensures Disciplined(d) && PrimaryLoads(p, View(d))
  {
    hide Shaped, View, Live, Torn, Primary;
    PrimaryLoadsIff(p, d, allowed, w);
  }

  lemma LoadsLive(p: Primitives, d: Disk, vs: Versions, w: Shape)
    requires Holds(p, d, vs, w) && Ready(d, w) && Disciplined(d) && PrimaryLoads(p, View(d))
    ensures Live(d, w)
  {
    hide Shaped, View, Live, Torn, Primary;
    PrimaryLoadsIff(p, d, vs.All(), w);
  }

  lemma RepairLoads(p: Primitives, s: State, t: State)
    requires Inv(p, s) && Step(p, s, RepairOp, t) && Disciplined(s.disk) && Loading(p, s)
    ensures Disciplined(t.disk) && Loading(p, t)
  {
    hide Holds, View, HeaderBytes, Live, Torn, RepairScript, Serves, Step, PrimaryLoads;
    RepairEffect(p, s, t);
    var w :| InvWith(p, s, w);
    var h, n := s.phase.h, s.phase.done;
    RepairLength(h);
    if n > 0 { LoadsLive(p, s.disk, s.versions, w); }
    if RepairScript(h)[n].Sync? {
      HoldsSync(p, s.disk, s.versions, w);
      SettledLive(t.disk, Resolved(w));
      LiveLoads(p, t.disk, s.versions.Synced(), Resolved(w));
    } else {
      RepairStaysLive(p, s.disk, s.versions, w, if n == 0 then 0 else SLOT);
      LiveLoads(p, t.disk, s.versions, w);
    }
  }

  lemma RepairStaysLive(p: Primitives, d: Disk, vs: Versions, w: Shape, slot: nat)
    requires Holds(p, d, vs, w) && w.Moving? && slot in {0, SLOT} && (slot == 0 || Live(d, w))
    ensures Disciplined(d) && var next := Apply(d, WriteAt(slot, HeaderBytes(w.b.h)));
              Holds(p, next, vs, w) && Live(next, w)
  {
    hide Shaped, HeaderBytes, Live, Torn;
    ShapedDisciplined(p, d, vs.All(), w);
    RepairKeeps(p, d, vs.All(), w, slot);
  }

  lemma SameLoads(p: Primitives, s: State, act: Action, t: State)
    requires Step(p, s, act, t) && Disciplined(s.disk) && Loading(p, s)
    requires !act.Reopen? && !act.RepairOp? && !act.RepairRefused? && !act.Append?
    requires !act.CommitOp? && !act.CommitFails? && !act.Acknowledge? && !act.Crash?
    ensures t.disk == s.disk && Loading(p, t)
  {
    hide View, Materialize, PlanOf, Committable, MapOk, PrimaryLoads, RepairScript;
    if act.RepairSyncFails? { RepairLength(s.phase.h); }
  }

  /** Unless a write of the repair is refused, the primary slot loads whenever a commit may start: what a commit asks
      for is then always given. */
  lemma LoadingStep(p: Primitives, s: State, act: Action, t: State)
    requires Inv(p, s) && Step(p, s, act, t) && Disciplined(s.disk) && Loading(p, s) && !act.RepairRefused?
    ensures Disciplined(t.disk) && Loading(p, t)
  {
    hide Inv, Step, View, PrimaryLoads, CrashImage;
    match act
    case Reopen(v) => ReopenLoads(p, s, v, t);
    case RepairOp => RepairLoads(p, s, t);
    case Append(data) =>
      AppendInTx(p, s, data, t);
      AppendLoads(p, s, data, t);
    case CommitOp =>
      CommitOpEffect(p, s, t);
      StepKeeps(p, s, act, t);
      CommittingLoads(p, t);
    case CommitFails =>
      CommitEnds(p, s, act, t);
      CommittingLoads(p, s);
    case Acknowledge =>
      CommitEnds(p, s, act, t);
      CommittingLoads(p, s);
    case Crash(r) =>
      StepKeeps(p, s, act, t);
      CrashEffect(p, s, r, t);
      CrashedDisciplined(p, t);
    case _ => SameLoads(p, s, act, t);
  }

  lemma AppendInTx(p: Primitives, s: State, data: Bytes, t: State)
    requires Step(p, s, Append(data), t)
    ensures s.phase.InTx? && t.phase.InTx?
  {
    hide View;
  }

  lemma CommitEnds(p: Primitives, s: State, act: Action, t: State)
    requires Step(p, s, act, t) && (act.CommitFails? || act.Acknowledge?)
    ensures s.phase.Committing? && t.phase.Idle? && t.disk == s.disk
  {
    hide View;
  }

  lemma CrashedDisciplined(p: Primitives, t: State)
    requires Inv(p, t)
    ensures Disciplined(t.disk)
  {
    hide Holds, PhaseOk;
  }

  predicate NothingRefused(acts: seq<Action>, n: nat)
  {
    n <= |acts| && forall i :: 0 <= i < n ==> !acts[i].RepairRefused?
  }

  lemma {:induction false} RunLoads(p: Primitives, states: seq<State>, acts: seq<Action>, n: nat)
    requires Run(p, states, acts) && Inv(p, states[0]) && NothingRefused(acts, n)
    requires Disciplined(states[0].disk) && Loading(p, states[0])
    ensures Disciplined(states[n].disk) && Loading(p, states[n])
  {
    hide Inv, Step, Loading;
    if n != 0 {
      RunLoads(p, states, acts, n - 1);
      RunKeeps(p, states, acts, n - 1);
      LoadingStep(p, states[n - 1], acts[n - 1], states[n]);
    }
  }

  // ---------- nothing is shut out ----------

  /** Within a run, a commit can be refused only for the file's size or for the limits of the reader. */
  lemma CommitNeedsOnlyLimits(p: Primitives, s: State, build: u64, tj: u64, tb: u64)
    requires Inv(p, s) && s.phase.InTx?
    ensures var q := RequestOf(s.phase, build, tj, tb);
            Committable(p, s.phase.h, q) <==> q.appendOff + |DirOf(p, q)| < MAX_OFFSET
  {
    hide Shaped, View, Live, Torn, Branded, AllEncodable, DirOf, EncodedEntries, DeriveMap;
    var w :| InvWith(p, s, w);
    ViewLength(s.disk);
    var q := RequestOf(s.phase, build, tj, tb);
    EncodedRefs(p, q.entries, q.appendOff);
  }

  /** A closed or crashed container can always be reopened; an idle one can always begin a transaction. */
  lemma NeverStuck(p: Primitives, s: State)
    requires Inv(p, s)
    ensures s.phase.Down? ==> exists v :: Enabled(p, s, Reopen(v))
    ensures s.phase.Idle? ==> Enabled(p, s, Begin)
  {
    hide Shaped, View, Live, Torn, Shows, Serves, Materialize;
    var w :| InvWith(p, s, w);
    if s.phase.Down? {
      var v := ShapeShows(p, s.disk, Allowed(s), w);
      assert Enabled(p, s, Reopen(v));
    } else if s.phase.Idle? {
      MaterializedOk(p, s.disk, s.phase.h, s.phase.snap);
    }
  }
}

/** The transaction objects are runs of the state machine: every operation, whether or not it succeeds, and every commit,
    however far it gets, is a sequence of the machine's steps, on a disk that reads and crashes alike. */
module Simulation {
  import opened Binary
  import opened Common
  import opened Directory
  import opened Catalog
  import opened Header
  import opened Snapshot
  import opened Disk
  import opened Commit
  import opened Open
  import opened Slots
  import opened Create
  import opened Runs
  import opened ChunkWriter
  import opened WriteRead
  import opened Transaction
  import opened Accounting
  import opened Isolation

  // ---------- disks ----------

  /** Two disks that read alike and can crash alike: what is unsynced behind the durable end may be cut up differently. */
  ghost predicate Alike(d: Disk, e: Disk)
  {
    && Disciplined(d) && Disciplined(e) && d.durable == e.durable && View(d) == View(e)
    && SlotCandidates(d, 0) == SlotCandidates(e, 0) && SlotCandidates(d, SLOT) == SlotCandidates(e, SLOT)
  }

  /** Disks that are alike have the same crash images. */
  lemma AlikeCrash(d: Disk, e: Disk, r: Bytes)
    requires Alike(d, e)
    ensures CrashImage(d, r) <==> CrashImage(e, r)
  {
    hide SlotCandidates, TornSlot, View;
  }

  lemma CandidatesAfter(d: Disk, op: FileOp, s: nat)
    requires Disciplined(d) && op.WriteAt? && Disciplined(Apply(d, op)) && s in {0, SLOT}
    ensures SlotCandidates(Apply(d, op), s) == SlotCandidates(d, s) + if op.off == s then {op.data} else {}
  {
    var e := Apply(d, op);
    forall x
      ensures x in SlotCandidates(e, s) <==> x in SlotCandidates(d, s) || (op.off == s && x == op.data)
    {
      if x in SlotCandidates(d, s) && x != d.durable[s..s + SLOT] {
        var i :| 0 <= i < |d.pending| && d.pending[i].off == s && d.pending[i].data == x;
        assert e.pending[i] == d.pending[i];
      }
      if op.off == s && x == op.data { assert e.pending[|d.pending|] == op; }
    }
  }

  lemma ApplyDisciplined(d: Disk, op: FileOp)
    requires Disciplined(d) && (op.Sync? || SlotWrite(op) || |d.durable| <= op.off)
    ensures Disciplined(Apply(d, op))
  {
    hide View;
    if op.Sync? { ViewLength(d); }
  }

  lemma ViewOverwrites(d: Disk, op: FileOp)
    requires AllWrites(d.pending) && op.WriteAt?
    ensures View(Apply(d, op)) == Overwrite(View(d), op.off, op.data)
  {
    hide Overwrite;
    assert (d.pending + [op])[..|d.pending|] == d.pending;
  }

  /** The same operation keeps them alike. */
  lemma AlikeApply(d: Disk, e: Disk, op: FileOp)
    requires Alike(d, e) && (op.Sync? || SlotWrite(op) || |d.durable| <= op.off)
    ensures Alike(Apply(d, op), Apply(e, op))
  {
    hide SlotCandidates, View, Overwrite;
    ApplyDisciplined(d, op);
    ApplyDisciplined(e, op);
    if op.Sync? {
      assert Apply(d, op) == Apply(e, op);
    } else {
      ViewOverwrites(d, op);
      ViewOverwrites(e, op);
      CandidatesAfter(d, op, 0);
      CandidatesAfter(e, op, 0);
      CandidatesAfter(d, op, SLOT);
      CandidatesAfter(e, op, SLOT);
    }
  }

  lemma AppendedDisciplined(e: Disk, f: Disk, off: nat)
    requires Disciplined(e) && AllWrites(f.pending) && AppendsOnly(e, f, off) && |e.durable| <= off
    ensures Disciplined(f) && SlotCandidates(f, 0) == SlotCandidates(e, 0) && SlotCandidates(f, SLOT) == SlotCandidates(e, SLOT)
  {
    forall i | 0 <= i < |f.pending|
      ensures SlotWrite(f.pending[i]) || |f.durable| <= f.pending[i].off
      ensures f.pending[i].off < 2 * SLOT ==> i < |e.pending| && e.pending[i] == f.pending[i]
    {
      if i < |e.pending| { assert e.pending[i] == f.pending[i]; }
    }
    AppendedCandidates(e, f, 0);
    AppendedCandidates(e, f, SLOT);
  }

  lemma AppendedCandidates(e: Disk, f: Disk, s: nat)
    requires Disciplined(e) && Disciplined(f) && e.durable == f.durable && e.pending <= f.pending && s in {0, SLOT}
    requires forall i :: 0 <= i < |f.pending| && f.pending[i].off < 2 * SLOT ==> i < |e.pending| && e.pending[i] == f.pending[i]
    ensures SlotCandidates(f, s) == SlotCandidates(e, s)
  {
    forall x
      ensures x in SlotCandidates(f, s) <==> x in SlotCandidates(e, s)
    {
      if i :| 0 <= i < |e.pending| && e.pending[i].off == s && e.pending[i].data == x {
        assert f.pending[i] == e.pending[i];
      }
    }
  }

  /** Records appended one by one leave the disk like one append of them all. */
  lemma AlikeAppended(d: Disk, e: Disk, f: Disk, log: Bytes)
    requires Alike(d, e) && AllWrites(f.pending) && Reached(e, f, |View(e)|, log)
    ensures Alike(if log == [] then d else Apply(d, WriteAt(|View(d)|, log)), f)
  {
    hide View, SlotCandidates;
    ViewLength(e);
    AppendedDisciplined(e, f, |View(e)|);
    if log == [] {
      assert View(e) + log == View(e);
    } else {
      var op := WriteAt(|View(d)|, log);
      ApplyDisciplined(d, op);
      AppendExtendsView(d, log);
      CandidatesAfter(d, op, 0);
      CandidatesAfter(d, op, SLOT);
    }
  }

  // ---------- maps ----------

  /** What the length fields of an entry can hold. */
  predicate CallFits(c: Call)
  {
    match c
    case AddCall(path, _, meta, a) => Fits(path, meta, a)
    case UpsertCall(path, _, meta, a) => Fits(path, meta, a)
    case ReplaceCall(path, _, meta, a) => Fits(path, meta, a)
    case SetMetaCall(_, meta) => |meta| < U32
    case _ => true
  }

  lemma MapOkPart(m: Paths, n: Paths, size: nat)
    requires MapOk(n, size) && forall k :: k in m ==> k in n && m[k] == n[k]
    ensures MapOk(m, size)
  {
    hide Encodable;
  }

  lemma {:induction false} ListedPart(t: TxState, paths: seq<Bytes>, n: nat)
    requires n <= |paths|
    ensures var u := RemoveListed(t, paths, n).0;
            && u.off == t.off && u.closed == t.closed && forall k :: k in u.entries ==> k in t.entries && u.entries[k] == t.entries[k]
  {
    hide EntryStored, SaturatingAdd;
    if n != 0 { ListedPart(t, paths, n - 1); }
  }

  /** Every operation, successful or not, keeps the map one that can be committed, and moves the end of the file by what
      it has appended. */
  lemma CallKeepsMap(p: Primitives, refuse: Refuse, t: TxState, c: Call)
    requires p.InversePair() && CallFits(c) && 2 * SLOT <= t.off && MapOk(t.entries, t.off)
    requires FewChunks(Perform(p, refuse, t, c).t.entries)
    ensures var r := Perform(p, refuse, t, c);
            MapOk(r.t.entries, r.t.off) && r.t.off == t.off + |r.log| && r.t.closed == t.closed
  {
    hide MapOk, PutEntry, EntryStored, SaturatingAdd, RemoveListed, Restrict, Selection, TotalStored;
    match c
    case AddCall(path, src, meta, a) =>
      if !t.closed && path !in t.entries { PutKeepsMap(p, t, path, src, meta, a, refuse); }
    case UpsertCall(path, src, meta, a) =>
      if !t.closed {
        PutKeepsMap(p, if path in t.entries then Obsolete(t, t.entries[path]) else t, path, src, meta, a, refuse);
      }
    case ReplaceCall(path, src, meta, a) =>
      if !t.closed && path in t.entries { PutKeepsMap(p, Obsolete(t, t.entries[path]), path, src, meta, a, refuse); }
    case RemoveCall(path) => RemoveKeepsMap(t, path, []);
    case RemoveManyCall(paths) =>
      ListedPart(t, paths, |paths|);
      MapOkPart(RemoveListed(t, paths, |paths|).0.entries, t.entries, t.off);
    case RemoveWhereCall(select) => MapOkPart(t.entries - Selection(select, t.entries), t.entries, t.off);
    case SetMetaCall(path, meta) => RemoveKeepsMap(t, path, meta);
  }

  // ---------- operations ----------

  /** What a container holds in memory between transactions, its map loaded. */
  datatype Memory = Memory(h: Header, entries: Paths)

  /** The machine is idle with this memory, and its file is on the disk d, with a primary slot that loads. */
  ghost predicate ContainerAt(p: Primitives, s: State, c: Memory, d: Disk)
  {
    s.phase == Idle(c.h, Eager(c.entries)) && Alike(s.disk, d) && PrimaryLoads(p, View(d))
  }

  /** The machine is inside the transaction t of that container. */
  ghost predicate TxAt(p: Primitives, s: State, c: Memory, t: TxState, d: Disk)
  {
    && !t.closed && s.phase == InTx(c.h, c.entries, t.entries, t.off, t.dead, t.churn)
    && Alike(s.disk, d) && PrimaryLoads(p, View(d))
  }

  /** The state of a transaction object right after Begin. */
  function Begun(c: Memory, d: Disk): TxState
    requires AllWrites(d.pending)
  {
    TxState(c.entries, |View(d)|, 0, 0, false)
  }

  /** The container that Create returns. */
  lemma CreatedMatches(p: Primitives, b: Birth)
    requires p.crc(FirstBlobs(p, b).1) != 0
    ensures var s := Created(p, b);
            && s.phase.Idle? && Inv(p, s) && ContainerAt(p, s, Memory(s.phase.h, map[]), s.disk)
  {
    hide Holds, PhaseOk, PrimaryLoads, View, SlotCandidates, Created, FirstBlobs, Live;
    var w := CreatedShape(p, b);
    var s := Created(p, b);
    SettledLive(s.disk, w);
    LiveLoads(p, s.disk, s.versions, w);
  }

  /** Begin leaves machine and object in the same state. */
  lemma BeginMatches(p: Primitives, s: State, c: Memory, d: Disk) returns (next: State)
    requires Inv(p, s) && ContainerAt(p, s, c, d)
    ensures Step(p, s, Begin, next) && AllWrites(d.pending) && TxAt(p, next, c, Begun(c, d), d)
  {
    hide View, SlotCandidates, InvWith, PrimaryLoads;
    InvDisciplined(p, s);
    next := Do(p, s, Begin);
  }

  /** The machine's steps for an operation: one append of all it has written, and the new map and counters. */
  function StepsOf(r: OpResult): seq<Action>
  {
    (if r.log == [] then [] else [Append(r.log)]) + [Edit(r.t.entries, r.t.dead, r.t.churn)]
  }

  lemma AppendMatches(p: Primitives, s: State, c: Memory, t: TxState, d: Disk, f: Disk, log: Bytes) returns (mid: State)
    requires Inv(p, s) && TxAt(p, s, c, t, d) && AllWrites(f.pending) && Reached(d, f, t.off, log)
    ensures if log == [] then mid == s else Step(p, s, Append(log), mid)
    ensures TxAt(p, mid, c, t.(off := t.off + |log|), f) && mid.versions == s.versions
  {
    hide InvWith, View, SlotCandidates, Reached, PrimaryLoads;
    AppendsAt(p, s);
    AlikeAppended(s.disk, d, f, log);
    mid := if log == [] then s else Do(p, s, Append(log));
    if log != [] { AppendLoads(p, s, log, mid); }
  }

  lemma EditMatches(p: Primitives, s: State, c: Memory, was: TxState, t: TxState, f: Disk) returns (end: State)
    requires TxAt(p, s, c, was, f) && was.off == t.off && MapOk(t.entries, t.off) && !t.closed
    ensures Step(p, s, Edit(t.entries, t.dead, t.churn), end) && TxAt(p, end, c, t, f) && end.versions == s.versions
  {
    hide View, SlotCandidates, MapOk, PrimaryLoads;
    end := Do(p, s, Edit(t.entries, t.dead, t.churn));
  }

  lemma InTxMap(p: Primitives, s: State)
    requires Inv(p, s) && s.phase.InTx?
    ensures MapOk(s.phase.entries, s.phase.appendOff) && 2 * SLOT <= s.phase.appendOff
  {
    hide Holds, View, Live, Torn, MapOk, Branded, PrimaryLoads;
    var w :| InvWith(p, s, w);
    ViewLength(s.disk);
  }

  /** An operation that can be carried out on t, and leaves the file on the disk f. */
  ghost predicate Carried(p: Primitives, refuse: Refuse, t: TxState, d: Disk, c: Call, f: Disk)
  {
    && CallFits(c) && FewChunks(Perform(p, refuse, t, c).t.entries)
    && AllWrites(d.pending) && AllWrites(f.pending) && Reached(d, f, t.off, Perform(p, refuse, t, c).log)
  }

  /** Every operation on a transaction, with or without an error, is a run of the machine from the matching state to the
      matching state. */
  lemma OperationIsSteps(p: Primitives, refuse: Refuse, s: State, m: Memory, t: TxState, d: Disk, c: Call, f: Disk)
    returns (states: seq<State>)
    requires p.InversePair() && Inv(p, s) && TxAt(p, s, m, t, d) && Carried(p, refuse, t, d, c, f)
    ensures var r := Perform(p, refuse, t, c);
            && Runs.Run(p, states, StepsOf(r)) && states[0] == s
            && TxAt(p, states[|states| - 1], m, r.t, f) && states[|states| - 1].versions == s.versions
  {
    hide InvWith, View, SlotCandidates, MapOk, Reached, Perform, Step, Alike, PrimaryLoads;
    var r := Perform(p, refuse, t, c);
    InTxMap(p, s);
    CallKeepsMap(p, refuse, t, c);
    var mid := AppendMatches(p, s, m, t, d, f, r.log);
    var end := EditMatches(p, mid, m, t.(off := t.off + |r.log|), r.t, f);
    states := if r.log == [] then [s, end] else [s, mid, end];
  }

  // ---------- commits ----------

  function RequestFor(t: TxState, build: u64, tj: u64, tb: u64): Request
  {
    Request(t.entries, t.off, t.dead, t.churn, build, tj, tb)
  }

  /** The request has a plan, and the plan is within the limits of the reader. */
  ghost predicate Publishable(p: Primitives, h: Header, q: Request)
  {
    && Plannable(p, h, q)
    && Commit.Readable(p, PlanOf(p, h, q).value.dirBlob, PlanOf(p, h, q).value.idxBlob)
  }

  predicate CommitActs(acts: seq<Action>, start: Action, n: nat)
  {
    |acts| == n + 1 && start.CommitStart? && acts[0] == start && forall i :: 1 <= i <= n ==> acts[i] == CommitOp
  }

  /** The machine has performed n operations of the commit of q. */
  ghost predicate CommitAt(p: Primitives, s: State, c: Memory, q: Request, n: nat, d: Disk)
  {
    && Publishable(p, c.h, q) && s.phase.Committing? && s.phase.h == c.h && s.phase.base == c.entries && s.phase.q == q
    && s.phase.plan == PlanOf(p, c.h, q).value && s.phase.done == n && Alike(s.disk, d)
  }

  lemma StartMatches(p: Primitives, s: State, c: Memory, t: TxState, d: Disk, build: u64, tj: u64, tb: u64)
    returns (next: State)
    requires Inv(p, s) && TxAt(p, s, c, t, d) && Publishable(p, c.h, RequestFor(t, build, tj, tb))
    ensures Step(p, s, CommitStart(build, tj, tb), next) && CommitAt(p, next, c, RequestFor(t, build, tj, tb), 0, d)
  {
    hide View, SlotCandidates, PlanOf, Committable, Commit.Readable, InvWith, PrimaryLoads;
    next := Do(p, s, CommitStart(build, tj, tb));
  }

  lemma OpMatches(p: Primitives, s: State, c: Memory, q: Request, n: nat, d: Disk) returns (next: State)
    requires Inv(p, s) && CommitAt(p, s, c, q, n, d) && n < |s.phase.plan.script|
    ensures Step(p, s, CommitOp, next)
    ensures AllWrites(d.pending) && CommitAt(p, next, c, q, n + 1, Apply(d, PlanOf(p, c.h, q).value.script[n]))
  {
    hide View, SlotCandidates, InvWith, Apply, PlanOf, Publishable, PrimaryLoads;
    next := Do(p, s, CommitOp);
    hide Step, Do;
    NextOpDisciplined(p, s, next);
    CommitOpEffect(p, s, next);
    AlikeApply(s.disk, d, s.phase.plan.script[s.phase.done]);
  }

  lemma NextOpDisciplined(p: Primitives, s: State, t: State)
    requires Inv(p, s) && Step(p, s, CommitOp, t)
    ensures s.phase.Committing? && s.phase.done < |s.phase.plan.script| && Disciplined(s.disk)
    ensures t.disk == Apply(s.disk, s.phase.plan.script[s.phase.done])
    ensures var op := s.phase.plan.script[s.phase.done]; op.Sync? || SlotWrite(op) || |s.disk.durable| <= op.off
  {
    hide Holds, View, Planned, Progress, DeriveMap, MapOk, Branded, Step, PrimaryLoads;
    CommitOpEffect(p, s, t);
    StepKeeps(p, s, CommitOp, t);
    InvDisciplined(p, t);
    var w :| InvWith(p, s, w);
    var c := s.phase;
    PlannedOffset(p, c.h, c.q, c.plan);
    CommitOpGrows(p, c.h, s.disk, s.versions, w, c.q, c.plan, c.v, c.done);
    ViewLength(s.disk);
  }

  /** However far a commit gets, what it has done is a run of the machine: the start of the commit and one step for each
      operation performed. */
  lemma {:induction false} CommitIsSteps(p: Primitives, s: State, c: Memory, t: TxState, d: Disk, f: Disk, build: u64,
      tj: u64, tb: u64, n: nat) returns (states: seq<State>, acts: seq<Action>)
    requires Inv(p, s) && TxAt(p, s, c, t, d) && Publishable(p, c.h, RequestFor(t, build, tj, tb))
    requires Performed(d, f, PlanOf(p, c.h, RequestFor(t, build, tj, tb)).value.script, n)
    ensures CommitActs(acts, CommitStart(build, tj, tb), n) && Runs.Run(p, states, acts) && states[0] == s
    ensures Inv(p, states[n + 1]) && CommitAt(p, states[n + 1], c, RequestFor(t, build, tj, tb), n, f)
    decreases n
  {
    hide View, SlotCandidates, PlanOf, Committable, Commit.Readable, InvWith, Step, Alike, RequestFor, PrimaryLoads;
    var q := RequestFor(t, build, tj, tb);
    var plan := PlanOf(p, c.h, q).value;
    if n == 0 {
      var next := StartMatches(p, s, c, t, d, build, tj, tb);
      StepKeeps(p, s, CommitStart(build, tj, tb), next);
      states, acts := [s, next], [CommitStart(build, tj, tb)];
      NothingPerformed(d, f, plan.script);
    } else {
      var g := PerformedBefore(d, f, plan.script, n);
      states, acts := CommitIsSteps(p, s, c, t, d, g, build, tj, tb, n - 1);
      var next := OpMatches(p, states[n], c, q, n - 1, g);
      StepKeeps(p, states[n], CommitOp, next);
      RunMore(p, states, acts, CommitOp, next);
      states, acts := states + [next], acts + [CommitOp];
    }
  }

  /** A commit that has run through ends in the container with the new header and map, any other in the one before. */
  lemma EndMatches(p: Primitives, s: State, c: Memory, q: Request, n: nat, d: Disk) returns (act: Action, next: State)
    requires Inv(p, s) && CommitAt(p, s, c, q, n, d) && n <= |s.phase.plan.script|
    ensures act == (if n == |s.phase.plan.script| then Acknowledge else CommitFails) && Step(p, s, act, next)
    ensures ContainerAt(p, next, CommittedMemory(p, c, q, n), d)
  {
    hide View, SlotCandidates, InvWith, PlanOf, Publishable, PrimaryLoads;
    InvDisciplined(p, s);
    CommittingLoads(p, s);
    act := if n == |s.phase.plan.script| then Acknowledge else CommitFails;
    next := Do(p, s, act);
  }

  ghost function CommittedMemory(p: Primitives, c: Memory, q: Request, n: nat): Memory
    requires Publishable(p, c.h, q)
  {
    if n == |PlanOf(p, c.h, q).value.script| then Memory(PlanOf(p, c.h, q).value.h, q.entries) else c
  }

  lemma RunMore(p: Primitives, states: seq<State>, acts: seq<Action>, act: Action, next: State)
    requires Runs.Run(p, states, acts) && Step(p, states[|acts|], act, next)
    ensures Runs.Run(p, states + [next], acts + [act])
  {
    hide Step;
  }

  lemma NothingPerformed(d: Disk, f: Disk, script: seq<FileOp>)
    requires Performed(d, f, script, 0)
    ensures f == d
  {
    assert script[..0] == [];
  }

  lemma PerformedBefore(d: Disk, f: Disk, script: seq<FileOp>, n: nat) returns (g: Disk)
    requires n > 0 && Performed(d, f, script, n)
    ensures Performed(d, g, script, n - 1) && AllWrites(g.pending) && f == Apply(g, script[n - 1])
  {
    hide Apply;
    g := ApplyAll(d, script[..n - 1]);
    ApplyAllSnoc(d, script, n - 1);
  }

  // ---------- whole transactions, and any number of them ----------

  /** An operation as it was carried out: the call, the writes that would have been refused, and the disk afterwards. */
  datatype Done = Done(c: Call, refuse: Refuse, after: Disk)

  datatype Ending = RolledBack | CommitEnded(build: u64, tj: u64, tb: u64, n: nat, after: Disk)

  /** One transaction on the objects: its operations, and how it ended, after how many operations of its commit. */
  datatype TxTrace = TxTrace(calls: seq<Done>, ending: Ending)

  ghost function TxAfter(p: Primitives, t: TxState, ds: seq<Done>, n: nat): TxState
    requires n <= |ds|
  {
    if n == 0 then t else Perform(p, ds[n - 1].refuse, TxAfter(p, t, ds, n - 1), ds[n - 1].c).t
  }

  function DiskAfter(d: Disk, ds: seq<Done>, n: nat): Disk
    requires n <= |ds|
  {
    if n == 0 then d else ds[n - 1].after
  }

  ghost predicate AllCarried(p: Primitives, t: TxState, d: Disk, ds: seq<Done>)
  {
    forall i :: 0 <= i < |ds| ==>
      Carried(p, ds[i].refuse, TxAfter(p, t, ds, i), DiskAfter(d, ds, i), ds[i].c, ds[i].after)
  }

  /** What the contracts of Begin, of the operations, and of Commit and Rollback say of a whole transaction that starts
      from memory c and disk d: it ends with memory c2 and disk d2. */
  ghost predicate Transacted(p: Primitives, c: Memory, d: Disk, x: TxTrace, c2: Memory, d2: Disk)
  {
    && AllWrites(d.pending) && AllCarried(p, Begun(c, d), d, x.calls)
    && var u, e := TxAfter(p, Begun(c, d), x.calls, |x.calls|), DiskAfter(d, x.calls, |x.calls|);
       match x.ending
       case RolledBack => c2 == c && d2 == e
       case CommitEnded(build, tj, tb, n, after) =>
         var q := RequestFor(u, build, tj, tb);
         && Publishable(p, c.h, q) && Performed(e, after, PlanOf(p, c.h, q).value.script, n)
         && c2 == CommittedMemory(p, c, q, n) && d2 == after
  }

  lemma JoinRuns(p: Primitives, a: seq<State>, x: seq<Action>, b: seq<State>, y: seq<Action>)
    requires Runs.Run(p, a, x) && Runs.Run(p, b, y) && a[|x|] == b[0]
    ensures Runs.Run(p, a + b[1..], x + y) && (a + b[1..])[0] == a[0] && (a + b[1..])[|x| + |y|] == b[|y|]
  {
    hide Step;
    var s, z := a + b[1..], x + y;
    forall i | 0 <= i < |z|
      ensures Step(p, s[i], z[i], s[i + 1])
    {
      if i >= |x| { assert Step(p, b[i - |x|], y[i - |x|], b[i - |x| + 1]); }
    }
  }

  lemma {:induction false} CallsAreSteps(p: Primitives, s: State, c: Memory, t: TxState, d: Disk, ds: seq<Done>, n: nat)
    returns (states: seq<State>, acts: seq<Action>)
    requires p.InversePair() && Inv(p, s) && TxAt(p, s, c, t, d) && AllCarried(p, t, d, ds) && n <= |ds|
    ensures Runs.Run(p, states, acts) && states[0] == s
    ensures Inv(p, states[|acts|]) && TxAt(p, states[|acts|], c, TxAfter(p, t, ds, n), DiskAfter(d, ds, n))
    decreases n
  {
    hide InvWith, Step, TxAt, Carried, Perform, PrimaryLoads;
    if n == 0 {
      states, acts := [s], [];
    } else {
      states, acts := CallsAreSteps(p, s, c, t, d, ds, n - 1);
      var mid, u, done := states[|acts|], TxAfter(p, t, ds, n - 1), ds[n - 1];
      var more := OperationIsSteps(p, done.refuse, mid, c, u, DiskAfter(d, ds, n - 1), done.c, done.after);
      var steps := StepsOf(Perform(p, done.refuse, u, done.c));
      JoinRuns(p, states, acts, more, steps);
      RunKeeps(p, more, steps, |steps|);
      states, acts := states + more[1..], acts + steps;
    }
  }

  lemma EndingIsSteps(p: Primitives, s: State, c: Memory, u: TxState, e: Disk, ending: Ending)
    returns (states: seq<State>, acts: seq<Action>, c2: Memory)
    requires Inv(p, s) && TxAt(p, s, c, u, e) && ending.CommitEnded?
    requires var q := RequestFor(u, ending.build, ending.tj, ending.tb);
             Publishable(p, c.h, q) && Performed(e, ending.after, PlanOf(p, c.h, q).value.script, ending.n)
    ensures Runs.Run(p, states, acts) && states[0] == s && Inv(p, states[|acts|])
    ensures c2 == CommittedMemory(p, c, RequestFor(u, ending.build, ending.tj, ending.tb), ending.n)
    ensures ContainerAt(p, states[|acts|], c2, ending.after)
    ensures |acts| == ending.n + 2 && OnlyCommitOps(acts, 1, ending.n + 1) && acts[0].CommitStart?
    ensures ending.n == |PlanOf(p, c.h, RequestFor(u, ending.build, ending.tj, ending.tb)).value.script| ==>
              acts[ending.n + 1] == Acknowledge && Published(states[ending.n + 1]).entries == DeriveMap(p, u.entries)
  {
    hide View, PlanOf, InvWith, Step, TxAt, ContainerAt, Publishable, Alike, DeriveMap, PrimaryLoads;
    var q, n := RequestFor(u, ending.build, ending.tj, ending.tb), ending.n;
    states, acts := CommitIsSteps(p, s, c, u, e, ending.after, ending.build, ending.tj, ending.tb, n);
    var act, next := EndMatches(p, states[n + 1], c, q, n, ending.after);
    assert Published(states[n + 1]).entries == DeriveMap(p, q.entries) by { PublishedMap(p, states[n + 1]); }
    StepKeeps(p, states[n + 1], act, next);
    RunMore(p, states, acts, act, next);
    states, acts, c2 := states + [next], acts + [act], CommittedMemory(p, c, q, n);
  }

  lemma PublishedMap(p: Primitives, s: State)
    requires Inv(p, s) && s.phase.Committing?
    ensures Published(s).entries == DeriveMap(p, s.phase.q.entries)
  {
    hide Holds, View, Planned, Progress, DeriveMap, MapOk, Branded, PrimaryLoads;
    var w :| InvWith(p, s, w);
  }

  lemma RollbackMatches(p: Primitives, s: State, c: Memory, t: TxState, d: Disk) returns (next: State)
    requires Inv(p, s) && TxAt(p, s, c, t, d)
    ensures Step(p, s, Rollback, next) && ContainerAt(p, next, c, d)
  {
    hide View, SlotCandidates, InvWith, PrimaryLoads;
    InvDisciplined(p, s);
    next := Do(p, s, Rollback);
  }

  /** A whole transaction on the objects is a run of the machine from the matching container to the matching one. */
  lemma TransactionIsRun(p: Primitives, s: State, c: Memory, d: Disk, x: TxTrace, c2: Memory, d2: Disk)
    returns (states: seq<State>, acts: seq<Action>)
    requires p.InversePair() && Inv(p, s) && ContainerAt(p, s, c, d) && Transacted(p, c, d, x, c2, d2)
    ensures Runs.Run(p, states, acts) && states[0] == s && Inv(p, states[|acts|]) && ContainerAt(p, states[|acts|], c2, d2)
  {
    hide InvWith, Step, TxAt, ContainerAt, AllCarried, TxAfter, DiskAfter, PlanOf, Publishable, Begun, PrimaryLoads;
    var first := BeginMatches(p, s, c, d);
    StepKeeps(p, s, Begin, first);
    var body, steps := CallsAreSteps(p, first, c, Begun(c, d), d, x.calls, |x.calls|);
    assert Runs.Run(p, [s, first], [Begin]);
    JoinRuns(p, [s, first], [Begin], body, steps);
    states, acts := [s, first] + body[1..], [Begin] + steps;
    var last, u, e := states[|acts|], TxAfter(p, Begun(c, d), x.calls, |x.calls|), DiskAfter(d, x.calls, |x.calls|);
    if x.ending.RolledBack? {
      var next := RollbackMatches(p, last, c, u, e);
      StepKeeps(p, last, Rollback, next);
      RunMore(p, states, acts, Rollback, next);
      states, acts := states + [next], acts + [Rollback];
    } else {
      var more, ends, c3 := EndingIsSteps(p, last, c, u, e, x.ending);
      JoinRuns(p, states, acts, more, ends);
      states, acts := states + more[1..], acts + ends;
    }
  }

  /** Transactions one after the other, each starting from the memory and the disk the one before has left. */
  ghost predicate Succession(p: Primitives, cs: seq<Memory>, ds: seq<Disk>, xs: seq<TxTrace>)
  {
    && |cs| == |ds| == |xs| + 1
    && forall i :: 0 <= i < |xs| ==> Transacted(p, cs[i], ds[i], xs[i], cs[i + 1], ds[i + 1])
  }

  /** Any number of transactions on the objects are a run of the machine. */
  lemma {:induction false} TransactionsAreRun(p: Primitives, s: State, cs: seq<Memory>, ds: seq<Disk>, xs: seq<TxTrace>,
      n: nat) returns (states: seq<State>, acts: seq<Action>)
    requires p.InversePair() && Succession(p, cs, ds, xs) && Inv(p, s) && ContainerAt(p, s, cs[0], ds[0]) && n <= |xs|
    ensures Runs.Run(p, states, acts) && states[0] == s
    ensures Inv(p, states[|acts|]) && ContainerAt(p, states[|acts|], cs[n], ds[n])
    decreases n
  {
    hide InvWith, Step, ContainerAt, Transacted, PrimaryLoads;
    if n == 0 {
      states, acts := [s], [];
    } else {
      states, acts := TransactionsAreRun(p, s, cs, ds, xs, n - 1);
      var more, steps := TransactionIsRun(p, states[|acts|], cs[n - 1], ds[n - 1], xs[n - 1], cs[n], ds[n]);
      JoinRuns(p, states, acts, more, steps);
      states, acts := states + more[1..], acts + steps;
    }
  }

  /** The crash guarantee on the objects.  From a sound container on, after any number of transactions, committed, failed
      and rolled back: whatever a crash leaves of the file, Open succeeds and shows one of two versions.  If the last
      transaction's commit has run through, there is only one, and its map is the derived map of that transaction. */
  lemma ObjectsCrashSafe(p: Primitives, s: State, cs: seq<Memory>, ds: seq<Disk>, xs: seq<TxTrace>)
    returns (vs: Versions)
    requires p.InversePair() && Succession(p, cs, ds, xs) && Inv(p, s) && ContainerAt(p, s, cs[0], ds[0])
    ensures var d := ds[|xs|];
            && Disciplined(d)
            && forall r :: CrashImage(d, r) ==> Shows(p, r, vs.base) || (vs.moving.Some? && Shows(p, r, vs.moving.value))
    ensures |xs| > 0 && RunThrough(p, cs[|xs| - 1], ds[|xs| - 1], xs[|xs| - 1]) ==>
              && vs == Versions(vs.base, None)
              && vs.base.entries == DeriveMap(p, LastMap(p, cs[|xs| - 1], ds[|xs| - 1], xs[|xs| - 1]))
              && Preserves(p, LastMap(p, cs[|xs| - 1], ds[|xs| - 1], xs[|xs| - 1]), vs.base.entries)
  {
    hide InvWith, Step, Transacted, CrashImage, Shows, RunThrough, LastMap, DeriveMap, Alike, PrimaryLoads, Preserves;
    var end: State;
    if |xs| > 0 && RunThrough(p, cs[|xs| - 1], ds[|xs| - 1], xs[|xs| - 1]) {
      var n := |xs| - 1;
      var states, acts := TransactionsAreRun(p, s, cs, ds, xs, n);
      end := RunThroughOnly(p, states[|acts|], cs[n], ds[n], xs[n], cs[n + 1], ds[n + 1]);
      LastPreserved(p, cs[n], ds[n], xs[n]);
    } else {
      var states, acts := TransactionsAreRun(p, s, cs, ds, xs, |xs|);
      end := states[|acts|];
    }
    vs := end.versions;
    assert Disciplined(ds[|xs|]) && Disciplined(end.disk) by { AlikeDisciplined(end.disk, ds[|xs|]); }
    forall r | CrashImage(ds[|xs|], r)
      ensures Shows(p, r, vs.base) || (vs.moving.Some? && Shows(p, r, vs.moving.value))
    {
      AlikeCrash(end.disk, ds[|xs|], r);
      CrashShows(p, end, r);
    }
  }

  lemma AlikeDisciplined(d: Disk, e: Disk)
    requires Alike(d, e)
    ensures Disciplined(d) && Disciplined(e)
  {
  }

  /** The map of the transaction when it ended. */
  ghost function LastMap(p: Primitives, c: Memory, d: Disk, x: TxTrace): Paths
    requires AllWrites(d.pending)
  {
    TxAfter(p, Begun(c, d), x.calls, |x.calls|).entries
  }

  /** All operations of the transaction's commit were performed. */
  ghost predicate RunThrough(p: Primitives, c: Memory, d: Disk, x: TxTrace)
  {
    && AllWrites(d.pending) && x.ending.CommitEnded?
    && var q := RequestFor(TxAfter(p, Begun(c, d), x.calls, |x.calls|), x.ending.build, x.ending.tj, x.ending.tb);
       Publishable(p, c.h, q) && x.ending.n == |PlanOf(p, c.h, q).value.script|
  }

  lemma LastPreserved(p: Primitives, c: Memory, d: Disk, x: TxTrace)
    requires RunThrough(p, c, d, x)
    ensures AllWrites(d.pending) && Preserves(p, LastMap(p, c, d, x), DeriveMap(p, LastMap(p, c, d, x)))
  {
    hide LastMap, DeriveMap, Preserves, PlanOf, Publishable;
    DeriveMapPreserves(p, LastMap(p, c, d, x));
  }

  lemma RunThroughOnly(p: Primitives, s: State, c: Memory, d: Disk, x: TxTrace, c2: Memory, d2: Disk)
    returns (end: State)
    requires p.InversePair() && Inv(p, s) && ContainerAt(p, s, c, d) && Transacted(p, c, d, x, c2, d2)
    requires RunThrough(p, c, d, x)
    ensures Inv(p, end) && ContainerAt(p, end, c2, d2)
    ensures end.versions.moving.None? && end.versions.base.entries == DeriveMap(p, LastMap(p, c, d, x))
  {
    hide InvWith, Step, TxAt, ContainerAt, AllCarried, TxAfter, DiskAfter, PlanOf, Publishable, Begun, DeriveMap, PrimaryLoads;
    var first := BeginMatches(p, s, c, d);
    StepKeeps(p, s, Begin, first);
    var body, steps := CallsAreSteps(p, first, c, Begun(c, d), d, x.calls, |x.calls|);
    var u, e := TxAfter(p, Begun(c, d), x.calls, |x.calls|), DiskAfter(d, x.calls, |x.calls|);
    var more, ends, c3 := EndingIsSteps(p, body[|steps|], c, u, e, x.ending);
    var n := x.ending.n;
    end := more[n + 2];
    RunKeeps(p, more, ends, n + 1);
    AcknowledgedAlone(p, more[n + 1], end);
  }

  lemma AcknowledgedAlone(p: Primitives, s: State, t: State)
    requires Inv(p, s) && Step(p, s, Acknowledge, t)
    ensures t.versions == Versions(Published(s), None)
  {
    hide InvWith, Step, PrimaryLoads;
    var w :| InvWith(p, s, w);
    NotMoving(p, s, w, t);
    AcknowledgedOnly(p, s, t);
  }

  lemma NotMoving(p: Primitives, s: State, w: Shape, t: State)
    requires InvWith(p, s, w) && Step(p, s, Acknowledge, t)
    ensures t.versions.moving.None?
  {
    hide View, Planned, DeriveMap, MapOk, Branded, Names, HeaderBytes, Step, SettledOn, MovingTo, Intact, PrimaryLoads;
    AcknowledgeEffect(p, s, t);
    PlanScript(p, s.phase.h, s.phase.q, s.phase.plan);
  }
}

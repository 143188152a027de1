/** Opening a file as the source does it, with its repair, and the handle's two forms of the map. */
module OpenCode {
  import opened Binary
  import opened Common
  import opened Directory
  import opened Catalog
  import opened Rows
  import opened Header
  import opened Snapshot
  import opened Journal
  import opened DirScan
  import opened Disk
  import opened Open
  import opened Runs
  import opened ChunkWriter
  import opened DirectoryCode

  class Handle {
    const p: Primitives
    const f: File
    var header: Header
    var snap: Snapshot

    constructor (p: Primitives, f: File, header: Header, snap: Snapshot)
      ensures this.p == p && this.f == f && this.header == header && this.snap == snap
    {
      this.p, this.f, this.header, this.snap := p, f, header, snap;
    }

    /** `ensureEntriesLoadedLocked`: replaces the lazy form by the decoded map, or fails and changes nothing. */
    method EnsureLoaded() returns (e: Option<Error>)
      requires f.Valid()
      modifies this`snap
      ensures match Materialize(p, View(f.disk), header, old(snap))
              case Err(x) => e == Some(x) && snap == old(snap)
              case Ok(m) => e.None? && snap == Eager(m)
    {
      hide Envelope, ReadRows, ChunksInside, View;
      if snap.Eager? { return None; }
      var envelope := Envelope(p, snap.dirBlob, header.dirCRC, header.dirSize);
      if envelope.Err? { return Some(envelope.error); }
      if envelope.value != |snap.idx.rows| { return Some(InvalidFormat); }
      var entries := ReadEntries(p, snap.dirBlob, snap.idx.rows);
      if entries.Err? { return Some(entries.error); }
      if !ChunksInside(entries.value, |View(f.disk)|) { return Some(InvalidFormat); }
      snap := Eager(entries.value);
      e := None;
    }
  }

  /** The disk after one write whose error, if any, is ignored. */
  function WrittenOrNot(d: Disk, off: nat, data: Bytes, refuse: Refuse): (r: Disk)
    requires AllWrites(d.pending)
    ensures AllWrites(r.pending)
  {
    if Refusal(refuse, off).None? then Apply(d, FileOp.WriteAt(off, data)) else d
  }

  /** The disk after `persistRecoveredHeader`; all its errors are ignored. */
  function Persisted(d: Disk, h: Header, refuse: Refuse, syncFails: bool): (r: Disk)
    requires AllWrites(d.pending)
    ensures AllWrites(r.pending)
  {
    var d1 := WrittenOrNot(d, 0, HeaderBytes(h), refuse);
    var d2 := if Marker(h) == 2 then WrittenOrNot(d1, SLOT, HeaderBytes(h), refuse) else d1;
    if syncFails then d2 else Apply(d2, FileOp.Sync)
  }

  /** A repair of which nothing is refused leaves both slots holding the header, the rest of the file as it was seen, and
      nothing unsynced. */
  lemma RepairRestores(d: Disk, h: Header, refuse: Refuse)
    requires AllWrites(d.pending) && 2 * SLOT <= |View(d)| && Marker(h) == 2
    requires Refusal(refuse, 0).None? && Refusal(refuse, SLOT).None?
    ensures Persisted(d, h, refuse, false) == Disk(HeaderBytes(h) + HeaderBytes(h) + View(d)[2 * SLOT..], [])
  {
    hide HeaderBytes, Marker, View, Overwrite;
    var head, v := HeaderBytes(h), View(d);
    var d1 := Apply(d, FileOp.WriteAt(0, head));
    var d2 := Apply(d1, FileOp.WriteAt(SLOT, head));
    ViewWritten(d, 0, head);
    ViewWritten(d1, SLOT, head);
    SlotsOver(v, head);
  }

  lemma ViewWritten(d: Disk, off: nat, data: Bytes)
    requires AllWrites(d.pending)
    ensures var n := Apply(d, FileOp.WriteAt(off, data)); AllWrites(n.pending) && View(n) == Overwrite(View(d), off, data)
  {
    hide Overwrite;
    var n := Apply(d, FileOp.WriteAt(off, data));
    assert n.pending[..|d.pending|] == d.pending;
  }

  lemma SlotsOver(v: Bytes, head: Bytes)
    requires 2 * SLOT <= |v| && |head| == SLOT
    ensures Overwrite(Overwrite(v, 0, head), SLOT, head) == head + head + v[2 * SLOT..]
  {
  }

  lemma RepairWrite(p: Primitives, s: Runs.State, refuse: Refuse) returns (act: Action, t: Runs.State)
    requires Inv(p, s) && s.phase.Repairing? && s.phase.done + 1 < |RepairScript(s.phase.h)|
    ensures Runs.Step(p, s, act, t) && AllWrites(s.disk.pending)
    ensures t.phase == Repairing(s.phase.h, s.phase.snap, s.phase.done + 1)
    ensures t.disk == WrittenOrNot(s.disk, if s.phase.done == 0 then 0 else SLOT, HeaderBytes(s.phase.h), refuse)
  {
    hide InvWith, View, HeaderBytes, RepairScript;
    RepairLength(s.phase.h);
    RepairDisciplined(p, s);
    act := if Refusal(refuse, if s.phase.done == 0 then 0 else SLOT).None? then RepairOp else RepairRefused;
    t := Do(p, s, act);
  }

  lemma RepairLast(p: Primitives, s: Runs.State, syncFails: bool) returns (act: Action, t: Runs.State)
    requires Inv(p, s) && s.phase.Repairing? && s.phase.done + 1 == |RepairScript(s.phase.h)|
    ensures Runs.Step(p, s, act, t) && AllWrites(s.disk.pending) && t.phase == Idle(s.phase.h, s.phase.snap)
    ensures t.disk == if syncFails then s.disk else Apply(s.disk, FileOp.Sync)
  {
    hide InvWith, View, HeaderBytes, RepairScript;
    RepairLength(s.phase.h);
    RepairDisciplined(p, s);
    act := if syncFails then RepairSyncFails else RepairOp;
    t := Do(p, s, act);
  }

  lemma RepairDisciplined(p: Primitives, s: Runs.State)
    requires Inv(p, s)
    ensures Disciplined(s.disk) && AllWrites(s.disk.pending)
  {
    hide Holds, PhaseOk;
  }

  /** Whatever of it is refused, the repair is a run of the state machine. */
  lemma PersistIsRun(p: Primitives, s: Runs.State, refuse: Refuse, syncFails: bool)
    returns (states: seq<Runs.State>, acts: seq<Action>)
    requires Inv(p, s) && s.phase.Repairing? && s.phase.done == 0
    ensures Runs.Run(p, states, acts) && states[0] == s && AllWrites(s.disk.pending)
    ensures states[|acts|].phase == Idle(s.phase.h, s.phase.snap)
    ensures states[|acts|].disk == Persisted(s.disk, s.phase.h, refuse, syncFails)
  {
    hide Inv, View, HeaderBytes, Runs.Step, Marker, WrittenOrNot, Apply;
    ScriptLength(s.phase.h);
    var a1, s1 := RepairWrite(p, s, refuse);
    StepKeeps(p, s, a1, s1);
    if Marker(s.phase.h) == 2 {
      var a2, s2 := RepairWrite(p, s1, refuse);
      StepKeeps(p, s1, a2, s2);
      var a3, s3 := RepairLast(p, s2, syncFails);
      states, acts := [s, s1, s2, s3], [a1, a2, a3];
    } else {
      var a2, s2 := RepairLast(p, s1, syncFails);
      states, acts := [s, s1, s2], [a1, a2];
    }
  }

  lemma ScriptLength(h: Header)
    ensures |RepairScript(h)| == if Marker(h) == 2 then 3 else 2
  {
    hide HeaderBytes, Marker;
  }

  method PersistRecoveredHeader(f: File, h: Header, syncFails: bool)
    requires f.Valid()
    modifies f`disk
    ensures f.Valid() && f.disk == Persisted(old(f.disk), h, f.refuse, syncFails)
  {
    hide HeaderBytes, Marker, View;
    var buf := HeaderBytes(h);
    var ignored := f.WriteAt(0, buf);
    if Marker(h) == 2 { ignored := f.WriteAt(SLOT, buf); }
    if !syncFails { f.disk := Apply(f.disk, FileOp.Sync); }
  }

  /** What Open returns for an outcome of the ladder. */
  ghost predicate Yielded(p: Primitives, f: File, o: Result<Opened>, h: Option<Handle>, e: Option<Error>)
    reads if h.Some? then {h.value} else {}
  {
    match o
    case Err(x) => h.None? && e == Some(x)
    case Ok(v) => e.None? && h.Some? && h.value.p == p && h.value.f == f && h.value.header == v.h && h.value.snap == v.snap
  }

  /** `tryRecovered`: nothing yet, a fatal error, or a handle, after which the slots are rewritten. */
  method TryHeader(p: Primitives, f: File, h: Header, syncFails: bool) returns (c: Option<Handle>, fatal: Option<Error>)
    requires f.Valid()
    modifies f`disk
    ensures f.Valid() && match TryRecovered(p, View(old(f.disk)), Ok(h))
            case Err(x) => c.None? && fatal == Some(x) && f.disk == old(f.disk)
            case Ok(None) => c.None? && fatal.None? && f.disk == old(f.disk)
            case Ok(Some(o)) =>
              && c.Some? && fresh(c.value) && Yielded(p, f, Ok(o), c, fatal) && o.repair && o.h == h
              && f.disk == Persisted(old(f.disk), h, f.refuse, syncFails)
  {
    hide LoadSnapshot, View, Persisted;
    var snap := LoadSnapshot(p, View(f.disk), h);
    if snap.Err? { return None, if Recoverable(snap.error) then None else Some(snap.error); }
    PersistRecoveredHeader(f, h, syncFails);
    var handle := new Handle(p, f, h, snap.value);
    return Some(handle), None;
  }

  /** `Open`, rung by rung, carrying the first error along. */
  method OpenContainer(p: Primitives, f: File, syncFails: bool) returns (c: Option<Handle>, e: Option<Error>)
    requires f.Valid()
    modifies f`disk
    ensures f.Valid() && var o := OpenImage(p, View(old(f.disk)));
            && Yielded(p, f, o, c, e) && (c.Some? ==> fresh(c.value))
            && f.disk == if o.Ok? && o.value.repair then Persisted(old(f.disk), o.value.h, f.refuse,
              syncFails) else old(f.disk)
  {
    hide LoadSnapshot, View, Persisted, UnmarshalHeader, FixedSlot, RecoverBest, ScanForDirectory, LoadFromDirectory;
    var file := View(f.disk);
    if |file| < SLOT { return None, Some(EOF); }
    var openErr: Error;
    var h := UnmarshalHeader(file[..SLOT]);
    if h.Ok? {
      var snap := LoadSnapshot(p, file, h.value);
      if snap.Ok? {
        var handle := new Handle(p, f, h.value, snap.value);
        return Some(handle), None;
      }
      openErr := snap.error;
      if !Recoverable(openErr) { return None, Some(openErr); }
    } else {
      openErr := h.error;
      UnmarshalRecoverable(file[..SLOT]);
    }
    var recovered := FixedSlot(p, file);
    if recovered.Ok? {
      var fatal;
      c, fatal := TryHeader(p, f, recovered.value, syncFails);
      if c.Some? || fatal.Some? { return c, fatal; }
    }
    recovered := RecoverBest(p, file);
    if recovered.Ok? {
      var fatal;
      c, fatal := TryHeader(p, f, recovered.value, syncFails);
      if c.Some? || fatal.Some? { return c, fatal; }
    }
    if |file| >= U64 { return None, Some(openErr); }
    recovered := ScanForDirectory(p, file);
    if recovered.Err? { return None, Some(openErr); }
    var snap := LoadFromDirectory(p, file, recovered.value);
    if snap.Err? { return None, Some(snap.error); }
    var handle := new Handle(p, f, recovered.value, snap.value);
    return Some(handle), None;
  }

  lemma UnmarshalRecoverable(b: Bytes)
    ensures UnmarshalHeader(b).Err? ==> Recoverable(UnmarshalHeader(b).error)
  {
    hide ParseHeader;
  }
}

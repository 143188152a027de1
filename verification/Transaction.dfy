/** Transactions: operations on the map, on the counters and on the file. */
module Transaction {
  import opened Binary
  import opened Common
  import opened Directory
  import opened Catalog
  import opened Rows
  import opened HashRanges
  import opened DirIndex
  import opened Header
  import opened Chunk
  import opened Snapshot
  import opened Journal
  import opened Lookup
  import opened Disk
  import opened Commit
  import opened ChunkWriter
  import opened WriteRead
  import opened Slots
  import opened Runs

  /** Settings chosen for one write; how they are chosen from options and file type is not modelled. */
  datatype WriteArgs = WriteArgs(codec: u8, level: u8, size: ChunkSize, maxEntry: u64, mtime: u64, mode: u32, flags: u32)

  datatype TxState = TxState(entries: Paths, off: nat, dead: u64, churn: u64, closed: bool)

  /** The state after an operation, the bytes it appended to the file, and its error. */
  datatype OpResult = OpResult(t: TxState, log: Bytes, e: Option<Error>)

  /** `entryStoredBytes`. */
  function EntryStored(cs: seq<ChunkRef>): (n: u64)
    ensures n == if StoredBytes(cs) <= MAX64 then StoredBytes(cs) else MAX64
  {
    if |cs| == 0 then 0 else SaturatingAdd(EntryStored(cs[..|cs| - 1]), cs[|cs| - 1].compSize + CHUNK_HEADER)
  }

  /** `markObsolete`. */
  function Obsolete(t: TxState, e: Entry): TxState
  {
    t.(dead := SaturatingAdd(t.dead, EntryStored(e.chunks)), churn := SaturatingAdd(t.churn, 1))
  }

  function SettingsOf(p: Primitives, a: WriteArgs): Settings
  {
    Settings(p, a.codec, a.level, a.size, a.maxEntry)
  }

  function NewEntry(path: Bytes, meta: Bytes, a: WriteArgs, refs: seq<ChunkRef>, size: u64): Entry
  {
    Entry(0, a.mtime, a.mode, a.flags, size, 0, 0, 0, refs, meta, path)
  }

  /** `writeEntry` and the assignment that follows it; no source stands for a nil reader. */
  function PutEntry(p: Primitives, t: TxState, path: Bytes, src: Option<Source>, meta: Bytes, a: WriteArgs,
      refuse: Refuse): OpResult
  {
    match src
    case None => OpResult(t, [], Some(InvalidFormat))
    case Some(s) =>
      var w := Written(SettingsOf(p, a), s, t.off, refuse);
      var moved := t.(off := t.off + |w.log|);
      match w.result
      case Err(e) => OpResult(moved, w.log, Some(e))
      case Ok((refs, size)) =>
        OpResult(moved.(entries := t.entries[path := NewEntry(path, meta, a, refs, size)]), w.log, None)
  }

  function Failed(t: TxState, e: Error): OpResult
  {
    OpResult(t, [], Some(e))
  }

  function AddOp(p: Primitives, t: TxState, path: Bytes, src: Option<Source>, meta: Bytes, a: WriteArgs,
      refuse: Refuse): OpResult
  {
    if t.closed then Failed(t, ClosedPipe)
    else if path in t.entries then Failed(t, AlreadyExists)
    else PutEntry(p, t, path, src, meta, a, refuse)
  }

  function UpsertOp(p: Primitives, t: TxState, path: Bytes, src: Option<Source>, meta: Bytes, a: WriteArgs,
      refuse: Refuse): OpResult
  {
    if t.closed then Failed(t, ClosedPipe)
    else PutEntry(p, if path in t.entries then Obsolete(t, t.entries[path]) else t, path, src, meta, a, refuse)
  }

  function ReplaceOp(p: Primitives, t: TxState, path: Bytes, src: Option<Source>, meta: Bytes, a: WriteArgs,
      refuse: Refuse): OpResult
  {
    if t.closed then Failed(t, ClosedPipe)
    else if path !in t.entries then Failed(t, NotFound)
    else PutEntry(p, Obsolete(t, t.entries[path]), path, src, meta, a, refuse)
  }

  function Without(t: TxState, path: Bytes): TxState
    requires path in t.entries
  {
    Obsolete(t, t.entries[path]).(entries := t.entries - {path})
  }

  function RemoveOp(t: TxState, path: Bytes): OpResult
  {
    if t.closed then Failed(t, ClosedPipe)
    else if path !in t.entries then Failed(t, NotFound)
    else OpResult(Without(t, path), [], None)
  }

  /** The first n paths of a list removed, as far as they exist, and how many did. */
  function RemoveListed(t: TxState, paths: seq<Bytes>, n: nat): (TxState, nat)
    requires n <= |paths|
  {
    if n == 0 then (t, 0)
    else
      var (u, k) := RemoveListed(t, paths, n - 1);
      if paths[n - 1] in u.entries then (Without(u, paths[n - 1]), k + 1) else (u, k)
  }

  function SetMetaOp(t: TxState, path: Bytes, meta: Bytes): OpResult
  {
    if t.closed then Failed(t, ClosedPipe)
    else if path !in t.entries then Failed(t, NotFound)
    else OpResult(t.(entries := t.entries[path := t.entries[path].(meta := meta)]), [], None)
  }

  // ---------- what operations keep ----------

  /** What the length fields of an entry can hold. */
  predicate Fits(path: Bytes, meta: Bytes, a: WriteArgs)
  {
    path != [] && |path| < U32 && |meta| < U32 && a.size < U32
  }

  ghost predicate FewChunks(m: Paths)
  {
    forall k :: k in m ==> |m[k].chunks| < U32
  }

  /** An entry made by a successful write can be encoded, and its records lie between the old and the new end. */
  lemma NewEntryOk(p: Primitives, t: TxState, path: Bytes, src: Source, meta: Bytes, a: WriteArgs,
      refuse: Refuse)
    requires p.InversePair() && Fits(path, meta, a) && 2 * SLOT <= t.off
    requires Written(SettingsOf(p, a), src, t.off, refuse).result.Ok?
    ensures var w := Written(SettingsOf(p, a), src, t.off, refuse); var (refs, size) := w.result.value;
            var e := NewEntry(path, meta, a, refs, size);
            && size == |src.data| && StoredBytes(refs) == |w.log|
            && (|refs| < U32 ==> Encodable(e))
            && forall i :: 0 <= i < |refs| ==> RefInside(refs[i], t.off + |w.log|) && 2 * SLOT <= refs[i].chunkOffset
  {
    hide Written, ReadBack, TiledRefs, StoredBytes, Packed;
    var w := Written(SettingsOf(p, a), src, t.off, refuse);
    var (refs, size) := w.result.value;
    WrittenReadsBack(SettingsOf(p, a), src, t.off, refuse, [], false);
    TiledInOrder(refs, 0, size);
    forall i | 0 <= i < |refs|
      ensures RefInside(refs[i], t.off + |w.log|) && 2 * SLOT <= refs[i].chunkOffset
    {
      PackedInside(refs, t.off, i);
    }
    if |refs| < U32 { ChunksFitNew(NewEntry(path, meta, a, refs, size)); }
  }

  lemma ChunksFitNew(e: Entry)
    requires e.path != [] && |e.path| < U32 && |e.meta| < U32 && |e.chunks| < U32
    requires ChunksInOrder(e.chunks, 0)
    requires if |e.chunks| > 0 then e.chunks[|e.chunks| - 1].rawOffset + e.chunks[|e.chunks| - 1].rawSize == e.fileSize else e.fileSize == 0
    ensures Encodable(e)
  {
    OrderedCleared(e.chunks, 0);
  }

  /** Adding, upserting or replacing keeps the map committable: entries encodable, records inside the file. */
  lemma PutKeepsMap(p: Primitives, t: TxState, path: Bytes, src: Option<Source>, meta: Bytes, a: WriteArgs,
      refuse: Refuse)
    requires p.InversePair() && Fits(path, meta, a) && 2 * SLOT <= t.off && MapOk(t.entries, t.off)
    requires FewChunks(PutEntry(p, t, path, src, meta, a, refuse).t.entries)
    ensures var r := PutEntry(p, t, path, src, meta, a, refuse);
            && MapOk(r.t.entries, r.t.off) && r.t.off == t.off + |r.log|
            && r.t.dead == t.dead && r.t.churn == t.churn && r.t.closed == t.closed
  {
    hide Written, Encodable;
    var r := PutEntry(p, t, path, src, meta, a, refuse);
    if src.Some? && r.e.None? {
      NewEntryOk(p, t, path, src.value, meta, a, refuse);
      assert path in r.t.entries;
    }
    MapOkMore(t.entries, t.off, r.t.off);
  }

  /** Removing and setting metadata keep the map committable. */
  lemma RemoveKeepsMap(t: TxState, path: Bytes, meta: Bytes)
    requires MapOk(t.entries, t.off) && |meta| < U32
    ensures MapOk(RemoveOp(t, path).t.entries, t.off) && MapOk(SetMetaOp(t, path, meta).t.entries, t.off)
  {
    if path in t.entries { MetaKeepsEncodable(t.entries[path], meta); }
    hide Encodable;
  }

  lemma MetaKeepsEncodable(e: Entry, meta: Bytes)
    requires Encodable(e) && |meta| < U32
    ensures Encodable(e.(meta := meta))
  {
  }

  // ---------- sums over maps ----------

  /** The stored bytes of all entries of a map. */
  ghost function TotalStored(m: Paths): nat
  {
    if m == map[] then 0
    else
      var k :| k in m;
      StoredBytes(m[k].chunks) + TotalStored(m - {k})
  }

  /** Any entry may be taken out of the sum first. */
  lemma {:induction false} TotalTake(m: Paths, k: Bytes)
    requires k in m
    ensures TotalStored(m) == StoredBytes(m[k].chunks) + TotalStored(m - {k})
    decreases |m|
  {
    hide StoredBytes;
    var j :| j in m && TotalStored(m) == StoredBytes(m[j].chunks) + TotalStored(m - {j});
    if j != k {
      TotalTake(m - {j}, k);
      TotalTake(m - {k}, j);
      assert (m - {j}) - {k} == (m - {k}) - {j};
    }
  }

  function Cap(n: nat): (c: u64)
    ensures c == if n <= MAX64 then n else MAX64
  {
    if n <= MAX64 then n else MAX64
  }

  function Restrict(m: Paths, ks: set<Bytes>): Paths
  {
    map k | k in m && k in ks :: m[k]
  }

  /** t after the entries named by `gone` were removed, in whatever order. */
  ghost predicate Swept(t: TxState, u: TxState, gone: set<Bytes>)
  {
    && gone <= t.entries.Keys && u.entries == t.entries - gone && u.off == t.off && u.closed == t.closed
    && u.dead == Cap(t.dead + TotalStored(Restrict(t.entries, gone))) && u.churn == Cap(t.churn + |gone|)
  }

  lemma SweptNothing(t: TxState)
    ensures Swept(t, t, {})
  {
    assert Restrict(t.entries, {}) == map[];
    assert t.entries - {} == t.entries;
  }

  lemma SweptMore(t: TxState, u: TxState, gone: set<Bytes>, k: Bytes)
    requires Swept(t, u, gone) && k in u.entries
    ensures u.entries[k] == t.entries[k] && k !in gone && Swept(t, Without(u, k), gone + {k})
  {
    hide StoredBytes, TotalStored;
    var more := Restrict(t.entries, gone + {k});
    TotalTake(more, k);
    assert more - {k} == Restrict(t.entries, gone);
    assert t.entries - (gone + {k}) == u.entries - {k};
  }

  predicate Chosen(select: Entry -> bool, m: Paths, k: Bytes)
    requires k in m
  {
    select(m[k])
  }

  function Selection(select: Entry -> bool, m: Paths): set<Bytes>
  {
    set k | k in m && Chosen(select, m, k)
  }

  /** The loop of `RemoveWhere`, over the map's entries in any order: exactly the selected entries go. */
  method SweepOut(t: TxState, select: Entry -> bool) returns (u: TxState, removed: nat)
    ensures Swept(t, u, Selection(select, t.entries)) && removed == |Selection(select, t.entries)|
  {
    hide Swept, Obsolete, Selection;
    u, removed := t, 0;
    var todo := t.entries.Keys;
    ghost var gone: set<Bytes> := {};
    ghost var sel := Selection(select, t.entries);
    SweptNothing(t);
    SelectionKeys(select, t.entries);
    while todo != {}
      invariant Swept(t, u, gone) && removed == |gone| && todo <= t.entries.Keys && gone == sel - todo
      decreases |todo|
    {
      var k :| k in todo;
      SweptHas(t, u, gone, k);
      InSelection(select, t.entries, k);
      SelectionStep(sel, todo, k);
      if Chosen(select, u.entries, k) {
        SweptMore(t, u, gone, k);
        u := Without(u, k);
        gone, removed := gone + {k}, removed + 1;
      }
      todo := todo - {k};
    }
  }

  lemma SelectionKeys(select: Entry -> bool, m: Paths)
    ensures Selection(select, m) <= m.Keys && Selection(select, m) - m.Keys == {}
  {
  }

  lemma InSelection(select: Entry -> bool, m: Paths, k: Bytes)
    requires k in m
    ensures k in Selection(select, m) <==> Chosen(select, m, k)
  {
  }

  lemma SelectionStep(sel: set<Bytes>, todo: set<Bytes>, k: Bytes)
    requires k in todo
    ensures k !in sel - todo && sel - (todo - {k}) == (if k in sel then (sel - todo) + {k} else sel - todo)
    ensures |(sel - todo) + {k}| == |sel - todo| + 1
  {
  }

  lemma SweptKeeps(t: TxState, u: TxState, gone: set<Bytes>)
    requires Swept(t, u, gone)
    ensures u == t.(entries := u.entries, dead := u.dead, churn := u.churn)
  {
  }

  lemma SweptHas(t: TxState, u: TxState, gone: set<Bytes>, k: Bytes)
    requires Swept(t, u, gone) && k in t.entries && k !in gone
    ensures k in u.entries && u.entries[k] == t.entries[k]
  {
  }

  /** The paths of a list that are in the map. */
  function Listed(m: Paths, paths: seq<Bytes>, n: nat): set<Bytes>
    requires n <= |paths|
  {
    set k | k in m && k in paths[..n]
  }

  /** Removing listed paths takes out exactly those that are in the map, each once, and counts them. */
  lemma {:induction false} RemoveListedSweeps(t: TxState, paths: seq<Bytes>, n: nat)
    requires n <= |paths|
    ensures var (u, k) := RemoveListed(t, paths, n); Swept(t, u, Listed(t.entries, paths, n)) && k == |Listed(t.entries, paths, n)|
  {
    hide Swept, Without;
    if n == 0 {
      SweptNothing(t);
      assert Listed(t.entries, paths, 0) == {};
    } else {
      RemoveListedSweeps(t, paths, n - 1);
      var u, gone, path := RemoveListed(t, paths, n - 1).0, Listed(t.entries, paths, n - 1), paths[n - 1];
      assert paths[..n] == paths[..n - 1] + [path];
      SweptKeys(t, u, gone);
      if path in u.entries {
        SweptMore(t, u, gone, path);
        assert Listed(t.entries, paths, n) == gone + {path};
      } else {
        assert Listed(t.entries, paths, n) == gone;
      }
    }
  }

  lemma SweptKeys(t: TxState, u: TxState, gone: set<Bytes>)
    requires Swept(t, u, gone)
    ensures u.entries.Keys == t.entries.Keys - gone
  {
  }

  // ---------- what a commit computes ----------

  ghost predicate Parts(all: set<Bytes>, done: set<Bytes>, todo: set<Bytes>)
  {
    done !! todo && done + todo == all
  }

  lemma PartsStart(all: set<Bytes>)
    ensures Parts(all, {}, all)
  {
  }

  lemma PartsStep(all: set<Bytes>, done: set<Bytes>, todo: set<Bytes>, k: Bytes)
    requires Parts(all, done, todo) && k in todo
    ensures k in all && k !in done && Parts(all, done + {k}, todo - {k}) && |todo - {k}| < |todo|
  {
  }

  lemma PartsEnd(all: set<Bytes>, done: set<Bytes>)
    requires Parts(all, done, {})
    ensures done == all
  {
  }

  /** Entries of the map in some order: what ranging over it yields. */
  method Collect(m: Paths) returns (es: seq<Entry>)
    requires Keyed(m)
    ensures UniquePaths(es) && Lists(es, m)
  {
    hide UniquePaths, Lists, Restrict, Parts, Keyed;
    es := [];
    var todo := m.Keys;
    ghost var done: set<Bytes> := {};
    PartsStart(todo);
    ListsNothing(m);
    while todo != {}
      invariant UniquePaths(es) && Parts(m.Keys, done, todo) && Lists(es, Restrict(m, done))
      decreases |todo|
    {
      var k :| k in todo;
      PartsStep(m.Keys, done, todo, k);
      ListsStep(es, m, done, k);
      es, todo, done := es + [m[k]], todo - {k}, done + {k};
    }
    PartsEnd(m.Keys, done);
    assert Restrict(m, m.Keys) == m by { RestrictAll(m); }
  }

  lemma ListsNothing(m: Paths)
    ensures UniquePaths([]) && Lists([], Restrict(m, {}))
  {
  }

  lemma ListsStep(es: seq<Entry>, m: Paths, done: set<Bytes>, k: Bytes)
    requires Keyed(m) && k in m && k !in done && UniquePaths(es) && Lists(es, Restrict(m, done))
    ensures UniquePaths(es + [m[k]]) && Lists(es + [m[k]], Restrict(m, done + {k}))
  {
    var more := Restrict(m, done + {k});
    assert more - {k} == Restrict(m, done);
    ListsMore(es, more, k);
  }

  lemma RestrictAll(m: Paths)
    ensures Restrict(m, m.Keys) == m
  {
  }

  /** Whatever the order of iteration, the encoder produces the planned directory. */
  lemma EncodesPlanned(p: Primitives, q: Request, es: seq<Entry>)
    requires AllEncodable(q.entries) && UniquePaths(es) && Lists(es, q.entries)
    ensures Encode(p, Dir(0, 0, q.build, es)) == Ok((DirOf(p, q), DirCRCOf(p, q)))
  {
    hide SortByPath, Encodable, DirBytes, BodyBytes, Canonical, Derive;
    var raw := Listing(q.entries);
    ListingMembers(q.entries);
    SameMultiset(es, raw, q.entries);
    SortUnique(es, raw);
    var sorted := SortByPath(es);
    forall i | 0 <= i < |sorted|
      ensures sorted[i].path != []
    {
      var j := MultisetMembers(sorted, es, i);
      assert es[j] in es;
      EncodableSizes(es[j]);
    }
  }

  lemma {:induction false} SameMultiset(a: seq<Entry>, b: seq<Entry>, m: Paths)
    requires UniquePaths(a) && UniquePaths(b) && Lists(a, m) && Lists(b, m)
    ensures multiset(a) == multiset(b)
  {
    forall e: Entry
      ensures multiset(a)[e] == multiset(b)[e]
    {
      CountOne(a, e);
      CountOne(b, e);
    }
  }

  lemma LastIsNew(a: seq<Entry>)
    requires UniquePaths(a) && |a| > 0
    ensures a[|a| - 1] !in a[..|a| - 1]
  {
  }

  lemma {:induction false} CountOne(a: seq<Entry>, e: Entry)
    requires UniquePaths(a)
    ensures multiset(a)[e] == if e in a then 1 else 0
  {
    if |a| != 0 {
      var n := |a| - 1;
      assert a == a[..n] + [a[n]];
      CountOne(a[..n], e);
      LastIsNew(a);
    }
  }

  // ---------- the objects ----------

  /** The seven file operations of a commit that follow its first sync. */
  function PublishScript(p: Primitives, j: nat, head: Bytes, tj: u64, tb: u64): (s: seq<FileOp>)
    requires |head| == SLOT
    ensures |s| == 7
  {
    [FileOp.WriteAt(j, RecordBytes(p, MAGIC_JOURNAL, head, tj)), FileOp.WriteAt(j + RECORD_SIZE, RecordBytes(p, MAGIC_BACKUP, head, tb)),
     FileOp.Sync, FileOp.WriteAt(SLOT, head), FileOp.Sync, FileOp.WriteAt(0, head), FileOp.Sync]
  }

  lemma ScriptTwoParts(p: Primitives, off: nat, dirBlob: Bytes, idxBlob: Bytes, head: Bytes, tj: u64, tb: u64)
    requires |head| == SLOT
    ensures Script(p, off, dirBlob, idxBlob, head, tj, tb)
            == [FileOp.WriteAt(off, dirBlob), FileOp.WriteAt(off + |dirBlob|, idxBlob), FileOp.Sync]
               + PublishScript(p, off + |dirBlob| + |idxBlob|, head, tj, tb)
  {
    hide RecordBytes;
  }

  /** The first n operations of a script have been performed. */
  ghost predicate Performed(before: Disk, now: Disk, s: seq<FileOp>, n: nat)
  {
    AllWrites(before.pending) && n <= |s| && now == ApplyAll(before, s[..n])
  }

  lemma PerformedNone(d: Disk, s: seq<FileOp>)
    requires AllWrites(d.pending)
    ensures Performed(d, d, s, 0)
  {
    assert s[..0] == [];
  }

  lemma PerformedMore(before: Disk, now: Disk, s: seq<FileOp>, n: nat)
    requires Performed(before, now, s, n) && n < |s|
    ensures AllWrites(now.pending) && Performed(before, Apply(now, s[n]), s, n + 1)
  {
    ApplyAllSnoc(before, s, n);
  }

  /** Performing a script in two parts. */
  lemma PerformedParts(before: Disk, mid: Disk, now: Disk, a: seq<FileOp>, b: seq<FileOp>, n: nat)
    requires Performed(before, mid, a, |a|) && Performed(mid, now, b, n)
    ensures Performed(before, now, a + b, |a| + n)
  {
    assert a[..|a|] == a && (a + b)[..|a| + n] == a + b[..n];
    ApplyAllParts(before, a, b[..n]);
  }

  lemma {:induction false} ApplyAllParts(d: Disk, a: seq<FileOp>, b: seq<FileOp>)
    requires AllWrites(d.pending)
    ensures ApplyAll(d, a + b) == ApplyAll(ApplyAll(d, a), b)
    decreases |a|
  {
    hide View;
    if |a| == 0 {
      assert a + b == b;
    } else {
      assert (a + b)[1..] == a[1..] + b;
      ApplyAllParts(Apply(d, a[0]), a[1..], b);
    }
  }

  lemma PerformedPrefix(before: Disk, now: Disk, a: seq<FileOp>, b: seq<FileOp>, n: nat)
    requires Performed(before, now, a, n)
    ensures Performed(before, now, a + b, n)
  {
    assert (a + b)[..n] == a[..n];
  }

  /** A commit's operations: syncs, whole header slots, and writes at or beyond the place where it began to append. */
  ghost predicate CommitOps(ops: seq<FileOp>, off: nat)
  {
    forall op :: op in ops ==> op.Sync? || SlotWrite(op) || off <= op.off
  }

  ghost predicate Went(before: Disk, now: Disk, ops: seq<FileOp>, off: nat)
  {
    Performed(before, now, ops, |ops|) && CommitOps(ops, off)
  }

  lemma WentNowhere(d: Disk, off: nat)
    requires AllWrites(d.pending)
    ensures Went(d, d, [], off)
  {
    PerformedNone(d, []);
  }

  lemma WentOn(before: Disk, now: Disk, ops: seq<FileOp>, off: nat, op: FileOp)
    requires Went(before, now, ops, off) && (op.Sync? || SlotWrite(op) || off <= op.off)
    ensures AllWrites(now.pending) && Went(before, Apply(now, op), ops + [op], off)
  {
    hide Apply, View;
    var n := |ops|;
    assert (ops + [op])[..n] == ops && ops[..n] == ops;
    PerformedMore(before, now, ops + [op], n);
  }

  function SyncsIn(s: seq<FileOp>): nat
  {
    if |s| == 0 then 0 else SyncsIn(s[..|s| - 1]) + if s[|s| - 1].Sync? then 1 else 0
  }

  /** Which writes are refused, by their place, and which syncs, by their number. */
  datatype Refusals = Refusals(write: Refuse, sync: nat -> Option<Error>)
  {
    function Answer(op: FileOp, syncs: nat): Option<Error>
    {
      match op
      case WriteAt(off, _) => Refusal(write, off)
      case Sync => sync(syncs)
    }

    /** What operation i of a script answers, if syncs is the number of syncs before the script. */
    function At(syncs: nat, s: seq<FileOp>, i: nat): Option<Error>
      requires i < |s|
    {
      Answer(s[i], syncs + SyncsIn(s[..i]))
    }
  }

  /** None of the first n operations is refused, and that many syncs have been counted. */
  ghost predicate Ran(r: Refusals, syncs: nat, s: seq<FileOp>, n: nat, now: nat)
  {
    n <= |s| && (forall i :: 0 <= i < n ==> r.At(syncs, s, i).None?) && now == syncs + SyncsIn(s[..n])
  }

  /** The script went through, or stopped with its error at the first refused operation, which is operation n. */
  ghost predicate StoppedAt(r: Refusals, syncs: nat, s: seq<FileOp>, n: nat, e: Option<Error>)
  {
    && n <= |s| && (forall i :: 0 <= i < n ==> r.At(syncs, s, i).None?)
    && if n < |s| then e.Some? && r.At(syncs, s, n) == e else e.None?
  }

  lemma RanNone(r: Refusals, syncs: nat, s: seq<FileOp>)
    ensures Ran(r, syncs, s, 0, syncs)
  {
  }

  /** One operation later. */
  lemma RanMore(r: Refusals, syncs: nat, s: seq<FileOp>, n: nat, now: nat)
    requires Ran(r, syncs, s, n, now) && n < |s|
    ensures r.At(syncs, s, n) == r.Answer(s[n], now)
    ensures r.Answer(s[n], now).None? ==> Ran(r, syncs, s, n + 1, now + if s[n].Sync? then 1 else 0)
    ensures r.Answer(s[n], now).Some? ==> StoppedAt(r, syncs, s, n, r.Answer(s[n], now))
  {
    assert s[..n + 1][..n] == s[..n];
  }

  /** A script that goes on behind one that went through. */
  lemma RanInto(r: Refusals, syncs: nat, a: seq<FileOp>, b: seq<FileOp>, now: nat, n: nat, e: Option<Error>)
    requires Ran(r, syncs, a, |a|, now) && StoppedAt(r, now, b, n, e)
    ensures StoppedAt(r, syncs, a + b, |a| + n, e)
  {
    assert a[..|a|] == a;
    forall i | 0 <= i < |a|
      ensures r.At(syncs, a + b, i).None?
    {
      assert r.At(syncs, a, i).None? && (a + b)[..i] == a[..i];
    }
    forall i | 0 <= i < |b|
      ensures r.At(syncs, a + b, |a| + i) == r.At(now, b, i)
    {
      SyncsAdd(a, b[..i]);
      assert (a + b)[..|a| + i] == a + b[..i];
    }
    forall i | |a| <= i < |a| + n
      ensures r.At(syncs, a + b, i).None?
    {
      assert r.At(syncs, a + b, |a| + (i - |a|)) == r.At(now, b, i - |a|);
    }
  }

  lemma {:induction false} SyncsAdd(a: seq<FileOp>, b: seq<FileOp>)
    ensures SyncsIn(a + b) == SyncsIn(a) + SyncsIn(b)
  {
    if |b| == 0 {
      assert a + b == a;
    } else {
      assert (a + b)[..|a + b| - 1] == a + b[..|b| - 1];
      SyncsAdd(a, b[..|b| - 1]);
    }
  }

  lemma AllRan(r: Refusals, syncs: nat, s: seq<FileOp>, now: nat)
    requires Ran(r, syncs, s, |s|, now)
    ensures StoppedAt(r, syncs, s, |s|, None)
  {
  }

  lemma RanOver(r: Refusals, syncs: nat, ops: seq<FileOp>, op: FileOp, now: nat)
    requires Ran(r, syncs, ops, |ops|, now)
    ensures Ran(r, syncs, ops + [op], |ops|, now)
  {
    forall i | 0 <= i <= |ops|
      ensures (ops + [op])[..i] == ops[..i]
    {
    }
    assert forall i :: 0 <= i < |ops| ==> r.At(syncs, ops + [op], i) == r.At(syncs, ops, i);
  }

  lemma StoppedEarlier(r: Refusals, syncs: nat, a: seq<FileOp>, b: seq<FileOp>, n: nat, e: Option<Error>)
    requires StoppedAt(r, syncs, a, n, e) && n < |a|
    ensures StoppedAt(r, syncs, a + b, n, e)
  {
    forall i | 0 <= i <= n
      ensures r.At(syncs, a + b, i) == r.At(syncs, a, i)
    {
      assert (a + b)[..i] == a[..i];
    }
  }

  /** A container with its map loaded, as Begin leaves it. */
  class Container {
    const p: Primitives
    const f: File
    const syncRefused: nat -> Option<Error>
    var header: Header
    var entries: Paths
    var syncs: nat

    constructor (p: Primitives, f: File, syncRefused: nat -> Option<Error>, header: Header, entries: Paths)
      ensures this.p == p && this.f == f && this.syncRefused == syncRefused
      ensures this.header == header && this.entries == entries && syncs == 0
    {
      this.p, this.f, this.syncRefused, this.header, this.entries, this.syncs := p, f, syncRefused, header, entries, 0;
    }

    function Refused(): Refusals
      reads f
    {
      Refusals(f.refuse, syncRefused)
    }

    /** `Sync`; a refused sync has no effect. */
    method Sync() returns (e: Option<Error>)
      requires f.Valid()
      modifies this`syncs, f`disk
      ensures f.Valid() && f.disk == if e.None? then Apply(old(f.disk), FileOp.Sync) else old(f.disk)
      ensures e == syncRefused(old(syncs)) && syncs == old(syncs) + 1
    {
      e := syncRefused(syncs);
      syncs := syncs + 1;
      if e.None? { f.disk := Apply(f.disk, FileOp.Sync); }
    }

    /** One file operation of a commit; if it fails it has no effect. */
    method Perform(op: FileOp) returns (e: Option<Error>)
      requires f.Valid()
      modifies this`syncs, f`disk
      ensures f.Valid() && f.disk == if e.None? then Apply(old(f.disk), op) else old(f.disk)
      ensures e == Refused().Answer(op, old(syncs)) && syncs == old(syncs) + if op.Sync? then 1 else 0
      ensures e.None? && op.WriteAt? ==> op.off < MAX_OFFSET
    {
      match op
      case WriteAt(off, data) => e := f.WriteAt(off, data);
      case Sync => e := Sync();
    }

    /** One more operation behind those already performed. */
    method Next(op: FileOp, ghost before: Disk, ghost ops: seq<FileOp>, ghost off: nat, ghost start: nat)
      returns (e: Option<Error>, ghost done: seq<FileOp>)
      requires f.Valid() && Went(before, f.disk, ops, off) && (op.Sync? || SlotWrite(op) || off <= op.off)
      requires Ran(Refused(), start, ops, |ops|, syncs)
      modifies this`syncs, f`disk
      ensures f.Valid() && Went(before, f.disk, done, off) && done == if e.None? then ops + [op] else ops
      ensures e.None? ==> Ran(Refused(), start, done, |done|, syncs)
      ensures e.Some? ==> StoppedAt(Refused(), start, ops + [op], |ops|, e)
      ensures e.None? && op.WriteAt? ==> op.off < MAX_OFFSET
    {
      hide Went, Apply, Ran, StoppedAt;
      WentOn(before, f.disk, ops, off, op);
      RanOver(Refused(), start, ops, op, syncs);
      RanMore(Refused(), start, ops + [op], |ops|, syncs);
      e := Perform(op);
      done := if e.None? then ops + [op] else ops;
    }

    /** Operation n of a script. */
    method Step(op: FileOp, ghost before: Disk, ghost s: seq<FileOp>, ghost n: nat, ghost start: nat)
      returns (e: Option<Error>)
      requires f.Valid() && n < |s| && s[n] == op && Performed(before, f.disk, s, n) && Ran(Refused(), start, s, n, syncs)
      modifies this`syncs, f`disk
      ensures f.Valid()
      ensures e.None? ==> Performed(before, f.disk, s, n + 1) && Ran(Refused(), start, s, n + 1, syncs)
      ensures e.Some? ==> Performed(before, f.disk, s, n) && StoppedAt(Refused(), start, s, n, e)
    {
      hide Performed, Apply, Ran, StoppedAt;
      PerformedMore(before, f.disk, s, n);
      RanMore(Refused(), start, s, n, syncs);
      e := Perform(op);
    }

    /** Records, sync, fixed slot, sync, primary slot, sync; stops at the first failure. */
    method Publish(j: nat, head: Bytes, tj: u64, tb: u64) returns (e: Option<Error>, ghost n: nat)
      requires f.Valid() && |head| == SLOT
      modifies this`syncs, f`disk
      ensures f.Valid() && Performed(old(f.disk), f.disk, PublishScript(p, j, head, tj, tb), n)
      ensures StoppedAt(Refused(), old(syncs), PublishScript(p, j, head, tj, tb), n, e)
    {
      hide Performed, RecordBytes, Apply, PublishScript, Ran, StoppedAt;
      ghost var d0, s, start := f.disk, PublishScript(p, j, head, tj, tb), syncs;
      PublishOps(p, j, head, tj, tb);
      n := 0;
      PerformedNone(d0, s);
      RanNone(Refused(), old(syncs), s);
      e := Step(FileOp.WriteAt(j, RecordBytes(p, MAGIC_JOURNAL, head, tj)), d0, s, 0, start);
      if e.Some? { return; }
      n := 1;
      e := Step(FileOp.WriteAt(j + RECORD_SIZE, RecordBytes(p, MAGIC_BACKUP, head, tb)), d0, s, 1, start);
      if e.Some? { return; }
      n := 2;
      e := Step(FileOp.Sync, d0, s, 2, start);
      if e.Some? { return; }
      n := 3;
      e := Step(FileOp.WriteAt(SLOT, head), d0, s, 3, start);
      if e.Some? { return; }
      n := 4;
      e := Step(FileOp.Sync, d0, s, 4, start);
      if e.Some? { return; }
      n := 5;
      e := Step(FileOp.WriteAt(0, head), d0, s, 5, start);
      if e.Some? { return; }
      n := 6;
      e := Step(FileOp.Sync, d0, s, 6, start);
      if e.Some? { return; }
      n := 7;
      AllRan(Refused(), start, s, syncs);
    }
  }

  lemma PublishOps(p: Primitives, j: nat, head: Bytes, tj: u64, tb: u64)
    requires |head| == SLOT
    ensures var s := PublishScript(p, j, head, tj, tb);
            && s[0] == FileOp.WriteAt(j, RecordBytes(p, MAGIC_JOURNAL, head, tj))
            && s[1] == FileOp.WriteAt(j + RECORD_SIZE, RecordBytes(p, MAGIC_BACKUP, head, tb))
            && s[2] == s[4] == s[6] == FileOp.Sync
            && s[3] == FileOp.WriteAt(SLOT, head) && s[5] == FileOp.WriteAt(0, head)
  {
    hide RecordBytes;
  }

  /** What an operation did: the state and error are those of its specification, and the file gained its log. */
  ghost predicate Did(r: OpResult, t: TxState, e: Option<Error>, before: Disk, after: Disk, off: nat)
  {
    && AllWrites(before.pending) && AllWrites(after.pending)
    && t == r.t && e == r.e && Reached(before, after, off, r.log)
  }

  /** t after entry e of it was marked dead: its stored bytes and one operation more are counted, up to the largest
      number. */
  ghost function Marked(t: TxState, e: Entry): TxState
  {
    t.(dead := Cap(t.dead + StoredBytes(e.chunks)), churn := Cap(t.churn + 1))
  }

  lemma ObsoleteKeeps(t: TxState, path: Bytes)
    ensures path in t.entries ==> var u := Obsolete(t, t.entries[path]); u.off == t.off && u.entries == t.entries && !u.closed == !t.closed
  {
  }

  lemma ObsoleteMarks(t: TxState, e: Entry)
    ensures Obsolete(t, e) == Marked(t, e)
  {
  }

  /** What writing a source under a path makes of t: the offset moves behind what was appended; on success the map has
      one new or changed entry, with the references and the size of what was written and the attributes asked for; on
      failure it is as it was, and so is everything without a source. */
  ghost predicate Stored(p: Primitives, t: TxState, u: TxState, path: Bytes, src: Option<Source>, meta: Bytes,
      a: WriteArgs, refuse: Refuse, e: Option<Error>)
  {
    if src.None? then e == Some(InvalidFormat) && u == t
    else
      var w := Written(Settings(p, a.codec, a.level, a.size, a.maxEntry), src.value, t.off, refuse);
      && u.off == t.off + |w.log| && u.dead == t.dead && u.churn == t.churn && u.closed == t.closed
      && match w.result
         case Err(x) => e == Some(x) && u.entries == t.entries
         case Ok((refs, size)) =>
           && e.None? && u.entries.Keys == t.entries.Keys + {path}
           && (forall k :: k in t.entries && k != path ==> u.entries[k] == t.entries[k])
           && var x := u.entries[path];
              && x.path == path && x.fileSize == size && x.chunks == refs && x.meta == meta
              && x.mtime == a.mtime && x.mode == a.mode && x.flags == a.flags
  }

  /** What of that the file has gained. */
  ghost function Appended(p: Primitives, off: nat, src: Option<Source>, a: WriteArgs, refuse: Refuse): Bytes
  {
    if src.None? then [] else Written(Settings(p, a.codec, a.level, a.size, a.maxEntry), src.value, off, refuse).log
  }

  lemma PutStores(p: Primitives, t: TxState, path: Bytes, src: Option<Source>, meta: Bytes, a: WriteArgs, refuse: Refuse)
    ensures var r := PutEntry(p, t, path, src, meta, a, refuse);
            Stored(p, t, r.t, path, src, meta, a, refuse, r.e) && r.log == Appended(p, t.off, src, a, refuse)
  {
    hide Written;
  }

  /** The entries whose paths are in done have the new metadata, the others are as they were. */
  ghost predicate MetaSet(had: Paths, now: Paths, metas: map<Bytes, Bytes>, done: set<Bytes>)
  {
    && now.Keys == had.Keys && done <= metas.Keys
    && forall k :: k in now ==> now[k] == if k in done then had[k].(meta := metas[k]) else had[k]
  }

  lemma MetaPresent(had: Paths, now: Paths, metas: map<Bytes, Bytes>, done: set<Bytes>, k: Bytes)
    requires MetaSet(had, now, metas, done) && k in metas && k !in done && k in now
    ensures MetaSet(had, now[k := now[k].(meta := metas[k])], metas, done + {k})
  {
    var next := now[k := now[k].(meta := metas[k])];
    assert next.Keys == now.Keys;
  }

  lemma MetaMissing(had: Paths, now: Paths, metas: map<Bytes, Bytes>, done: set<Bytes>, k: Bytes)
    requires MetaSet(had, now, metas, done) && k in metas && k !in now
    ensures MetaSet(had, now, metas, done + {k})
  {
  }

  lemma CountMore(done: set<Bytes>, keys: set<Bytes>, k: Bytes)
    requires k !in done
    ensures |(done + {k}) * keys| == |done * keys| + (if k in keys then 1 else 0)
    ensures |(done + {k}) - keys| == |done - keys| + (if k in keys then 0 else 1)
  {
    if k in keys {
      assert (done + {k}) * keys == done * keys + {k};
      assert (done + {k}) - keys == done - keys;
    } else {
      assert (done + {k}) * keys == done * keys;
      assert (done + {k}) - keys == (done - keys) + {k};
    }
  }

  lemma StillMissing(all: set<Bytes>, done: set<Bytes>, todo: set<Bytes>, keys: set<Bytes>, k: Bytes)
    requires Parts(all, done, todo) && k in todo && k !in keys
    ensures !(all <= keys)
  {
    assert k in all;
  }

  lemma MetaKeys(had: Paths, now: Paths, metas: map<Bytes, Bytes>, done: set<Bytes>)
    requires MetaSet(had, now, metas, done)
    ensures now.Keys == had.Keys
  {
  }

  lemma NoMetaSet(had: Paths, metas: map<Bytes, Bytes>)
    ensures MetaSet(had, had, metas, {})
  {
  }

  /** What SetMetaMany reports: all keys done, unless a missing key was met that had to be there. */
  ghost predicate MetasReported(keys: set<Bytes>, metas: map<Bytes, Bytes>, ignoreMissing: bool, done: set<Bytes>,
                                updated: nat, missing: nat, e: Option<Error>)
  {
    && updated == |done * keys| && missing == |done - keys|
    && if ignoreMissing || metas.Keys <= keys then e.None? && done == metas.Keys else e == Some(NotFound) && done <= keys
  }

  /** The loop of `SetMetaMany`, over the map's keys in any order: all keys are updated, or, unless missing ones are
      ignored, the first missing key met ends the work with some of the others already updated. */
  method SetMetas(had: Paths, metas: map<Bytes, Bytes>, ignoreMissing: bool)
    returns (now: Paths, updated: nat, missing: nat, e: Option<Error>, ghost done: set<Bytes>)
    ensures MetaSet(had, now, metas, done) && MetasReported(had.Keys, metas, ignoreMissing, done, updated, missing, e)
  {
    hide MetaSet, Parts;
    now, updated, missing, e, done := had, 0, 0, None, {};
    NoMetaSet(had, metas);
    var todo := metas.Keys;
    PartsStart(metas.Keys);
    while todo != {}
      invariant Parts(metas.Keys, done, todo) && MetaSet(had, now, metas, done)
      invariant updated == |done * had.Keys| && missing == |done - had.Keys|
      invariant !ignoreMissing ==> done <= had.Keys
      decreases |todo|
    {
      var k :| k in todo;
      MetaKeys(had, now, metas, done);
      if k !in now && !ignoreMissing {
        StillMissing(metas.Keys, done, todo, had.Keys, k);
        return now, updated, missing, Some(NotFound), done;
      }
      PartsStep(metas.Keys, done, todo, k);
      CountMore(done, had.Keys, k);
      if k !in now {
        MetaMissing(had, now, metas, done, k);
        missing := missing + 1;
      } else {
        MetaPresent(had, now, metas, done, k);
        now := now[k := now[k].(meta := metas[k])];
        updated := updated + 1;
      }
      todo, done := todo - {k}, done + {k};
    }
    PartsEnd(metas.Keys, done);
  }

  ghost predicate Plannable(p: Primitives, h: Header, q: Request)
  {
    Committable(p, h, q) && PlanOf(p, h, q).Some?
  }

  function BlobOps(off: nat, dirBlob: Bytes, idxBlob: Bytes): (s: seq<FileOp>)
    ensures |s| == 3
  {
    [FileOp.WriteAt(off, dirBlob), FileOp.WriteAt(off + |dirBlob|, idxBlob), FileOp.Sync]
  }

  lemma EncodeLength(p: Primitives, d: Dir)
    requires Encode(p, d).Ok?
    ensures |Encode(p, d).value.0| >= FOOTER_SIZE
  {
    hide DirBytes, SortByPath, DeriveAll;
    PrintedLayout(p, DeriveAll(p, SortByPath(d.entries)), d.buildUnix);
  }

  /** What the first half of a commit computes is what is planned. */
  lemma BlobsPlanned(p: Primitives, h: Header, q: Request, es: seq<Entry>)
    requires Plannable(p, h, q) && UniquePaths(es) && Lists(es, q.entries)
    ensures var plan := PlanOf(p, h, q).value;
            && Encode(p, Dir(0, 0, q.build, es)) == Ok((plan.dirBlob, DirCRCOf(p, q)))
            && FOOTER_SIZE <= |plan.dirBlob| < MAX_OFFSET && |plan.idxBlob| < MAX_OFFSET && q.appendOff < MAX_OFFSET
            && BuildIndex(p, plan.dirBlob, q.appendOff, DirCRCOf(p, q),
              NextGeneration(Generation(h))) == Ok(plan.idxBlob)
  {
    hide PlanOf, DirOf, DirCRCOf, BuildIndex, Encode, NextGeneration, Generation, RefsIntact, EncodedEntries;
    EncodesPlanned(p, q, es);
    PlanComputes(p, h, q);
  }

  ghost predicate EncodedAsPlanned(p: Primitives, h: Header, q: Request, r: Result<(Bytes, u32)>)
    requires Plannable(p, h, q)
  {
    var plan := PlanOf(p, h, q).value;
    && r == Ok((plan.dirBlob, DirCRCOf(p, q))) && q.appendOff < MAX_OFFSET && FOOTER_SIZE <= |plan.dirBlob|
    && |plan.idxBlob| < MAX_OFFSET
    && BuildIndex(p, plan.dirBlob, q.appendOff, DirCRCOf(p, q), NextGeneration(Generation(h))) == Ok(plan.idxBlob)
  }

  /** The plan's script in its two parts. */
  ghost predicate TwoParts(p: Primitives, h: Header, q: Request, plan: Plan)
  {
    var j := q.appendOff + |plan.dirBlob| + |plan.idxBlob|;
    && j < MAX_OFFSET
    && plan.h == NextHeader(p, h, q.dead, q.churn, q.appendOff, plan.dirBlob, DirCRCOf(p, q), q.appendOff + |plan.dirBlob|, plan.idxBlob, j)
    && plan.script == BlobOps(q.appendOff, plan.dirBlob, plan.idxBlob)
                      + PublishScript(p, j, HeaderBytes(plan.h), q.tsJournal, q.tsBackup)
  }

  lemma ScriptPlanned(p: Primitives, h: Header, q: Request)
    requires Plannable(p, h, q)
    ensures TwoParts(p, h, q, PlanOf(p, h, q).value)
  {
    hide NextHeader, Script, NextGeneration, Committable, BuildIndex, Generation, DirCRCOf, RecordBytes, HeaderBytes,
      DirOf,
         PublishScript, PlanOf;
    PlanComputes(p, h, q);
    var plan := PlanOf(p, h, q).value;
    ScriptTwoParts(p, q.appendOff, plan.dirBlob, plan.idxBlob, HeaderBytes(plan.h), q.tsJournal, q.tsBackup);
  }

  /** Blobs as the first half of a commit leaves them. */
  datatype Blobs = Blobs(dirOffset: u64, dirBlob: Bytes, crc: u32, idxOffset: u64, idxBlob: Bytes)

  /** The first k operations of a commit. */
  function FirstOps(off: nat, dirBlob: Bytes, idxBlob: Bytes, k: nat): (s: seq<FileOp>)
    requires k <= 3
    ensures |s| == k
  {
    BlobOps(off, dirBlob, idxBlob)[..k]
  }

  lemma FirstOpsAre(off: nat, dirBlob: Bytes, idxBlob: Bytes)
    ensures FirstOps(off, dirBlob, idxBlob, 0) == []
    ensures FirstOps(off, dirBlob, idxBlob, 1) == [] + [FileOp.WriteAt(off, dirBlob)]
    ensures FirstOps(off, dirBlob, idxBlob, 2)
            == [] + [FileOp.WriteAt(off, dirBlob)] + [FileOp.WriteAt(off + |dirBlob|, idxBlob)]
    ensures BlobOps(off, dirBlob, idxBlob)
            == [] + [FileOp.WriteAt(off, dirBlob)] + [FileOp.WriteAt(off + |dirBlob|, idxBlob)] + [FileOp.Sync]
    ensures FirstOps(off, dirBlob, idxBlob, 3) == BlobOps(off, dirBlob, idxBlob)
  {
  }

  lemma PublishWent(p: Primitives, before: Disk, mid: Disk, now: Disk, ops: seq<FileOp>, off: nat, j: nat, head: Bytes,
      tj: u64, tb: u64, m: nat)
    requires |head| == SLOT && off <= j && Went(before, mid, ops, off)
    requires Performed(mid, now, PublishScript(p, j, head, tj, tb), m)
    ensures m <= 7 && Went(before, now, ops + PublishScript(p, j, head, tj, tb)[..m], off)
  {
    hide RecordBytes, Apply, View, ApplyAll;
    var s := PublishScript(p, j, head, tj, tb);
    assert Performed(mid, now, s[..m], m) by { assert s[..m][..m] == s[..m]; }
    PerformedParts(before, mid, now, ops, s[..m], m);
    assert forall op :: op in s[..m] ==> op in s;
  }

  /** Half a commit done as planned, or stopped at some operation of the plan. */
  ghost predicate BlobsDone(p: Primitives, h: Header, q: Request, r: Result<Blobs>, ops: seq<FileOp>)
    requires Plannable(p, h, q)
  {
    var plan := PlanOf(p, h, q).value;
    match r
    case Ok(b) => b.dirBlob == plan.dirBlob && b.crc == DirCRCOf(p, q) && b.idxBlob == plan.idxBlob
    case Err(_) => |ops| < 3 && ops == FirstOps(q.appendOff, plan.dirBlob, plan.idxBlob, |ops|)
  }

  /** What the operations of the first half mean for the disk. */
  lemma BlobsPerformed(d: Disk, e: Disk, off: nat, dirBlob: Bytes, idxBlob: Bytes, ops: seq<FileOp>)
    requires Went(d, e, ops, off) && |ops| <= 3 && ops == FirstOps(off, dirBlob, idxBlob, |ops|)
    ensures Performed(d, e, BlobOps(off, dirBlob, idxBlob), |ops|)
  {
    assert ops[..|ops|] == ops;
  }

  /** A commit that stops during its first three operations has performed the plan up to there. */
  lemma StoppedEarly(p: Primitives, h: Header, q: Request, r: Result<Blobs>, d: Disk, e: Disk, ops: seq<FileOp>)
    requires Plannable(p, h, q) && BlobsDone(p, h, q, r, ops) && r.Err? && Went(d, e, ops, q.appendOff)
    ensures Performed(d, e, PlanOf(p, h, q).value.script, |ops|) && |ops| < |PlanOf(p, h, q).value.script|
  {
    hide Performed, Went, PlanOf, BlobOps, PublishScript, NextHeader, DirCRCOf, Committable;
    var plan := PlanOf(p, h, q).value;
    BlobsPerformed(d, e, q.appendOff, plan.dirBlob, plan.idxBlob, ops);
    ScriptPlanned(p, h, q);
    PerformedPrefix(d, e, BlobOps(q.appendOff, plan.dirBlob, plan.idxBlob),
                    PublishScript(p, q.appendOff + |plan.dirBlob| + |plan.idxBlob|, HeaderBytes(plan.h), q.tsJournal,
                                  q.tsBackup), |ops|);
  }

  lemma StoppedInScript(r: Refusals, syncs: nat, p: Primitives, h: Header, q: Request, n: nat, e: Error)
    requires Plannable(p, h, q) && n < 3
    requires var plan := PlanOf(p, h, q).value;
             StoppedAt(r, syncs, BlobOps(q.appendOff, plan.dirBlob, plan.idxBlob), n, Some(e))
    ensures StoppedAt(r, syncs, PlanOf(p, h, q).value.script, n, Some(e))
  {
    hide StoppedAt, PlanOf, BlobOps, PublishScript, NextHeader, DirCRCOf, Committable;
    var plan := PlanOf(p, h, q).value;
    ScriptPlanned(p, h, q);
    StoppedEarlier(r, syncs, BlobOps(q.appendOff, plan.dirBlob, plan.idxBlob),
                   PublishScript(p, q.appendOff + |plan.dirBlob| + |plan.idxBlob|, HeaderBytes(plan.h), q.tsJournal, q.tsBackup),
                   n, Some(e));
  }

  /** The operation that stopped the first half of a commit is the next one of its script. */
  lemma StoppedBlobs(c: Container, q: Request, start: nat, ops: seq<FileOp>, op: FileOp, e: Option<Error>)
    requires Plannable(c.p, c.header, q) && |ops| < 3
    requires var plan := PlanOf(c.p, c.header, q).value;
             FirstOps(q.appendOff, plan.dirBlob, plan.idxBlob, |ops| + 1) == ops + [op]
    requires e.Some? && StoppedAt(c.Refused(), start, ops + [op], |ops|, e)
    ensures var plan := PlanOf(c.p, c.header, q).value;
            StoppedAt(c.Refused(), start, BlobOps(q.appendOff, plan.dirBlob, plan.idxBlob), |ops|, e)
  {
    hide BlobOps, StoppedAt, PlanOf, Committable;
    var plan := PlanOf(c.p, c.header, q).value;
    var s := BlobOps(q.appendOff, plan.dirBlob, plan.idxBlob);
    assert s == (ops + [op]) + s[|ops| + 1..];
    StoppedEarlier(c.Refused(), start, ops + [op], s[|ops| + 1..], |ops|, e);
  }

  class Tx {
    const c: Container
    var entries: Paths
    var appendOffset: nat
    var deadBytes: u64
    var churnOps: u64
    var closed: bool

    /** `Begin`, once the map is loaded: a private copy of the map, appending at the end of the file. */
    constructor (c: Container)
      requires c.f.Valid()
      ensures this.c == c && State() == TxState(c.entries, |View(c.f.disk)|, 0, 0, false)
    {
      this.c, entries, deadBytes, churnOps, closed := c, c.entries, 0, 0, false;
      appendOffset := |View(c.f.disk)|;
    }

    function State(): TxState
      reads this
    {
      TxState(entries, appendOffset, deadBytes, churnOps, closed)
    }

    method MarkObsolete(e: Entry)
      modifies this
      ensures State() == Obsolete(old(State()), e)
    {
      var total: u64 := 0;
      for i := 0 to |e.chunks|
        invariant total == EntryStored(e.chunks[..i])
        invariant State() == old(State())
      {
        assert e.chunks[..i + 1][..i] == e.chunks[..i];
        total := SaturatingAdd(total, e.chunks[i].compSize + CHUNK_HEADER);
      }
      assert e.chunks[..|e.chunks|] == e.chunks;
      deadBytes := SaturatingAdd(deadBytes, total);
      churnOps := SaturatingAdd(churnOps, 1);
    }

    /** `writeEntry` with one worker, followed by the assignment to the map. */
    method Put(path: Bytes, src: Option<Source>, meta: Bytes, a: WriteArgs) returns (e: Option<Error>)
      requires c.f.Valid()
      modifies this, c.f`disk
      ensures c.f.Valid() && Did(PutEntry(c.p, old(State()), path, src, meta, a, c.f.refuse), State(), e,
        old(c.f.disk), c.f.disk, old(appendOffset))
      ensures Stored(c.p, old(State()), State(), path, src, meta, a, c.f.refuse, e)
    {
      hide Written, Reached, View, Stored;
      PutStores(c.p, State(), path, src, meta, a, c.f.refuse);
      if src.None? {
        StartReached(c.f.disk, appendOffset);
        return Some(InvalidFormat);
      }
      var r, end := WriteSequential(c.f, SettingsOf(c.p, a), src.value, appendOffset);
      appendOffset := end;
      if r.Err? { return Some(r.error); }
      entries := entries[path := NewEntry(path, meta, a, r.value.0, r.value.1)];
      e := None;
    }

    method Add(path: Bytes, src: Option<Source>, meta: Bytes, a: WriteArgs) returns (e: Option<Error>)
      requires c.f.Valid()
      modifies this, c.f`disk
      ensures c.f.Valid() && Did(AddOp(c.p, old(State()), path, src, meta, a, c.f.refuse), State(), e, old(c.f.disk),
        c.f.disk, old(appendOffset))
      ensures old(closed) ==> e == Some(ClosedPipe) && State() == old(State()) && c.f.disk == old(c.f.disk)
      ensures !old(closed) && path in old(entries) ==>
                e == Some(AlreadyExists) && State() == old(State()) && c.f.disk == old(c.f.disk)
      ensures !old(closed) && path !in old(entries) ==>
                && Stored(c.p, old(State()), State(), path, src, meta, a, c.f.refuse, e)
                && Reached(old(c.f.disk), c.f.disk, old(appendOffset), Appended(c.p, old(appendOffset), src, a, c.f.refuse))
    {
      hide PutEntry, Reached, View, Stored, Appended;
      PutStores(c.p, State(), path, src, meta, a, c.f.refuse);
      StartReached(c.f.disk, appendOffset);
      if closed { return Some(ClosedPipe); }
      if path in entries { return Some(AlreadyExists); }
      e := Put(path, src, meta, a);
    }

    method Upsert(path: Bytes, src: Option<Source>, meta: Bytes, a: WriteArgs) returns (e: Option<Error>)
      requires c.f.Valid()
      modifies this, c.f`disk
      ensures c.f.Valid() && Did(UpsertOp(c.p, old(State()), path, src, meta, a, c.f.refuse), State(), e,
        old(c.f.disk), c.f.disk, old(appendOffset))
      ensures old(closed) ==> e == Some(ClosedPipe) && State() == old(State()) && c.f.disk == old(c.f.disk)
      ensures !old(closed) ==>
                var t := old(State());
                && Stored(c.p, if path in t.entries then Marked(t, t.entries[path]) else t, State(), path, src, meta, a,
                          c.f.refuse, e)
                && Reached(old(c.f.disk), c.f.disk, t.off, Appended(c.p, t.off, src, a, c.f.refuse))
    {
      hide PutEntry, Reached, View, Obsolete, Marked, Stored, Appended;
      StartReached(c.f.disk, appendOffset);
      if closed { return Some(ClosedPipe); }
      ghost var t := if path in entries then Obsolete(State(), entries[path]) else State();
      if path in entries { ObsoleteMarks(State(), entries[path]); }
      ObsoleteKeeps(State(), path);
      PutStores(c.p, t, path, src, meta, a, c.f.refuse);
      if path in entries { MarkObsolete(entries[path]); }
      e := Put(path, src, meta, a);
    }

    method Replace(path: Bytes, src: Option<Source>, meta: Bytes, a: WriteArgs) returns (e: Option<Error>)
      requires c.f.Valid()
      modifies this, c.f`disk
      ensures c.f.Valid() && Did(ReplaceOp(c.p, old(State()), path, src, meta, a, c.f.refuse), State(), e,
        old(c.f.disk), c.f.disk, old(appendOffset))
      ensures old(closed) ==> e == Some(ClosedPipe) && State() == old(State()) && c.f.disk == old(c.f.disk)
      ensures !old(closed) && path !in old(entries) ==>
                e == Some(NotFound) && State() == old(State()) && c.f.disk == old(c.f.disk)
      ensures !old(closed) && path in old(entries) ==>
                var t := old(State());
                && Stored(c.p, Marked(t, t.entries[path]), State(), path, src, meta, a, c.f.refuse, e)
                && Reached(old(c.f.disk), c.f.disk, t.off, Appended(c.p, t.off, src, a, c.f.refuse))
    {
      hide PutEntry, Reached, View, Obsolete, Marked, Stored, Appended;
      StartReached(c.f.disk, appendOffset);
      if closed { return Some(ClosedPipe); }
      if path !in entries { return Some(NotFound); }
      ObsoleteMarks(State(), entries[path]);
      ObsoleteKeeps(State(), path);
      PutStores(c.p, Obsolete(State(), entries[path]), path, src, meta, a, c.f.refuse);
      MarkObsolete(entries[path]);
      e := Put(path, src, meta, a);
    }

    method Remove(path: Bytes) returns (e: Option<Error>)
      modifies this
      ensures State() == RemoveOp(old(State()), path).t && e == RemoveOp(old(State()), path).e
      ensures old(closed) ==> e == Some(ClosedPipe) && State() == old(State())
      ensures !old(closed) && path !in old(entries) ==> e == Some(NotFound) && State() == old(State())
      ensures !old(closed) && path in old(entries) ==>
                var t := old(State()); e.None? && State() == Marked(t, t.entries[path]).(entries := t.entries - {path})
    {
      hide EntryStored, SaturatingAdd, Marked, Obsolete;
      if path in entries { ObsoleteMarks(State(), entries[path]); }
      ObsoleteKeeps(State(), path);
      if closed { return Some(ClosedPipe); }
      if path !in entries { return Some(NotFound); }
      MarkObsolete(entries[path]);
      entries := entries - {path};
      e := None;
    }

    method RemoveMany(paths: seq<Bytes>) returns (removed: nat, e: Option<Error>)
      modifies this
      ensures if old(closed) then State() == old(State()) && removed == 0 && e == Some(ClosedPipe)
              else (State(), removed) == RemoveListed(old(State()), paths, |paths|) && e.None?
      ensures !old(closed) ==>
                var gone := set k | k in old(entries) && k in paths; Swept(old(State()), State(), gone) && removed == |gone|
    {
      hide EntryStored, SaturatingAdd, Swept;
      RemoveListedSweeps(State(), paths, |paths|);
      assert paths[..|paths|] == paths && Listed(entries, paths, |paths|) == set k | k in entries && k in paths;
      removed, e := 0, None;
      if closed { return 0, Some(ClosedPipe); }
      for i := 0 to |paths|
        invariant (State(), removed) == RemoveListed(old(State()), paths, i)
      {
        if paths[i] in entries {
          MarkObsolete(entries[paths[i]]);
          entries := entries - {paths[i]};
          removed := removed + 1;
        }
      }
    }

    /** `RemoveWhere`; no predicate stands for a nil function. */
    method RemoveWhere(select: Option<Entry -> bool>) returns (removed: nat, e: Option<Error>)
      modifies this
      ensures if old(closed) then State() == old(State()) && removed == 0 && e == Some(ClosedPipe)
              else if select.None? then State() == old(State()) && removed == 0 && e == Some(InvalidFormat)
              else
                && e.None? && removed == |Selection(select.value, old(entries))|
                && Swept(old(State()), State(), Selection(select.value, old(entries)))
                && Selection(select.value, old(entries)) == set k | k in old(entries) && select.value(old(entries)[k])
    {
      hide Swept;
      removed, e := 0, None;
      if closed { return 0, Some(ClosedPipe); }
      if select.None? { return 0, Some(InvalidFormat); }
      var u;
      u, removed := SweepOut(State(), select.value);
      SweptKeeps(State(), u, Selection(select.value, entries));
      entries, deadBytes, churnOps := u.entries, u.dead, u.churn;
    }

    method SetMeta(path: Bytes, meta: Bytes) returns (e: Option<Error>)
      modifies this
      ensures State() == SetMetaOp(old(State()), path, meta).t && e == SetMetaOp(old(State()), path, meta).e
      ensures old(closed) ==> e == Some(ClosedPipe) && State() == old(State())
      ensures !old(closed) && path !in old(entries) ==> e == Some(NotFound) && State() == old(State())
      ensures !old(closed) && path in old(entries) ==>
                && e.None? && State() == old(State()).(entries := entries) && entries.Keys == old(entries).Keys
                && (forall k :: k in entries && k != path ==> entries[k] == old(entries)[k])
                && entries[path].meta == meta && entries[path] == old(entries)[path].(meta := entries[path].meta)
    {
      if closed { return Some(ClosedPipe); }
      if path !in entries { return Some(NotFound); }
      entries := entries[path := entries[path].(meta := meta)];
      e := None;
    }

    /** `SetMetaMany`. */
    method SetMetaMany(metas: map<Bytes, Bytes>, ignoreMissing: bool)
      returns (updated: nat, missing: nat, e: Option<Error>, ghost done: set<Bytes>)
      modifies this
      ensures State() == old(State()).(entries := entries) && MetaSet(old(entries), entries, metas, done)
      ensures old(closed) ==> done == {} && e == Some(ClosedPipe)
      ensures !old(closed) ==> MetasReported(old(entries).Keys, metas, ignoreMissing, done, updated, missing, e)
    {
      hide MetaSet, MetasReported;
      done := {};
      NoMetaSet(entries, metas);
      if closed { return 0, 0, Some(ClosedPipe), {}; }
      var now;
      now, updated, missing, e, done := SetMetas(entries, metas, ignoreMissing);
      entries := now;
    }

    /** The directory of the transaction's map, in whatever order it is ranged over.  (No buffer is 2^63 bytes long; the
        model says so where lengths become header fields.) */
    method EncodeMap(build: u64, ghost q: Request) returns (r: Result<(Bytes, u32)>)
      requires Keyed(entries) && q.entries == entries && q.build == build
      ensures r.Ok? ==> FOOTER_SIZE <= |r.value.0| < MAX_OFFSET
      ensures Plannable(c.p, c.header, q) ==> EncodedAsPlanned(c.p, c.header, q, r)
    {
      hide Encode, BuildIndex, Plannable, NextGeneration, Generation, Keyed, UniquePaths, Lists, BlobOps;
      var es := Collect(entries);
      if Plannable(c.p, c.header, q) { BlobsPlanned(c.p, c.header, q, es); }
      var encoded := Encode(c.p, Dir(0, 0, build, es));
      if encoded.Err? { return Err(encoded.error); }
      EncodeLength(c.p, Dir(0, 0, build, es));
      if |encoded.value.0| >= MAX_OFFSET { return Err(IO); }
      r := encoded;
    }

    /** The first half of `Commit`: encodes and appends the directory, then its index, and syncs. */
    method AppendBlobs(build: u64, ghost q: Request) returns (r: Result<Blobs>, ghost ops: seq<FileOp>)
      requires c.f.Valid() && Keyed(entries)
      requires q.entries == entries && q.appendOff == appendOffset && q.build == build
      modifies this`appendOffset, c`syncs, c.f`disk
      ensures c.f.Valid() && Went(old(c.f.disk), c.f.disk, ops, old(appendOffset)) && old(appendOffset) <= appendOffset
      ensures r.Ok? ==> var b := r.value;
                && b.dirOffset == old(appendOffset) && b.idxOffset == b.dirOffset + |b.dirBlob|
                && appendOffset == b.idxOffset + |b.idxBlob| < U64
                && |b.dirBlob| < MAX_OFFSET && |b.idxBlob| < MAX_OFFSET
                && ops == BlobOps(b.dirOffset, b.dirBlob, b.idxBlob)
      ensures r.Ok? ==> Ran(c.Refused(), old(c.syncs), ops, |ops|, c.syncs)
      ensures Plannable(c.p, c.header, q) ==> BlobsDone(c.p, c.header, q, r, ops)
      ensures Plannable(c.p, c.header, q) && r.Err? ==>
                var plan := PlanOf(c.p, c.header, q).value;
                StoppedAt(c.Refused(), old(c.syncs), BlobOps(q.appendOff, plan.dirBlob, plan.idxBlob), |ops|, Some(r.error))
    {
      hide Ran, StoppedAt, Performed, Went, BlobOps, FirstOps, BuildIndex, PlanOf, Committable, DirCRCOf, Apply, NextGeneration,
        Generation, Keyed, View;
      ghost var d0, off := c.f.disk, appendOffset;
      ghost var start := c.syncs;
      ops := [];
      WentNowhere(d0, off);
      RanNone(c.Refused(), start, ops);
      if Plannable(c.p, c.header, q) {
        FirstOpsAre(off, PlanOf(c.p, c.header, q).value.dirBlob, PlanOf(c.p, c.header, q).value.idxBlob);
      }
      var encoded := EncodeMap(build, q);
      if encoded.Err? { return Err(encoded.error), ops; }
      var dirBlob, crc := encoded.value.0, encoded.value.1;
      var dirOffset, e := appendOffset, None;
      e, ops := c.Next(FileOp.WriteAt(dirOffset, dirBlob), d0, ops, off, start);
      if e.Some? {
        if Plannable(c.p, c.header, q) { StoppedBlobs(c, q, start, ops, FileOp.WriteAt(dirOffset, dirBlob), e); }
        return Err(e.value), ops;
      }
      appendOffset := appendOffset + |dirBlob|;
      var built := BuildIndex(c.p, dirBlob, dirOffset, crc, NextGeneration(Generation(c.header)));
      if built.Err? { return Err(built.error), ops; }
      var idxOffset := appendOffset;
      if |built.value| >= MAX_OFFSET { return Err(IO), ops; }
      e, ops := c.Next(FileOp.WriteAt(idxOffset, built.value), d0, ops, off, start);
      if e.Some? {
        if Plannable(c.p, c.header, q) { StoppedBlobs(c, q, start, ops, FileOp.WriteAt(idxOffset, built.value), e); }
        return Err(e.value), ops;
      }
      appendOffset := appendOffset + |built.value|;
      e, ops := c.Next(FileOp.Sync, d0, ops, off, start);
      if e.Some? {
        if Plannable(c.p, c.header, q) { StoppedBlobs(c, q, start, ops, FileOp.Sync, e); }
        return Err(e.value), ops;
      }
      FirstOpsAre(dirOffset, dirBlob, built.value);
      return Ok(Blobs(dirOffset, dirBlob, crc, idxOffset, built.value)), ops;
    }

    /** `Commit`.  It closes the transaction in every case.  Whatever map it is given, and wherever it stops, all it has
        done to the file is a sequence of syncs, of whole header slots, and of writes behind the place where the
        transaction would have appended next.  For a map with a plan, that is the planned script: all of it on success,
        and then the container has the new header and map; some part of it on failure, and then it has kept both. */
    method Commit(build: u64, tj: u64, tb: u64) returns (e: Option<Error>, ghost ops: seq<FileOp>)
      requires c.f.Valid() && Keyed(entries)
      modifies this, c`header, c`entries, c`syncs, c.f`disk
      ensures c.f.Valid() && (e.Some? ==> c.header == old(c.header) && c.entries == old(c.entries))
      ensures old(closed) ==> e == Some(ClosedPipe) && c.f.disk == old(c.f.disk) && State() == old(State())
      ensures State() == old(State()).(off := appendOffset, closed := true)
      ensures Went(old(c.f.disk), c.f.disk, ops, old(appendOffset)) && (e.None? ==> |ops| == 10)
      ensures var q := Request(old(entries), old(appendOffset), old(deadBytes), old(churnOps), build, tj, tb);
              !old(closed) && Plannable(c.p, old(c.header), q) ==>
                var plan := PlanOf(c.p, old(c.header), q).value;
                && Performed(old(c.f.disk), c.f.disk, plan.script, |ops|)
                && StoppedAt(c.Refused(), old(c.syncs), plan.script, |ops|, e)
                && (e.None? ==> c.header == plan.h && c.entries == entries)
    {
      hide Performed, Went, BlobOps, PublishScript, Plannable, PlanOf, NextHeader, HeaderBytes, DirCRCOf, View, Apply,
        Keyed, Ran, StoppedAt;
      ghost var q := Request(entries, appendOffset, deadBytes, churnOps, build, tj, tb);
      ghost var planned, d0, off := Plannable(c.p, c.header, q), c.f.disk, appendOffset;
      if closed {
        WentNowhere(d0, off);
        return Some(ClosedPipe), [];
      }
      if planned { ScriptPlanned(c.p, c.header, q); }
      var r;
      r, ops := AppendBlobs(build, q);
      if r.Err? {
        if planned {
          StoppedEarly(c.p, c.header, q, r, d0, c.f.disk, ops);
          StoppedInScript(c.Refused(), old(c.syncs), c.p, c.header, q, |ops|, r.error);
        }
        closed := true;
        return Some(r.error), ops;
      }
      var b := r.value;
      var h := NextHeader(c.p, c.header, deadBytes, churnOps, b.dirOffset, b.dirBlob, b.crc, b.idxOffset, b.idxBlob,
        appendOffset);
      var head := HeaderBytes(h);
      ghost var j, d1, m := appendOffset, c.f.disk, 0;
      ghost var between := c.syncs;
      e, m := c.Publish(appendOffset, head, tj, tb);
      RanInto(c.Refused(), old(c.syncs), ops, PublishScript(c.p, j, head, tj, tb), between, m, e);
      PublishWent(c.p, d0, d1, c.f.disk, ops, off, j, head, tj, tb, m);
      BlobsPerformed(d0, d1, b.dirOffset, b.dirBlob, b.idxBlob, ops) by {
        assert ops == ops[..3] == FirstOps(b.dirOffset, b.dirBlob, b.idxBlob, 3);
      }
      PerformedParts(d0, d1, c.f.disk, BlobOps(b.dirOffset, b.dirBlob, b.idxBlob),
                     PublishScript(c.p, j, head, tj, tb), m);
      ops := ops + PublishScript(c.p, j, head, tj, tb)[..m];
      closed := true;
      if e.None? { c.header, c.entries := h, entries; }
    }

    method Rollback()
      modifies this
      ensures State() == old(State()).(closed := true)
    {
      closed := true;
    }
  }
}

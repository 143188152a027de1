/** Conservation of chunk bytes: what the header counts as dead is what was appended and is no longer live. */
module Accounting {
  import opened Binary
  import opened Common
  import opened Directory
  import opened Catalog
  import opened Header
  import opened Commit
  import opened ChunkWriter
  import opened WriteRead
  import opened Transaction

  // ---------- saturating sums ----------

  function SaturatingSum(xs: seq<u64>): u64
  {
    if |xs| == 0 then 0 else SaturatingAdd(SaturatingSum(xs[..|xs| - 1]), xs[|xs| - 1])
  }

  function ExactSum(xs: seq<u64>): nat
  {
    if |xs| == 0 then 0 else ExactSum(xs[..|xs| - 1]) + xs[|xs| - 1]
  }

  /** Repeated saturating addition is one saturated sum. */
  lemma {:induction false} SaturatingSumIsCapped(xs: seq<u64>)
    ensures SaturatingSum(xs) == Cap(ExactSum(xs))
  {
    if |xs| != 0 { SaturatingSumIsCapped(xs[..|xs| - 1]); }
  }

  // ---------- one transaction ----------

  /** Dead bytes of the header and the transaction together are the bytes appended minus those still live. */
  ghost predicate Conserved(headerDead: u64, appended: nat, t: TxState)
  {
    && TotalStored(t.entries) <= appended
    && SaturatingAdd(headerDead, t.dead) == Cap(appended - TotalStored(t.entries))
  }

  datatype Call =
    | AddCall(path: Bytes, src: Option<Source>, meta: Bytes, a: WriteArgs)
    | UpsertCall(path: Bytes, src: Option<Source>, meta: Bytes, a: WriteArgs)
    | ReplaceCall(path: Bytes, src: Option<Source>, meta: Bytes, a: WriteArgs)
    | RemoveCall(path: Bytes)
    | RemoveManyCall(paths: seq<Bytes>)
    | RemoveWhereCall(select: Entry -> bool)
    | SetMetaCall(path: Bytes, meta: Bytes)

  /** The state after the selected entries were removed, in whatever order the map was ranged over. */
  ghost function SweptState(t: TxState, select: Entry -> bool): TxState
  {
    var gone := Selection(select, t.entries);
    t.(entries := t.entries - gone, dead := Cap(t.dead + TotalStored(Restrict(t.entries, gone))), churn := Cap(t.churn + |gone|))
  }

  ghost function Perform(p: Primitives, refuse: Refuse, t: TxState, c: Call): OpResult
  {
    match c
    case AddCall(path, src, meta, a) => AddOp(p, t, path, src, meta, a, refuse)
    case UpsertCall(path, src, meta, a) => UpsertOp(p, t, path, src, meta, a, refuse)
    case ReplaceCall(path, src, meta, a) => ReplaceOp(p, t, path, src, meta, a, refuse)
    case RemoveCall(path) => RemoveOp(t, path)
    case RemoveManyCall(paths) => if t.closed then Failed(t, ClosedPipe) else OpResult(RemoveListed(t, paths, |paths|).0, [], None)
    case RemoveWhereCall(select) => if t.closed then Failed(t, ClosedPipe) else OpResult(SweptState(t, select), [], None)
    case SetMetaCall(path, meta) => SetMetaOp(t, path, meta)
  }

  predicate SmallChunks(c: Call)
  {
    c.AddCall? || c.UpsertCall? || c.ReplaceCall? ==> c.a.size < U32
  }

  lemma CapChain(h: u64, d: u64, x: nat, n: nat)
    requires SaturatingAdd(h, d) == Cap(n)
    ensures SaturatingAdd(h, SaturatingAdd(d, Cap(x))) == Cap(n + x)
    ensures SaturatingAdd(h, Cap(d + x)) == Cap(n + x)
  {
  }

  lemma TotalPut(m: Paths, k: Bytes, e: Entry)
    ensures TotalStored(m[k := e]) == TotalStored(m - {k}) + StoredBytes(e.chunks)
  {
    TotalTake(m[k := e], k);
    assert m[k := e] - {k} == m - {k};
  }

  lemma TotalAbsent(m: Paths, k: Bytes)
    requires k !in m
    ensures m - {k} == m
  {
  }

  /** A write that succeeds at a path adds its bytes to what was appended and replaces what was live there. */
  lemma PutConserves(p: Primitives, refuse: Refuse, t: TxState, headerDead: u64, appended: nat, path: Bytes,
      src: Option<Source>, meta: Bytes, a: WriteArgs)
    requires p.InversePair() && a.size < U32 && PutEntry(p, t, path, src, meta, a, refuse).e.None?
    requires TotalStored(t.entries - {path}) <= appended
    requires SaturatingAdd(headerDead, t.dead) == Cap(appended - TotalStored(t.entries - {path}))
    ensures var r := PutEntry(p, t, path, src, meta, a, refuse); Conserved(headerDead, appended + |r.log|, r.t)
  {
    hide Written, TotalStored, StoredBytes, SaturatingAdd, Cap, TiledRefs, Packed, ReadBack;
    var w := Written(SettingsOf(p, a), src.value, t.off, refuse);
    WrittenReadsBack(SettingsOf(p, a), src.value, t.off, refuse, [], false);
    TotalPut(t.entries, path, NewEntry(path, meta, a, w.result.value.0, w.result.value.1));
  }

  lemma ObsoleteConserves(t: TxState, headerDead: u64, appended: nat, path: Bytes)
    requires Conserved(headerDead, appended, t) && path in t.entries
    ensures var u := Obsolete(t, t.entries[path]);
            && u.entries == t.entries && TotalStored(u.entries - {path}) <= appended
            && SaturatingAdd(headerDead, u.dead) == Cap(appended - TotalStored(u.entries - {path}))
  {
    hide TotalStored, StoredBytes;
    TotalTake(t.entries, path);
    CapChain(headerDead, t.dead, StoredBytes(t.entries[path].chunks), appended - TotalStored(t.entries));
  }

  lemma {:induction false} ListedConserves(t: TxState, headerDead: u64, appended: nat, paths: seq<Bytes>, n: nat)
    requires Conserved(headerDead, appended, t) && n <= |paths|
    ensures Conserved(headerDead, appended, RemoveListed(t, paths, n).0)
  {
    hide Conserved, Obsolete, TotalStored;
    if n != 0 {
      ListedConserves(t, headerDead, appended, paths, n - 1);
      var u := RemoveListed(t, paths, n - 1).0;
      if paths[n - 1] in u.entries { WithoutConserves(u, headerDead, appended, paths[n - 1]); }
    }
  }

  lemma WithoutConserves(t: TxState, headerDead: u64, appended: nat, path: Bytes)
    requires Conserved(headerDead, appended, t) && path in t.entries
    ensures Conserved(headerDead, appended, Without(t, path))
  {
    hide TotalStored, StoredBytes, SaturatingAdd;
    ObsoleteConserves(t, headerDead, appended, path);
  }

  lemma {:induction false} TotalSplit(m: Paths, ks: set<Bytes>)
    ensures TotalStored(m) == TotalStored(Restrict(m, ks)) + TotalStored(m - ks)
    decreases |m|
  {
    hide StoredBytes;
    if m == map[] {
      assert Restrict(m, ks) == map[] && m - ks == map[];
    } else {
      var k :| k in m;
      TotalTake(m, k);
      TotalSplit(m - {k}, ks);
      SplitOne(m, ks, k);
    }
  }

  lemma SplitOne(m: Paths, ks: set<Bytes>, k: Bytes)
    requires k in m
    ensures TotalStored(Restrict(m, ks)) + TotalStored(m - ks)
            == StoredBytes(m[k].chunks) + TotalStored(Restrict(m - {k}, ks)) + TotalStored((m - {k}) - ks)
  {
    hide StoredBytes, TotalStored;
    if k in ks {
      TotalTake(Restrict(m, ks), k);
      assert Restrict(m, ks) - {k} == Restrict(m - {k}, ks) && (m - {k}) - ks == m - ks;
    } else {
      TotalTake(m - ks, k);
      assert Restrict(m - {k}, ks) == Restrict(m, ks) && (m - ks) - {k} == (m - {k}) - ks;
    }
  }

  /** Every operation that returns no error conserves chunk bytes; removals and metadata append nothing. */
  lemma CallConserves(p: Primitives, refuse: Refuse, t: TxState, c: Call, headerDead: u64, appended: nat)
    requires p.InversePair() && SmallChunks(c) && Conserved(headerDead, appended, t)
    requires Perform(p, refuse, t, c).e.None?
    ensures var r := Perform(p, refuse, t, c); Conserved(headerDead, appended + |r.log|, r.t)
  {
    hide Written, TotalStored, StoredBytes, PutEntry, Obsolete, RemoveListed, Restrict, Selection;
    match c
    case AddCall(path, src, meta, a) =>
      TotalAbsent(t.entries, path);
      PutConserves(p, refuse, t, headerDead, appended, path, src, meta, a);
    case UpsertCall(path, src, meta, a) =>
      if path in t.entries {
        ObsoleteConserves(t, headerDead, appended, path);
        PutConserves(p, refuse, Obsolete(t, t.entries[path]), headerDead, appended, path, src, meta, a);
      } else {
        TotalAbsent(t.entries, path);
        PutConserves(p, refuse, t, headerDead, appended, path, src, meta, a);
      }
    case ReplaceCall(path, src, meta, a) =>
      ObsoleteConserves(t, headerDead, appended, path);
      PutConserves(p, refuse, Obsolete(t, t.entries[path]), headerDead, appended, path, src, meta, a);
    case RemoveCall(path) => WithoutConserves(t, headerDead, appended, path);
    case RemoveManyCall(paths) => ListedConserves(t, headerDead, appended, paths, |paths|);
    case RemoveWhereCall(select) =>
      var gone := Selection(select, t.entries);
      TotalSplit(t.entries, gone);
      CapChain(headerDead, t.dead, TotalStored(Restrict(t.entries, gone)), appended - TotalStored(t.entries));
    case SetMetaCall(path, meta) =>
      TotalPut(t.entries, path, t.entries[path].(meta := meta));
      TotalTake(t.entries, path);
  }

  // ---------- whole runs ----------

  /** A container between transactions: its map, where it ends, the header's counter, all chunk bytes ever appended. */
  datatype Book = Book(entries: Paths, off: nat, dead: u64, appended: nat)

  /** The calls of one transaction, all without error, with the chunk bytes they append. */
  ghost function PerformAll(p: Primitives, refuse: Refuse, t: TxState, calls: seq<Call>): Option<(TxState, nat)>
  {
    if |calls| == 0 then Some((t, 0))
    else match PerformAll(p, refuse, t, calls[..|calls| - 1])
      case None => None
      case Some((u, n)) =>
        var r := Perform(p, refuse, u, calls[|calls| - 1]);
        if r.e.Some? then None else Some((r.t, n + |r.log|))
  }

  lemma {:induction false} CallsConserve(p: Primitives, refuse: Refuse, t: TxState, calls: seq<Call>,
      headerDead: u64, appended: nat)
    requires p.InversePair() && (forall i :: 0 <= i < |calls| ==> SmallChunks(calls[i]))
    requires Conserved(headerDead, appended, t)
    ensures var r := PerformAll(p, refuse, t, calls); r.Some? ==> Conserved(headerDead, appended + r.value.1, r.value.0)
  {
    hide Conserved, Perform, SmallChunks;
    if |calls| != 0 {
      var n := |calls| - 1;
      CallsConserve(p, refuse, t, calls[..n], headerDead, appended);
      var before := PerformAll(p, refuse, t, calls[..n]);
      if before.Some? && Perform(p, refuse, before.value.0, calls[n]).e.None? {
        CallConserves(p, refuse, before.value.0, calls[n], headerDead, appended + before.value.1);
      }
    }
  }

  /** One transaction carried out and committed: the header's counter takes up the transaction's, the directory,
      index and records of the commit lie behind the chunks, and the map is read back in derived form. */
  ghost function Committed(p: Primitives, refuse: Refuse, b: Book, calls: seq<Call>, overhead: nat): Option<Book>
  {
    match PerformAll(p, refuse, TxState(b.entries, b.off, 0, 0, false), calls)
    case None => None
    case Some((t, n)) => Some(Book(DeriveMap(p, t.entries), t.off + overhead, SaturatingAdd(b.dead, t.dead), b.appended + n))
  }

  /** That is what a commit writes into the header. */
  lemma HeaderTakesUp(p: Primitives, h: Header, q: Request)
    requires Committable(p, h, q) && PlanOf(p, h, q).Some?
    ensures DeadBytes(PlanOf(p, h, q).value.h) == SaturatingAdd(DeadBytes(h), q.dead)
  {
    hide PlanOf, Committable, DeadBytes, SaturatingAdd;
    PlanHeader(p, h, q);
  }

  ghost predicate Balanced(b: Book)
  {
    TotalStored(b.entries) <= b.appended && b.dead == Cap(b.appended - TotalStored(b.entries))
  }

  lemma {:induction false} StoredCleared(cs: seq<ChunkRef>)
    ensures StoredBytes(ClearReserved(cs)) == StoredBytes(cs)
  {
    if |cs| != 0 {
      var n := |cs| - 1;
      StoredCleared(cs[..n]);
      assert ClearReserved(cs)[..n] == ClearReserved(cs[..n]);
    }
  }

  lemma DerivedOne(p: Primitives, m: Paths, k: Bytes)
    requires k in m
    ensures TotalStored(DeriveMap(p, m)) == StoredBytes(m[k].chunks) + TotalStored(DeriveMap(p, m - {k}))
  {
    hide TotalStored, StoredBytes, ClearReserved;
    TotalTake(DeriveMap(p, m), k);
    StoredCleared(m[k].chunks);
    assert DeriveMap(p, m) - {k} == DeriveMap(p, m - {k});
  }

  lemma {:induction false} TotalDerived(p: Primitives, m: Paths)
    ensures TotalStored(DeriveMap(p, m)) == TotalStored(m)
    decreases |m|
  {
    hide StoredBytes, Derive;
    if m == map[] {
      assert DeriveMap(p, m) == map[];
    } else {
      var k :| k in m;
      hide TotalStored, DeriveMap;
      TotalTake(m, k);
      DerivedOne(p, m, k);
      TotalDerived(p, m - {k});
    }
  }

  lemma CommitBalances(p: Primitives, refuse: Refuse, b: Book, calls: seq<Call>, overhead: nat)
    requires p.InversePair() && (forall i :: 0 <= i < |calls| ==> SmallChunks(calls[i])) && Balanced(b)
    ensures Committed(p, refuse, b, calls, overhead).Some? ==> Balanced(Committed(p, refuse, b, calls, overhead).value)
  {
    hide Perform, SmallChunks, DeriveMap, PerformAll, TotalStored;
    var t := TxState(b.entries, b.off, 0, 0, false);
    CallsConserve(p, refuse, t, calls, b.dead, b.appended);
    if PerformAll(p, refuse, t, calls).Some? { TotalDerived(p, PerformAll(p, refuse, t, calls).value.0.entries); }
  }

  datatype Round = Round(calls: seq<Call>, overhead: nat)

  /** A run of committed transactions in which no operation returned an error. */
  ghost function CommittedAll(p: Primitives, refuse: Refuse, rounds: seq<Round>): Option<Book>
  {
    if |rounds| == 0 then Some(Book(map[], 256, 0, 0))
    else match CommittedAll(p, refuse, rounds[..|rounds| - 1])
      case None => None
      case Some(b) => Committed(p, refuse, b, rounds[|rounds| - 1].calls, rounds[|rounds| - 1].overhead)
  }

  ghost predicate AllSmall(rounds: seq<Round>)
  {
    forall i, j :: 0 <= i < |rounds| && 0 <= j < |rounds[i].calls| ==> SmallChunks(rounds[i].calls[j])
  }

  /** Conservation over whole runs, from a new container on: the dead bytes in the header are all chunk-record bytes
      ever appended minus those the live entries refer to, capped at 2^64 - 1. */
  lemma {:induction false} DeadBytesConserved(p: Primitives, refuse: Refuse, rounds: seq<Round>)
    requires p.InversePair() && AllSmall(rounds)
    ensures CommittedAll(p, refuse, rounds).Some? ==> Balanced(CommittedAll(p, refuse, rounds).value)
  {
    hide Committed, SmallChunks, Balanced;
    if |rounds| == 0 {
      assert Balanced(Book(map[], 256, 0, 0)) by { EmptyBalanced(); }
    } else {
      var n := |rounds| - 1;
      assert forall i, j :: 0 <= i < n && 0 <= j < |rounds[..n][i].calls| ==> SmallChunks(rounds[..n][i].calls[j]);
      DeadBytesConserved(p, refuse, rounds[..n]);
      var before := CommittedAll(p, refuse, rounds[..n]);
      if before.Some? { CommitBalances(p, refuse, before.value, rounds[n].calls, rounds[n].overhead); }
    }
  }

  lemma EmptyBalanced()
    ensures Balanced(Book(map[], 256, 0, 0))
  {
  }

  // ---------- operations that fail ----------

  /** Nothing has been appended when the operation fails: there is no reader, or the write fails at once. */
  predicate FailsFirst(p: Primitives, t: TxState, src: Option<Source>, a: WriteArgs, refuse: Refuse)
  {
    src.None? || FailsAtOnce(SettingsOf(p, a), src.value, t.off, refuse)
  }

  lemma FailedPut(p: Primitives, refuse: Refuse, t: TxState, path: Bytes, src: Option<Source>, meta: Bytes, a: WriteArgs)
    ensures var r := PutEntry(p, t, path, src, meta, a, refuse);
            && (r.e.Some? && r.log == [] <==> FailsFirst(p, t, src, a, refuse))
            && (r.e.Some? ==> r.t == t.(off := t.off + |r.log|))
  {
    hide Written, FailsAtOnce;
    if src.Some? { FailsAtOnceIff(SettingsOf(p, a), src.value, t.off, refuse); }
  }

  /** The operation fails after appending so many bytes: none if there is no reader, otherwise the records of the chunks
      before the first that cannot be read, encoded or written. */
  ghost predicate FailsAfter(p: Primitives, t: TxState, src: Option<Source>, a: WriteArgs, refuse: Refuse, lost: nat)
  {
    if src.None? then lost == 0
    else
      var s := SettingsOf(p, a);
      exists k :: FailsAt(s, src.value, t.off, refuse, k) && lost == RecordSum(s, Produced(s, src.value, 0, 0).jobs, k)
  }

  /** That is when an operation fails. */
  lemma FailsAfterIff(p: Primitives, refuse: Refuse, t: TxState, path: Bytes, src: Option<Source>, meta: Bytes,
      a: WriteArgs, lost: nat)
    ensures var r := PutEntry(p, t, path, src, meta, a, refuse);
            FailsAfter(p, t, src, a, refuse, lost) <==> r.e.Some? && |r.log| == lost
  {
    hide Written, JobGoes, RecordSum, Produced;
    if src.Some? {
      var s := SettingsOf(p, a);
      if FailsAfter(p, t, src, a, refuse, lost) {
        var k :| FailsAt(s, src.value, t.off, refuse, k) && lost == RecordSum(s, Produced(s, src.value, 0, 0).jobs, k);
        FailsAtLog(s, src.value, t.off, refuse, k);
      }
      if Written(s, src.value, t.off, refuse).result.Err? {
        var k := FailsSomewhere(s, src.value, t.off, refuse, 0);
        FailsAtLog(s, src.value, t.off, refuse, k);
      }
    }
  }

  /** An Upsert or Replace that fails has already counted the old entry as dead, though it stays live, and never counts
      what it has appended: conservation survives exactly when the two amounts are equal, or the counter is full with
      either. */
  lemma FailedReplaceConservesIff(p: Primitives, refuse: Refuse, t: TxState, headerDead: u64, appended: nat,
      path: Bytes, src: Option<Source>, meta: Bytes, a: WriteArgs, lost: nat)
    requires Conserved(headerDead, appended, t) && path in t.entries && !t.closed
    requires FailsAfter(p, t, src, a, refuse, lost)
    ensures var r := ReplaceOp(p, t, path, src, meta, a, refuse);
            var dead, stored := SaturatingAdd(headerDead, t.dead), StoredBytes(t.entries[path].chunks);
            && r.e.Some? && |r.log| == lost && r == UpsertOp(p, t, path, src, meta, a, refuse) && r.t.entries == t.entries
            && (Conserved(headerDead, appended + lost, r.t) <==>
                  stored == lost || (dead + stored >= MAX64 && dead + lost >= MAX64))
  {
    hide Written, TotalStored, EntryStored, StoredBytes, SaturatingAdd, Cap, FailsAfter, PutEntry;
    var u := Obsolete(t, t.entries[path]);
    assert FailsAfter(p, u, src, a, refuse, lost) by { SameFailure(p, t, u, src, a, refuse, lost); }
    FailsAfterIff(p, refuse, u, path, src, meta, a, lost);
    FailedPut(p, refuse, u, path, src, meta, a);
    CapChainObsolete(t, headerDead, appended, path);
    CapEither(appended - TotalStored(t.entries), StoredBytes(t.entries[path].chunks), lost);
  }

  lemma SameFailure(p: Primitives, t: TxState, u: TxState, src: Option<Source>, a: WriteArgs, refuse: Refuse, lost: nat)
    requires FailsAfter(p, t, src, a, refuse, lost) && u.off == t.off
    ensures FailsAfter(p, u, src, a, refuse, lost)
  {
    hide FailsAt, Produced;
  }

  lemma CapEither(n: nat, x: nat, y: nat)
    ensures Cap(n + x) == Cap(n + y) <==> x == y || (Cap(n) + x >= MAX64 && Cap(n) + y >= MAX64)
  {
  }

  lemma CapMoved(n: nat, x: nat)
    ensures Cap(n + x) == Cap(n) <==> x == 0 || Cap(n) == MAX64
  {
  }

  /** What a failed Add has appended is never counted: conservation survives exactly when the write fails at once, or
      the counter was full before. */
  lemma FailedAddConservesIff(p: Primitives, refuse: Refuse, t: TxState, headerDead: u64, appended: nat,
      path: Bytes, src: Option<Source>, meta: Bytes, a: WriteArgs)
    requires Conserved(headerDead, appended, t) && path !in t.entries && !t.closed
    requires AddOp(p, t, path, src, meta, a, refuse).e.Some?
    ensures var r := AddOp(p, t, path, src, meta, a, refuse);
            && r.t.entries == t.entries && r.t.dead == t.dead
            && (Conserved(headerDead, appended + |r.log|, r.t) <==>
                  FailsFirst(p, t, src, a, refuse) || SaturatingAdd(headerDead, t.dead) == MAX64)
  {
    hide Written, TotalStored, SaturatingAdd, Cap, FailsAtOnce, PutEntry;
    FailedPut(p, refuse, t, path, src, meta, a);
    var r := AddOp(p, t, path, src, meta, a, refuse);
    CapMoved(appended - TotalStored(t.entries), |r.log|);
  }

  lemma CapChainObsolete(t: TxState, headerDead: u64, appended: nat, path: Bytes)
    requires Conserved(headerDead, appended, t) && path in t.entries
    ensures SaturatingAdd(headerDead, Obsolete(t, t.entries[path]).dead)
            == Cap(appended - TotalStored(t.entries) + StoredBytes(t.entries[path].chunks))
  {
    hide TotalStored, StoredBytes;
    CapChain(headerDead, t.dead, StoredBytes(t.entries[path].chunks), appended - TotalStored(t.entries));
  }

  /** For instance: replacing a stored entry with no reader at all leaves the entry live and counted as dead. */
  lemma FailedReplaceOvercounts(p: Primitives, refuse: Refuse, a: WriteArgs)
    ensures var e := NewEntry([97], [], a, [ChunkRef(256, 0, 4, 4, 0, 0)], 4);
            var t := TxState(map[[97] := e], 276, 0, 0, false);
            && Conserved(0, 20, t) && ReplaceOp(p, t, [97], None, [], a, refuse).e.Some?
            && !Conserved(0, 20, ReplaceOp(p, t, [97], None, [], a, refuse).t)
  {
    var c := ChunkRef(256, 0, 4, 4, 0, 0);
    var e := NewEntry([97], [], a, [c], 4);
    var m: Paths := map[[97] := e];
    TotalTake(m, [97]);
    assert m - {[97]} == map[];
    assert [c][..0] == [];
    assert StoredBytes([c]) == StoredBytes([]) + 4 + 16;
  }
}

/** Packing: every entry of a container streamed into a transaction on a new one. */
module Pack {
  import opened Binary
  import opened Common
  import opened Directory
  import opened Catalog
  import opened Header
  import opened Disk
  import opened ChunkWriter
  import opened WriteRead
  import opened EntryReader
  import opened Transaction
  import opened Runs

  const BINARY: u32 := 1
  const TEXT: u32 := 2

  /** How entries are rewritten.  `choose` gives codec, level and chunk size; time, mode and flags always come from the
      entry, the time of writing, `now`, standing in for a modification time of zero, and an entry marked neither as
      binary nor as text being marked as what it looks like. */
  datatype PackOptions = PackOptions(clearMeta: bool, now: Entry -> u64, limits: Limits, choose: Entry -> WriteArgs,
                                     looksText: Entry -> bool)
  {
    function ArgsFor(e: Entry): WriteArgs
    {
      choose(e).(mtime := if e.mtime != 0 then e.mtime else now(e), mode := e.mode,
                 flags := if e.flags % 4 != 0 then e.flags else e.flags + if looksText(e) then TEXT else BINARY)
    }

    function MetaFor(e: Entry): Bytes
    {
      if clearMeta then [] else e.meta
    }
  }

  /** A reader as the writer sees it. */
  function SourceOf(s: Stream): Source
  {
    Source(s.bytes, if s.final == EOF then Clean else Fails(s.final))
  }

  function StreamOf(p: Primitives, o: PackOptions, image: Bytes, e: Entry): Stream
  {
    Tail(p, image, o.limits, e.chunks, 0, 0)
  }

  /** One entry: `OpenReader` with its limit check, then `Upsert`. */
  function PackOne(p: Primitives, o: PackOptions, image: Bytes, t: TxState, e: Entry, refuse: Refuse): OpResult
  {
    match OpenEntry(p, image, o.limits, e)
    case Err(x) => Failed(t, x)
    case Ok(data) => UpsertOp(p, t, e.path, Some(SourceOf(data)), o.MetaFor(e), o.ArgsFor(e), refuse)
  }

  /** The first n entries, up to the first error, with all bytes appended. */
  function PackFirst(p: Primitives, o: PackOptions, image: Bytes, es: seq<Entry>, n: nat, t: TxState,
      refuse: Refuse): OpResult
    requires n <= |es|
  {
    if n == 0 then OpResult(t, [], None)
    else
      var before := PackFirst(p, o, image, es, n - 1, t, refuse);
      if before.e.Some? then before
      else
        var r := PackOne(p, o, image, before.t, es[n - 1], refuse);
        OpResult(r.t, before.log + r.log, r.e)
  }

  // ---------- the loop ----------

  /** The entry loop of `packInto`; on an error the transaction is rolled back. */
  method PackEntries(p: Primitives, o: PackOptions, from: File, es: seq<Entry>, tx: Tx,
      bufferSize: nat) returns (e: Option<Error>)
    requires from.Valid() && tx.c.f.Valid() && from != tx.c.f && tx.c.p == p && bufferSize > 0 && !tx.closed
    modifies tx, tx.c.f`disk
    ensures tx.c.f.Valid()
    ensures var r := PackFirst(p, o, View(from.disk), es, |es|, old(tx.State()), tx.c.f.refuse);
            && e == r.e && tx.State() == (if e.None? then r.t else r.t.(closed := true))
            && Reached(old(tx.c.f.disk), tx.c.f.disk, old(tx.appendOffset), r.log)
  {
    hide View, Tail, Reached, UpsertOp, Ahead, Stored, Appended, Marked;
    ghost var image, log: Bytes := View(from.disk), [];
    ghost var t0, d0 := tx.State(), tx.c.f.disk;
    StartReached(d0, tx.appendOffset);
    for i := 0 to |es|
      invariant from.Valid() && tx.c.f.Valid() && View(from.disk) == image && !tx.closed && tx.appendOffset == t0.off + |log|
      invariant PackFirst(p, o, image, es, i, t0, tx.c.f.refuse) == OpResult(tx.State(), log, None)
      invariant Reached(d0, tx.c.f.disk, t0.off, log)
    {
      var entry := es[i];
      if o.limits.maxEntry > 0 && entry.fileSize > o.limits.maxEntry {
        PackStops(p, o, image, es, i, t0, tx.c.f.refuse);
        assert log + [] == log;
        tx.Rollback();
        return Some(LimitExceeded);
      }
      var r := new Reader(p, from, entry.chunks, o.limits);
      var data, failed := Extract(r, bufferSize);
      ghost var before, d1 := tx.State(), tx.c.f.disk;
      var src := Source(data, if failed.None? then Clean else Fails(failed.value));
      assert src == SourceOf(StreamOf(p, o, image, entry));
      e := tx.Upsert(entry.path, Some(src), o.MetaFor(entry), o.ArgsFor(entry));
      ghost var done := PackOne(p, o, image, before, entry, tx.c.f.refuse);
      UpsertMoves(p, before, entry.path, Some(src), o.MetaFor(entry), o.ArgsFor(entry), tx.c.f.refuse);
      ReachedTrans(d0, d1, tx.c.f.disk, t0.off, log, done.log);
      log := log + done.log;
      if e.Some? {
        PackStops(p, o, image, es, i, t0, tx.c.f.refuse);
        tx.Rollback();
        return;
      }
    }
    e := None;
  }

  /** After a failure nothing more is packed. */
  lemma {:induction false} PackSticks(p: Primitives, o: PackOptions, image: Bytes, es: seq<Entry>, m: nat, n: nat,
      t: TxState, refuse: Refuse)
    requires m <= n <= |es| && PackFirst(p, o, image, es, m, t, refuse).e.Some?
    ensures PackFirst(p, o, image, es, n, t, refuse) == PackFirst(p, o, image, es, m, t, refuse)
  {
    hide PackOne;
    if m < n { PackSticks(p, o, image, es, m, n - 1, t, refuse); }
  }

  lemma PackStops(p: Primitives, o: PackOptions, image: Bytes, es: seq<Entry>, i: nat, t: TxState, refuse: Refuse)
    requires i < |es| && PackFirst(p, o, image, es, i, t, refuse).e.None?
    requires PackOne(p, o, image, PackFirst(p, o, image, es, i, t, refuse).t, es[i], refuse).e.Some?
    ensures var before := PackFirst(p, o, image, es, i, t, refuse); var r := PackOne(p, o, image, before.t, es[i],
      refuse);
            PackFirst(p, o, image, es, |es|, t, refuse) == OpResult(r.t, before.log + r.log, r.e)
  {
    hide PackOne;
    PackSticks(p, o, image, es, i + 1, |es|, t, refuse);
  }

  lemma UpsertMoves(p: Primitives, t: TxState, path: Bytes, src: Option<Source>, meta: Bytes, a: WriteArgs,
      refuse: Refuse)
    ensures var r := UpsertOp(p, t, path, src, meta, a, refuse); r.t.off == t.off + |r.log| && r.t.closed == t.closed
  {
    hide Written;
  }

  lemma ReachedTrans(d0: Disk, d1: Disk, d2: Disk, off: nat, a: Bytes, b: Bytes)
    requires AllWrites(d0.pending) && AllWrites(d1.pending) && AllWrites(d2.pending)
    requires Reached(d0, d1, off, a) && Reached(d1, d2, off + |a|, b)
    ensures Reached(d0, d2, off, a + b)
  {
    hide View;
    if off == |View(d0)| { assert View(d0) + a + b == View(d0) + (a + b); }
  }

  // ---------- success ----------

  /** What packing e at this place of the new file reports: refused for its recorded size, or what writing the stream
      of its chunks reports. */
  ghost function Verdict(p: Primitives, o: PackOptions, image: Bytes, e: Entry, off: nat, refuse: Refuse): Option<Error>
  {
    var a, data := o.choose(e), Tail(p, image, o.limits, e.chunks, 0, 0);
    var src := Source(data.bytes, if data.final == EOF then Clean else Fails(data.final));
    if 0 < o.limits.maxEntry < e.fileSize then Some(LimitExceeded)
    else match Written(Settings(p, a.codec, a.level, a.size, a.maxEntry), src, off, refuse).result
      case Ok(_) => None
      case Err(x) => Some(x)
  }

  ghost predicate GoesWell(p: Primitives, o: PackOptions, image: Bytes, es: seq<Entry>, i: nat, t: TxState, refuse: Refuse)
    requires i < |es|
  {
    Verdict(p, o, image, es[i], PackFirst(p, o, image, es, i, t, refuse).t.off, refuse) == None
  }

  ghost predicate FirstBad(p: Primitives, o: PackOptions, image: Bytes, es: seq<Entry>, k: nat, t: TxState,
      refuse: Refuse, e: Option<Error>)
    requires k < |es|
  {
    && (forall i :: 0 <= i < k ==> GoesWell(p, o, image, es, i, t, refuse))
    && e == Verdict(p, o, image, es[k], PackFirst(p, o, image, es, k, t, refuse).t.off, refuse) && e.Some?
  }

  /** Packing succeeds exactly if every entry goes well at the place where those before it end; otherwise the first one
      that does not decides the error. */
  lemma {:induction false} PackSucceedsIff(p: Primitives, o: PackOptions, image: Bytes, es: seq<Entry>, n: nat, t: TxState,
      refuse: Refuse)
    requires n <= |es| && !t.closed
    ensures var r := PackFirst(p, o, image, es, n, t, refuse);
            && !r.t.closed && r.t.off == t.off + |r.log|
            && (r.e.None? <==> forall i :: 0 <= i < n ==> GoesWell(p, o, image, es, i, t, refuse))
            && (r.e.Some? ==> exists k :: 0 <= k < n && FirstBad(p, o, image, es, k, t, refuse, r.e))
  {
    hide PackOne, Verdict, GoesWell, FirstBad;
    if n > 0 {
      PackSucceedsIff(p, o, image, es, n - 1, t, refuse);
      OneMore(p, o, image, es, n, t, refuse);
    }
  }

  lemma OneMore(p: Primitives, o: PackOptions, image: Bytes, es: seq<Entry>, n: nat, t: TxState, refuse: Refuse)
    requires 0 < n <= |es|
    requires var before := PackFirst(p, o, image, es, n - 1, t, refuse);
             && !before.t.closed && before.t.off == t.off + |before.log|
             && (before.e.None? <==> forall i :: 0 <= i < n - 1 ==> GoesWell(p, o, image, es, i, t, refuse))
             && (before.e.Some? ==> exists k :: 0 <= k < n - 1 && FirstBad(p, o, image, es, k, t, refuse, before.e))
    ensures var r := PackFirst(p, o, image, es, n, t, refuse);
            && !r.t.closed && r.t.off == t.off + |r.log|
            && (r.e.None? <==> forall i :: 0 <= i < n ==> GoesWell(p, o, image, es, i, t, refuse))
            && (r.e.Some? ==> exists k :: 0 <= k < n && FirstBad(p, o, image, es, k, t, refuse, r.e))
  {
    hide PackOne, Verdict;
    var before, r := PackFirst(p, o, image, es, n - 1, t, refuse), PackFirst(p, o, image, es, n, t, refuse);
    if before.e.None? {
      OneReports(p, o, image, before.t, es[n - 1], refuse);
      assert r.e.None? <==> GoesWell(p, o, image, es, n - 1, t, refuse);
      if r.e.Some? { assert FirstBad(p, o, image, es, n - 1, t, refuse, r.e); }
    } else {
      hide GoesWell, FirstBad;
      assert !forall i :: 0 <= i < n - 1 ==> GoesWell(p, o, image, es, i, t, refuse);
    }
  }

  lemma OneReports(p: Primitives, o: PackOptions, image: Bytes, t: TxState, e: Entry, refuse: Refuse)
    requires !t.closed
    ensures var r := PackOne(p, o, image, t, e, refuse);
            r.e == Verdict(p, o, image, e, t.off, refuse) && !r.t.closed && r.t.off == t.off + |r.log|
  {
    hide Written, Tail;
  }

  // ---------- content ----------

  /** The flags of e, with one mark added if it had none. */
  predicate FlagsKept(e: Entry, x: Entry)
  {
    if e.flags % 4 != 0 then x.flags == e.flags else x.flags == e.flags + BINARY || x.flags == e.flags + TEXT
  }

  /** Entry x is entry e rewritten: same path, time, mode and flags, the metadata as asked, and its chunks, in any file that
      holds the appended bytes, stream what e's streamed. */
  ghost predicate Rewritten(p: Primitives, o: PackOptions, image: Bytes, e: Entry, x: Entry, off: nat, log: Bytes)
  {
    && x.path == e.path && x.meta == (if o.clearMeta then [] else e.meta) && x.mode == e.mode && FlagsKept(e, x)
    && ClearReserved(x.chunks) == x.chunks
    && x.mtime == (if e.mtime != 0 then e.mtime else o.now(e))
    && x.fileSize == |StreamOf(p, o, image, e).bytes| && StreamOf(p, o, image, e).final == EOF
    && forall file, l {:trigger Tail(p, file, l, x.chunks, 0, 0)} :: At(file, off, log) ==>
         StreamsAs(Tail(p, file, l, x.chunks, 0, 0), StreamOf(p, o, image, e).bytes, l, x.chunks)
  }

  lemma OneRewritten(p: Primitives, o: PackOptions, image: Bytes, t: TxState, e: Entry, refuse: Refuse)
    requires p.InversePair() && o.choose(e).size < U32 && e.path !in t.entries && !t.closed
    requires PackOne(p, o, image, t, e, refuse).e.None?
    ensures var r := PackOne(p, o, image, t, e, refuse);
            && r.t.entries.Keys == t.entries.Keys + {e.path} && (forall k :: k in t.entries ==> r.t.entries[k] == t.entries[k])
            && r.t.off == t.off + |r.log| && r.t.dead == t.dead && r.t.churn == t.churn && !r.t.closed
            && Rewritten(p, o, image, e, r.t.entries[e.path], t.off, r.log)
  {
    hide Written, Tail, ReadBack, TiledRefs, Packed, StreamsAs;
    var s, src := SettingsOf(p, o.ArgsFor(e)), SourceOf(StreamOf(p, o, image, e));
    var r := PackOne(p, o, image, t, e, refuse);
    WrittenReadsBack(s, src, t.off, refuse, [], false);
    var x := r.t.entries[e.path];
    TiledInOrder(x.chunks, 0, |src.data|);
    OrderedCleared(x.chunks, 0);
    forall file, l | At(file, t.off, r.log)
      ensures StreamsAs(Tail(p, file, l, x.chunks, 0, 0), src.data, l, x.chunks)
    {
      WriteThenRead(s, src, t.off, refuse, file, l);
    }
  }

  /** All of the first n entries are in the map, rewritten, and nothing else is. */
  ghost predicate AllRewritten(p: Primitives, o: PackOptions, image: Bytes, es: seq<Entry>, n: nat, off: nat,
      r: OpResult)
    requires n <= |es|
  {
    && r.t.off == off + |r.log| && r.t.dead == 0 && r.t.churn == 0 && !r.t.closed
    && (forall k :: k in r.t.entries <==> exists i :: 0 <= i < n && es[i].path == k)
    && forall i :: 0 <= i < n ==> es[i].path in r.t.entries && Rewritten(p, o, image, es[i], r.t.entries[es[i].path], off, r.log)
  }

  lemma RewrittenMore(p: Primitives, o: PackOptions, image: Bytes, e: Entry, x: Entry, off: nat, log: Bytes,
      before: Bytes, after: Bytes)
    requires Rewritten(p, o, image, e, x, off + |before|, log)
    ensures Rewritten(p, o, image, e, x, off, before + (log + after))
  {
    hide Tail, StreamsAs;
    forall file, l | At(file, off, before + (log + after))
      ensures StreamsAs(Tail(p, file, l, x.chunks, 0, 0), StreamOf(p, o, image, e).bytes, l, x.chunks)
    {
      AtSplit(file, off, before, log + after);
      AtSplit(file, off + |before|, log, after);
    }
  }

  lemma {:induction false} FirstRewritten(p: Primitives, o: PackOptions, image: Bytes, es: seq<Entry>, n: nat,
      off: nat, refuse: Refuse)
    requires p.InversePair() && (forall e :: o.choose(e).size < U32) && UniquePaths(es) && n <= |es|
    requires PackFirst(p, o, image, es, n, TxState(map[], off, 0, 0, false), refuse).e.None?
    ensures AllRewritten(p, o, image, es, n, off,
                         PackFirst(p, o, image, es, n, TxState(map[], off, 0, 0, false), refuse))
  {
    hide PackOne, Rewritten, AllRewritten;
    if n == 0 {
      NoneRewritten(p, o, image, es, off);
    } else {
      var t0 := TxState(map[], off, 0, 0, false);
      var before := PackFirst(p, o, image, es, n - 1, t0, refuse);
      FirstRewritten(p, o, image, es, n - 1, off, refuse);
      var e, r := es[n - 1], PackOne(p, o, image, before.t, es[n - 1], refuse);
      FreshEntry(p, o, image, es, n - 1, off, before);
      OneRewritten(p, o, image, before.t, e, refuse);
      AllRewrittenMore(p, o, image, es, n - 1, off, before, r);
    }
  }

  lemma NoneRewritten(p: Primitives, o: PackOptions, image: Bytes, es: seq<Entry>, off: nat)
    ensures AllRewritten(p, o, image, es, 0, off, OpResult(TxState(map[], off, 0, 0, false), [], None))
  {
  }

  lemma FreshEntry(p: Primitives, o: PackOptions, image: Bytes, es: seq<Entry>, n: nat, off: nat, before: OpResult)
    requires n < |es| && UniquePaths(es) && AllRewritten(p, o, image, es, n, off, before)
    ensures es[n].path !in before.t.entries && !before.t.closed
  {
    hide Rewritten;
  }

  lemma AllRewrittenMore(p: Primitives, o: PackOptions, image: Bytes, es: seq<Entry>, n: nat, off: nat,
      before: OpResult, r: OpResult)
    requires n < |es| && AllRewritten(p, o, image, es, n, off, before)
    requires r.t.entries.Keys == before.t.entries.Keys + {es[n].path}
    requires forall k :: k in before.t.entries ==> r.t.entries[k] == before.t.entries[k]
    requires r.t.off == before.t.off + |r.log| && r.t.dead == before.t.dead && r.t.churn == before.t.churn && !r.t.closed
    requires Rewritten(p, o, image, es[n], r.t.entries[es[n].path], before.t.off, r.log)
    ensures AllRewritten(p, o, image, es, n + 1, off, OpResult(r.t, before.log + r.log, r.e))
  {
    hide Rewritten;
    assert before.log + (r.log + []) == before.log + r.log;
    RewrittenMore(p, o, image, es[n], r.t.entries[es[n].path], off, r.log, before.log, []);
    forall i | 0 <= i < n
      ensures es[i].path in r.t.entries
      ensures Rewritten(p, o, image, es[i], r.t.entries[es[i].path], off, before.log + r.log)
    {
      assert [] + (before.log + r.log) == before.log + r.log;
      RewrittenMore(p, o, image, es[i], r.t.entries[es[i].path], off, before.log, [], r.log);
    }
  }

  /** Packing preserves meaning: on success the new map has exactly the paths of the old one; every entry keeps its mode
      and modification time (`now` for a zero one), has its metadata kept or cleared as asked, and streams exactly what
      the old entry streamed to its ordinary end, for any codec and chunk sizes; and nothing is counted as dead or as
      churn. */
  lemma PackPreserves(p: Primitives, o: PackOptions, image: Bytes, m: Paths, es: seq<Entry>, off: nat, refuse: Refuse)
    requires p.InversePair() && (forall e :: o.choose(e).size < U32)
    requires UniquePaths(es) && forall e :: e in es <==> e.path in m && m[e.path] == e
    requires forall k :: k in m ==> m[k].path == k
    requires PackFirst(p, o, image, es, |es|, TxState(map[], off, 0, 0, false), refuse).e.None?
    ensures var r := PackFirst(p, o, image, es, |es|, TxState(map[], off, 0, 0, false), refuse);
            && r.t.entries.Keys == m.Keys && r.t.dead == 0 && r.t.churn == 0
            && forall k :: k in m ==> Rewritten(p, o, image, m[k], r.t.entries[k], off, r.log)
  {
    hide PackOne, Rewritten, PackFirst;
    FirstRewritten(p, o, image, es, |es|, off, refuse);
    var r := PackFirst(p, o, image, es, |es|, TxState(map[], off, 0, 0, false), refuse);
    forall k | k in m
      ensures k in r.t.entries && Rewritten(p, o, image, m[k], r.t.entries[k], off, r.log)
    {
      assert m[k] in es;
      var i :| 0 <= i < |es| && es[i] == m[k];
      assert es[i].path == k;
    }
    forall k | k in r.t.entries
      ensures k in m
    {
      var i :| 0 <= i < |es| && es[i].path == k;
      assert es[i] in es;
    }
  }
}

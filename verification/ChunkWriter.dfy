/** Cutting a stream into chunks and appending their records: what is produced, and the sequential loop. */
module ChunkWriter {
  import opened Binary
  import opened Common
  import opened Directory
  import opened Chunk
  import opened Disk

  // ---------- the file ----------

  type Refuse = nat -> Option<Error>

  /** An open file.  Which writes are refused depends on their place, and may change from one operation to the next;
      none writes the same place twice. */
  class File {
    var disk: Disk
    var refuse: Refuse

    constructor (disk: Disk, refuse: Refuse)
      ensures this.disk == disk && this.refuse == refuse
    {
      this.disk := disk;
      this.refuse := refuse;
    }

    ghost predicate Valid()
      reads this
    {
      AllWrites(disk.pending)
    }

    /** A refused write has no effect; offsets beyond the signed 64-bit range are refused. */
    method WriteAt(off: nat, data: Bytes) returns (e: Option<Error>)
      requires Valid()
      modifies this`disk
      ensures Valid() && e == Refusal(refuse, off)
      ensures disk == if e.None? then Apply(old(disk), FileOp.WriteAt(off, data)) else old(disk)
    {
      if off >= MAX_OFFSET { return Some(IO); }
      e := refuse(off);
      if e.None? { disk := Apply(disk, FileOp.WriteAt(off, data)); }
    }
  }

  function Refusal(refuse: Refuse, off: nat): (e: Option<Error>)
    ensures e.None? ==> off < MAX_OFFSET
  {
    if off >= MAX_OFFSET then Some(IO) else refuse(off)
  }

  /** The unsynced writes after e are those after d and further ones, all at or beyond off. */
  ghost predicate AppendsOnly(d: Disk, e: Disk, off: nat)
  {
    && d.durable == e.durable && d.pending <= e.pending
    && forall i :: |d.pending| <= i < |e.pending| ==> e.pending[i].WriteAt? && off <= e.pending[i].off
  }

  // ---------- what is read ----------

  /** How a reader ends: cleanly, with the error that announces a premature end, or with another error. */
  datatype End = Clean | Unexpected | Fails(error: Error)

  datatype Source = Source(data: Bytes, end: End)

  type ChunkSize = n: nat | 0 < n witness 1

  datatype Settings = Settings(p: Primitives, codec: u8, level: u8, size: ChunkSize, maxEntry: u64)

  /** What `io.ReadFull` of one chunk yields at a position of the source. */
  datatype ReadResult = Full(raw: Bytes) | Last(raw: Bytes) | Finished | ReadError(error: Error)

  function ReadFull(src: Source, pos: nat, size: ChunkSize): (r: ReadResult)
    requires pos <= |src.data|
    ensures r.Full? || r.Last? ==> 0 < |r.raw| <= size && pos + |r.raw| <= |src.data| && r.raw == src.data[pos..pos + |r.raw|]
    ensures r.Full? <==> pos + size <= |src.data|
    ensures r.Full? ==> |r.raw| == size
    ensures r.Last? || r.Finished? ==> pos + (if r.Last? then |r.raw| else 0) == |src.data|
  {
    var left := |src.data| - pos;
    if left >= size then Full(src.data[pos..pos + size])
    else if src.end.Fails? then ReadError(src.end.error)
    else if left == 0 then Finished
    else Last(src.data[pos..])
  }

  datatype Job = Job(index: nat, rawOff: u64, raw: Bytes)

  /** What the producer hands out from a position on, the error it stops with, and the raw total it reports. */
  datatype Output = Output(jobs: seq<Job>, stop: Option<Error>, total: u64)

  predicate Exceeds(s: Settings, total: nat)
  {
    total > MAX64 || (s.maxEntry > 0 && total > s.maxEntry)
  }

  function Produced(s: Settings, src: Source, pos: u64, index: nat): Output
    requires pos <= |src.data|
    decreases |src.data| - pos
  {
    match ReadFull(src, pos, s.size)
    case Finished => Output([], None, pos)
    case ReadError(e) => Output([], Some(e), pos)
    case Last(raw) =>
      if Exceeds(s, pos + |raw|) then Output([], Some(LimitExceeded), pos)
      else Output([Job(index, pos, raw)], None, pos + |raw|)
    case Full(raw) =>
      if Exceeds(s, pos + |raw|) then Output([], Some(LimitExceeded), pos)
      else
        var rest := Produced(s, src, pos + |raw|, index + 1);
        Output([Job(index, pos, raw)] + rest.jobs, rest.stop, rest.total)
  }

  // ---------- what is written ----------

  datatype Coded = Coded(index: nat, rawOff: u64, rawSize: u32, rec: Bytes, crc: u32) | Bad(index: nat, error: Error)

  /** One worker's result; the raw size is narrowed to 32 bits. */
  function EncodeJob(s: Settings, j: Job): (c: Coded)
    ensures c.index == j.index && (c.Coded? ==> CHUNK_HEADER <= |c.rec|)
  {
    match EncodeChunk(s.p, j.raw, s.codec, s.level)
    case Err(e) => Bad(j.index, e)
    case Ok((rec, crc)) => Coded(j.index, j.rawOff, |j.raw| % U32, rec, crc)
  }

  /** References made, bytes appended, and the error that stopped the writing. */
  datatype Trace = Trace(refs: seq<ChunkRef>, log: Bytes, err: Option<Error>)

  function AppendCoded(t: Trace, c: Coded, off: nat, refuse: Refuse): Trace
    requires c.Coded? ==> CHUNK_HEADER <= |c.rec|
  {
    if t.err.Some? then t
    else match c
      case Bad(_, e) => t.(err := Some(e))
      case Coded(_, rawOff, rawSize, rec, crc) =>
        var e := Refusal(refuse, off + |t.log|);
        if e.Some? then t.(err := e)
        else Trace(t.refs + [RefFor(off + |t.log|, rawOff, rawSize, rec, crc)], t.log + rec, None)
  }

  /** The first n jobs written in order from offset off, up to the first failure. */
  function WriteJobs(s: Settings, jobs: seq<Job>, n: nat, off: nat, refuse: Refuse): Trace
    requires n <= |jobs|
  {
    if n == 0 then Trace([], [], None)
    else AppendCoded(WriteJobs(s, jobs, n - 1, off, refuse), EncodeJob(s, jobs[n - 1]), off, refuse)
  }

  datatype Outcome = Outcome(result: Result<(seq<ChunkRef>, u64)>, log: Bytes)

  /** What writing a source amounts to: an error on a chunk wins over a later error of the reader. */
  function Written(s: Settings, src: Source, off: nat, refuse: Refuse): Outcome
  {
    var out := Produced(s, src, 0, 0);
    var t := WriteJobs(s, out.jobs, |out.jobs|, off, refuse);
    if t.err.Some? then Outcome(Err(t.err.value), t.log)
    else if out.stop.Some? then Outcome(Err(out.stop.value), t.log)
    else Outcome(Ok((t.refs, out.total)), t.log)
  }

  // ---------- the sequential loop ----------

  /** After a failure nothing more is written. */
  lemma {:induction false} FailureSticks(s: Settings, jobs: seq<Job>, m: nat, n: nat, off: nat,
      refuse: Refuse)
    requires m <= n <= |jobs| && WriteJobs(s, jobs, m, off, refuse).err.Some?
    ensures WriteJobs(s, jobs, n, off, refuse) == WriteJobs(s, jobs, m, off, refuse)
  {
    hide EncodeJob;
    if m < n { FailureSticks(s, jobs, m, n - 1, off, refuse); }
  }

  ghost predicate Reached(f: Disk, g: Disk, off: nat, log: Bytes)
    requires AllWrites(f.pending) && AllWrites(g.pending)
  {
    AppendsOnly(f, g, off) && (off == |View(f)| ==> View(g) == View(f) + log)
  }

  /** A write that fails before it has appended anything: the first read fails, or the first chunk is over the limit, or
      cannot be encoded, or its write is refused. */
  predicate FailsAtOnce(s: Settings, src: Source, off: nat, refuse: Refuse)
  {
    match ReadFull(src, 0, s.size)
    case Finished => false
    case ReadError(_) => true
    case _ =>
      var raw := ReadFull(src, 0, s.size).raw;
      Exceeds(s, |raw|) || EncodeChunk(s.p, raw, s.codec, s.level).Err? || Refusal(refuse, off).Some?
  }

  lemma {:induction false} LogNotEmpty(s: Settings, jobs: seq<Job>, n: nat, off: nat, refuse: Refuse)
    requires 1 <= n <= |jobs| && WriteJobs(s, jobs, 1, off, refuse).err.None?
    ensures |WriteJobs(s, jobs, n, off, refuse).log| >= CHUNK_HEADER
  {
    hide EncodeJob;
    if n == 1 {
      assert WriteJobs(s, jobs, 0, off, refuse) == Trace([], [], None);
    } else {
      LogNotEmpty(s, jobs, n - 1, off, refuse);
    }
  }

  lemma FirstProduced(s: Settings, src: Source)
    ensures var out, read := Produced(s, src, 0, 0), ReadFull(src, 0, s.size);
            && (read.Finished? ==> out == Output([], None, 0)) && (read.ReadError? ==> out.jobs == [] && out.stop.Some?)
            && (read.Full? || read.Last? ==>
                  if Exceeds(s, |read.raw|) then out.jobs == [] && out.stop.Some?
                  else |out.jobs| > 0 && out.jobs[0] == Job(0, 0, read.raw))
  {
    hide ReadFull;
  }

  lemma FirstWritten(s: Settings, job: Job, jobs: seq<Job>, off: nat, refuse: Refuse)
    requires |jobs| > 0 && jobs[0] == job
    ensures WriteJobs(s, jobs, 0, off, refuse) == Trace([], [], None)
    ensures var t := WriteJobs(s, jobs, 1, off, refuse);
            && (t.err.Some? <==> EncodeChunk(s.p, job.raw, s.codec, s.level).Err? || Refusal(refuse, off).Some?)
            && (t.err.Some? ==> t.log == [])
  {
    hide EncodeChunk;
  }

  /** Exactly these writes fail without having appended anything. */
  lemma FailsAtOnceIff(s: Settings, src: Source, off: nat, refuse: Refuse)
    ensures var w := Written(s, src, off, refuse);
            w.result.Err? && w.log == [] <==> FailsAtOnce(s, src, off, refuse)
  {
    hide ReadFull, EncodeChunk, WriteJobs, Produced;
    FirstProduced(s, src);
    var jobs := Produced(s, src, 0, 0).jobs;
    assert WriteJobs(s, [], 0, off, refuse) == Trace([], [], None) by { NoJobs(s, off, refuse); }
    if |jobs| > 0 {
      FirstWritten(s, jobs[0], jobs, off, refuse);
      if WriteJobs(s, jobs, 1, off, refuse).err.Some? {
        FailureSticks(s, jobs, 1, |jobs|, off, refuse);
      } else {
        LogNotEmpty(s, jobs, |jobs|, off, refuse);
      }
    }
  }

  /** The bytes that the records of the first n jobs take. */
  function RecordSum(s: Settings, jobs: seq<Job>, n: nat): nat
    requires n <= |jobs|
  {
    if n == 0 then 0
    else
      var encoded := EncodeChunk(s.p, jobs[n - 1].raw, s.codec, s.level);
      RecordSum(s, jobs, n - 1) + if encoded.Ok? then |encoded.value.0| else 0
  }

  /** Job i can be encoded, and its write is not refused at the place the jobs before it leave it. */
  predicate JobGoes(s: Settings, jobs: seq<Job>, i: nat, off: nat, refuse: Refuse)
    requires i < |jobs|
  {
    EncodeChunk(s.p, jobs[i].raw, s.codec, s.level).Ok? && Refusal(refuse, off + RecordSum(s, jobs, i)).None?
  }

  /** The write fails at job k; or, if k is the number of jobs, because the reader fails or exceeds the limit. */
  ghost predicate FailsAt(s: Settings, src: Source, off: nat, refuse: Refuse, k: nat)
  {
    var out := Produced(s, src, 0, 0);
    && k <= |out.jobs| && (forall i :: 0 <= i < k ==> JobGoes(s, out.jobs, i, off, refuse))
    && if k < |out.jobs| then !JobGoes(s, out.jobs, k, off, refuse) else out.stop.Some?
  }

  lemma {:induction false} JobsGo(s: Settings, jobs: seq<Job>, n: nat, off: nat, refuse: Refuse)
    requires n <= |jobs| && forall i :: 0 <= i < n ==> JobGoes(s, jobs, i, off, refuse)
    ensures WriteJobs(s, jobs, n, off, refuse).err.None?
    ensures |WriteJobs(s, jobs, n, off, refuse).log| == RecordSum(s, jobs, n)
  {
    hide EncodeChunk;
    if n != 0 {
      JobsGo(s, jobs, n - 1, off, refuse);
      assert JobGoes(s, jobs, n - 1, off, refuse);
    }
  }

  /** What a write that fails has appended: the records of the jobs before the first that does not go. */
  lemma FailsAtLog(s: Settings, src: Source, off: nat, refuse: Refuse, k: nat)
    requires FailsAt(s, src, off, refuse, k)
    ensures var w := Written(s, src, off, refuse);
            w.result.Err? && |w.log| == RecordSum(s, Produced(s, src, 0, 0).jobs, k)
  {
    hide EncodeChunk, Produced, RecordSum, Refusal;
    var jobs := Produced(s, src, 0, 0).jobs;
    JobsGo(s, jobs, k, off, refuse);
    if k < |jobs| { FailureSticks(s, jobs, k + 1, |jobs|, off, refuse); }
  }

  /** Every write that fails does so at some job. */
  lemma {:induction false} FailsSomewhere(s: Settings, src: Source, off: nat, refuse: Refuse, i: nat) returns (k: nat)
    requires Written(s, src, off, refuse).result.Err? && i <= |Produced(s, src, 0, 0).jobs|
    requires forall j :: 0 <= j < i ==> JobGoes(s, Produced(s, src, 0, 0).jobs, j, off, refuse)
    ensures FailsAt(s, src, off, refuse, k)
    decreases |Produced(s, src, 0, 0).jobs| - i
  {
    hide JobGoes, Produced, WriteJobs;
    var jobs := Produced(s, src, 0, 0).jobs;
    k := i;
    if i < |jobs| {
      if JobGoes(s, jobs, i, off, refuse) { k := FailsSomewhere(s, src, off, refuse, i + 1); }
    } else {
      JobsGo(s, jobs, i, off, refuse);
    }
  }

  lemma NoJobs(s: Settings, off: nat, refuse: Refuse)
    ensures WriteJobs(s, [], 0, off, refuse) == Trace([], [], None)
  {
  }

  lemma ReachedMore(f: Disk, g: Disk, off: nat, log: Bytes, rec: Bytes)
    requires AllWrites(f.pending) && AllWrites(g.pending) && Reached(f, g, off, log)
    ensures Reached(f, Apply(g, FileOp.WriteAt(off + |log|, rec)), off, log + rec)
  {
    hide Overwrite, View;
    if off == |View(f)| {
      AppendExtendsView(g, rec);
      assert View(f) + (log + rec) == (View(f) + log) + rec;
    }
  }

  /** The loop has handled the jobs in done; what remains of the output starts at pos. */
  ghost predicate Handled(s: Settings, src: Source, off: nat, refuse: Refuse, done: seq<Job>, pos: u64,
      refs: seq<ChunkRef>, log: Bytes)
  {
    pos <= |src.data|
    && var out, rest := Produced(s, src, 0, 0), Produced(s, src, pos, |done|);
    && out.jobs == done + rest.jobs && out.stop == rest.stop && out.total == rest.total
    && WriteJobs(s, out.jobs, |done|, off, refuse) == Trace(refs, log, None)
  }

  lemma HandledEnd(s: Settings, src: Source, off: nat, refuse: Refuse, done: seq<Job>, pos: u64,
      refs: seq<ChunkRef>, log: Bytes)
    requires Handled(s, src, off, refuse, done, pos, refs, log) && Produced(s, src, pos, |done|).jobs == []
    ensures var rest := Produced(s, src, pos, |done|);
            Written(s, src, off, refuse)
            == Outcome(if rest.stop.Some? then Err(rest.stop.value) else Ok((refs, rest.total)), log)
  {
    hide ReadFull, EncodeJob, AppendCoded, Produced, WriteJobs;
    assert done + [] == done;
  }

  lemma HandledFails(s: Settings, src: Source, off: nat, refuse: Refuse, done: seq<Job>, pos: u64,
      refs: seq<ChunkRef>, log: Bytes, e: Error)
    requires Handled(s, src, off, refuse, done, pos, refs, log)
    requires var jobs := Produced(s, src, pos, |done|).jobs;
             && |jobs| > 0
             && AppendCoded(Trace(refs, log, None), EncodeJob(s, jobs[0]), off, refuse) == Trace(refs, log, Some(e))
    ensures Written(s, src, off, refuse) == Outcome(Err(e), log)
  {
    hide ReadFull, EncodeJob, AppendCoded, Produced;
    var all := Produced(s, src, 0, 0).jobs;
    assert all[|done|] == Produced(s, src, pos, |done|).jobs[0];
    FailureSticks(s, all, |done| + 1, |all|, off, refuse);
  }

  lemma HandledMore(s: Settings, src: Source, off: nat, refuse: Refuse, done: seq<Job>, pos: u64,
      refs: seq<ChunkRef>, log: Bytes, raw: Bytes, t: Trace)
    requires Handled(s, src, off, refuse, done, pos, refs, log) && ReadFull(src, pos,
      s.size) == Full(raw) && !Exceeds(s, pos + |raw|)
    requires AppendCoded(Trace(refs, log, None), EncodeJob(s, Job(|done|, pos, raw)), off, refuse) == t && t.err.None?
    ensures Handled(s, src, off, refuse, done + [Job(|done|, pos, raw)], pos + |raw|, t.refs, t.log)
  {
    hide ReadFull, EncodeJob, AppendCoded;
    var all := Produced(s, src, 0, 0).jobs;
    assert all[|done|] == Job(|done|, pos, raw);
  }

  lemma HandledLast(s: Settings, src: Source, off: nat, refuse: Refuse, done: seq<Job>, pos: u64,
      refs: seq<ChunkRef>, log: Bytes, raw: Bytes, t: Trace)
    requires Handled(s, src, off, refuse, done, pos, refs, log) && ReadFull(src, pos,
      s.size) == Last(raw) && !Exceeds(s, pos + |raw|)
    requires AppendCoded(Trace(refs, log, None), EncodeJob(s, Job(|done|, pos, raw)), off, refuse) == t && t.err.None?
    ensures Written(s, src, off, refuse) == Outcome(Ok((t.refs, pos + |raw|)), t.log)
  {
    hide ReadFull, EncodeJob, AppendCoded;
    var all := Produced(s, src, 0, 0).jobs;
    assert all[|done|] == Job(|done|, pos, raw) && |all| == |done| + 1;
  }

  /** `writeChunksSequential`. */
  method WriteSequential(f: File, s: Settings, src: Source, off: nat) returns (r: Result<(seq<ChunkRef>, u64)>,
      end: nat)
    requires f.Valid()
    modifies f`disk
    ensures f.Valid() && var w := Written(s, src, off, f.refuse);
            r == w.result && end == off + |w.log| && Reached(old(f.disk), f.disk, off, w.log)
  {
    hide ReadFull, EncodeChunk, WriteJobs, View, Reached, Handled, Written;
    ghost var done: seq<Job>, log: Bytes := [], [];
    var refs: seq<ChunkRef>, rawOff: u64 := [], 0;
    end := off;
    StartHandled(s, src, off, f.refuse);
    StartReached(f.disk, off);
    while true
      invariant f.Valid() && rawOff <= |src.data| && end == off + |log|
      invariant Handled(s, src, off, f.refuse, done, rawOff, refs, log)
      invariant Reached(old(f.disk), f.disk, off, log)
      decreases |src.data| - rawOff
    {
      var read := ReadFull(src, rawOff, s.size);
      if read.Finished? || read.ReadError? {
        HandledEnd(s, src, off, f.refuse, done, rawOff, refs, log);
        return if read.Finished? then Ok((refs, rawOff)) else Err(read.error), end;
      }
      ghost var job := Job(|done|, rawOff, read.raw);
      if Exceeds(s, rawOff + |read.raw|) {
        HandledEnd(s, src, off, f.refuse, done, rawOff, refs, log);
        return Err(LimitExceeded), end;
      }
      assert Produced(s, src, rawOff, |done|).jobs[0] == job;
      var encoded := EncodeChunk(s.p, read.raw, s.codec, s.level);
      if encoded.Err? {
        HandledFails(s, src, off, f.refuse, done, rawOff, refs, log, encoded.error);
        return Err(encoded.error), end;
      }
      var rec, crc := encoded.value.0, encoded.value.1;
      assert EncodeJob(s, job) == Coded(|done|, rawOff, |read.raw| % U32, rec, crc);
      label Before:
      var refused := f.WriteAt(end, rec);
      if refused.Some? {
        HandledFails(s, src, off, f.refuse, done, rawOff, refs, log, refused.value);
        return Err(refused.value), end;
      }
      ReachedMore(old(f.disk), old@Before(f.disk), off, log, rec);
      ghost var t := AppendCoded(Trace(refs, log, None), EncodeJob(s, job), off, f.refuse);
      refs := refs + [RefFor(end, rawOff, |read.raw| % U32, rec, crc)];
      assert t == Trace(refs, log + rec, None);
      end := end + |rec|;
      if read.Last? {
        HandledLast(s, src, off, f.refuse, done, rawOff, refs[..|refs| - 1], log, read.raw, t);
        return Ok((refs, rawOff + |read.raw|)), end;
      }
      HandledMore(s, src, off, f.refuse, done, rawOff, refs[..|refs| - 1], log, read.raw, t);
      done, log, rawOff := done + [job], log + rec, rawOff + |read.raw|;
    }
  }

  lemma StartHandled(s: Settings, src: Source, off: nat, refuse: Refuse)
    ensures Handled(s, src, off, refuse, [], 0, [], [])
  {
    hide Produced;
  }

  lemma StartReached(d: Disk, off: nat)
    requires AllWrites(d.pending)
    ensures Reached(d, d, off, [])
  {
    hide View;
  }
}

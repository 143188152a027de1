/** What was written is what is read: references tile the source, lie in the appended bytes, and read back. */
module WriteRead {
  import opened Binary
  import opened Common
  import opened Directory
  import opened Catalog
  import opened Chunk
  import opened ChunkWriter

  /** The payloads of the first n references in order, or the first error. */
  function ReadBack(p: Primitives, file: Bytes, refs: seq<ChunkRef>, n: nat, verify: bool, maxChunk: u32): Result<Bytes>
    requires n <= |refs|
  {
    if n == 0 then Ok([])
    else match ReadBack(p, file, refs, n - 1, verify, maxChunk)
      case Err(e) => Err(e)
      case Ok(before) =>
        match LoadRef(p, file, refs[n - 1], verify, maxChunk)
        case Err(e) => Err(e)
        case Ok(raw) => Ok(before + raw)
  }

  // ---------- jobs tile the source ----------

  function JoinRaw(jobs: seq<Job>): Bytes
  {
    if |jobs| == 0 then [] else jobs[0].raw + JoinRaw(jobs[1..])
  }

  ghost predicate TiledJobs(s: Settings, jobs: seq<Job>, index: nat, pos: u64, end: u64)
  {
    if |jobs| == 0 then pos == end
    else
      && jobs[0].index == index && jobs[0].rawOff == pos && 0 < |jobs[0].raw| <= s.size && pos + |jobs[0].raw| <= MAX64
      && (|jobs| > 1 ==> |jobs[0].raw| == s.size)
      && TiledJobs(s, jobs[1..], index + 1, pos + |jobs[0].raw|, end)
  }

  /** The producer's jobs tile the source up to the reported total, which is all of it unless it stopped with an error. */
  lemma {:induction false} ProducedTiles(s: Settings, src: Source, pos: u64, index: nat)
    requires pos <= |src.data|
    ensures var out := Produced(s, src, pos, index);
            && TiledJobs(s, out.jobs, index, pos, out.total) && pos <= out.total <= |src.data|
            && JoinRaw(out.jobs) == src.data[pos..out.total]
            && (out.stop.None? ==> out.total == |src.data| && !src.end.Fails?)
    decreases |src.data| - pos
  {
    hide ReadFull;
    var out := Produced(s, src, pos, index);
    var read := ReadFull(src, pos, s.size);
    if read.Full? && !Exceeds(s, pos + |read.raw|) {
      var rest := Produced(s, src, pos + |read.raw|, index + 1);
      ProducedTiles(s, src, pos + |read.raw|, index + 1);
      assert out.jobs[1..] == rest.jobs;
      assert src.data[pos..out.total] == read.raw + src.data[pos + |read.raw|..out.total];
    } else if read.Last? && !Exceeds(s, pos + |read.raw|) {
      assert out.jobs[1..] == [];
      assert JoinRaw(out.jobs) == read.raw + [];
    }
    ReadFullFails(src, pos, s.size);
  }

  /** An entry of n bytes is over the limits on entries. */
  predicate TooLarge(s: Settings, n: nat)
  {
    n > MAX64 || (s.maxEntry != 0 && s.maxEntry < n)
  }

  /** The producer comes to the end exactly of a source that does not fail and is not too large.  Otherwise it stops with
      the source's error if that comes before the next chunk is complete, and else because the next chunk, cut at the
      end of the data, makes the entry too large.  What it hands out never does. */
  lemma {:induction false} ProducedStops(s: Settings, src: Source, pos: u64, index: nat)
    requires pos <= |src.data| && !TooLarge(s, pos)
    ensures var out := Produced(s, src, pos, index);
            && pos <= out.total <= |src.data| && !TooLarge(s, out.total)
            && (out.stop.None? <==> !src.end.Fails? && !TooLarge(s, |src.data|))
            && (out.stop.Some? ==>
                  var next := if out.total + s.size <= |src.data| then out.total + s.size else |src.data|;
                  if src.end.Fails? && |src.data| < out.total + s.size then out.stop.value == src.end.error
                  else out.stop.value == LimitExceeded && TooLarge(s, next))
    decreases |src.data| - pos
  {
    hide ReadFull;
    ReadFullIs(src, pos, s.size);
    var read := ReadFull(src, pos, s.size);
    if read.Full? && !Exceeds(s, pos + |read.raw|) { ProducedStops(s, src, pos + |read.raw|, index + 1); }
  }

  lemma ReadFullIs(src: Source, pos: nat, size: ChunkSize)
    requires pos <= |src.data|
    ensures |src.data| < pos + size && src.end.Fails? ==> ReadFull(src, pos, size) == ReadError(src.end.error)
    ensures |src.data| < pos + size && !src.end.Fails? ==>
              ReadFull(src, pos, size) == if pos == |src.data| then Finished else Last(src.data[pos..])
  {
  }

  lemma ReadFullFails(src: Source, pos: nat, size: ChunkSize)
    requires pos <= |src.data|
    ensures src.end.Fails? ==> ReadFull(src, pos, size).Full? || ReadFull(src, pos, size).ReadError?
  {
  }

  /** References in raw order without gaps. */
  ghost predicate TiledRefs(refs: seq<ChunkRef>, pos: u64, end: u64)
  {
    if |refs| == 0 then pos == end
    else
      && refs[0].rawOffset == pos && refs[0].rawSize > 0 && refs[0].reserved == 0 && pos + refs[0].rawSize <= MAX64
      && TiledRefs(refs[1..], pos + refs[0].rawSize, end)
  }

  lemma {:induction false} TiledInOrder(refs: seq<ChunkRef>, pos: u64, end: u64)
    requires TiledRefs(refs, pos, end)
    ensures ChunksInOrder(refs, pos) && pos <= end && (|refs| == 0 ==> pos == end)
    ensures |refs| > 0 ==> refs[|refs| - 1].rawOffset + refs[|refs| - 1].rawSize == end && pos < end
  {
    if |refs| != 0 { TiledInOrder(refs[1..], pos + refs[0].rawSize, end); }
  }

  /** The reference of job i agrees with the job. */
  predicate RefOfJob(ref: ChunkRef, job: Job)
  {
    ref.rawOffset == job.rawOff && ref.rawSize == |job.raw| && ref.reserved == 0
  }

  lemma {:induction false} TiledSame(s: Settings, jobs: seq<Job>, refs: seq<ChunkRef>, index: nat, pos: u64, end: u64)
    requires TiledJobs(s, jobs, index, pos, end) && |refs| == |jobs|
    requires forall i :: 0 <= i < |jobs| ==> RefOfJob(refs[i], jobs[i])
    ensures TiledRefs(refs, pos, end)
    decreases |jobs|
  {
    if |jobs| != 0 {
      assert RefOfJob(refs[0], jobs[0]);
      forall i | 0 <= i < |jobs[1..]|
        ensures RefOfJob(refs[1..][i], jobs[1..][i])
      {
        assert RefOfJob(refs[i + 1], jobs[i + 1]);
      }
      TiledSame(s, jobs[1..], refs[1..], index + 1, pos + |jobs[0].raw|, end);
    }
  }

  // ---------- records ----------

  /** Sum of the stored sizes of chunk records. */
  function StoredBytes(refs: seq<ChunkRef>): (n: nat)
    ensures n >= CHUNK_HEADER * |refs|
  {
    if |refs| == 0 then 0 else StoredBytes(refs[..|refs| - 1]) + refs[|refs| - 1].compSize + CHUNK_HEADER
  }

  /** References whose records follow each other from off on. */
  ghost predicate Packed(refs: seq<ChunkRef>, off: nat)
  {
    forall i :: 0 <= i < |refs| ==> refs[i].chunkOffset == off + StoredBytes(refs[..i])
  }

  lemma PackedInside(refs: seq<ChunkRef>, off: nat, i: nat)
    requires Packed(refs, off) && i < |refs|
    ensures off <= refs[i].chunkOffset && refs[i].chunkOffset + CHUNK_HEADER + refs[i].compSize <= off + StoredBytes(refs)
  {
    assert refs[..i + 1][..i] == refs[..i];
    StoredPrefix(refs, i + 1);
  }

  lemma {:induction false} StoredPrefix(refs: seq<ChunkRef>, i: nat)
    requires i <= |refs|
    ensures StoredBytes(refs[..i]) <= StoredBytes(refs)
    decreases |refs|
  {
    if i < |refs| {
      StoredPrefix(refs[..|refs| - 1], i);
      assert refs[..|refs| - 1][..i] == refs[..i];
    } else {
      assert refs[..i] == refs;
    }
  }

  ghost predicate SmallJobs(jobs: seq<Job>)
  {
    forall i :: 0 <= i < |jobs| ==> 0 < |jobs[i].raw| < U32
  }

  ghost predicate Describe(refs: seq<ChunkRef>, jobs: seq<Job>)
  {
    |refs| <= |jobs| && forall i :: 0 <= i < |refs| ==> RefOfJob(refs[i], jobs[i])
  }

  /** What a successful trace over n jobs has appended: records packed from off on, one for each job, that read back. */
  ghost predicate Faithful(s: Settings, jobs: seq<Job>, n: nat, off: nat, t: Trace, file: Bytes, verify: bool)
    requires n <= |jobs|
  {
    && |t.refs| == n && Describe(t.refs, jobs) && Packed(t.refs, off) && |t.log| == StoredBytes(t.refs)
    && (At(file, off, t.log) ==> ReadBack(s.p, file, t.refs, n, verify, 0) == Ok(JoinRaw(jobs[..n])))
  }

  lemma {:induction false} TraceReadsBack(s: Settings, jobs: seq<Job>, n: nat, off: nat,
      refuse: Refuse, file: Bytes, verify: bool)
    requires s.p.InversePair() && n <= |jobs| && SmallJobs(jobs) && WriteJobs(s, jobs, n, off, refuse).err.None?
    ensures Faithful(s, jobs, n, off, WriteJobs(s, jobs, n, off, refuse), file, verify)
  {
    hide AppendCoded, EncodeJob, Faithful;
    if n == 0 {
      TraceStarts(s, jobs, off, refuse, file, verify);
    } else {
      FailureSticks1(s, jobs, n, off, refuse);
      TraceReadsBack(s, jobs, n - 1, off, refuse, file, verify);
      AppendedReadsBack(s, jobs, n - 1, off, WriteJobs(s, jobs, n - 1, off, refuse), file, verify, refuse);
    }
  }

  lemma TraceStarts(s: Settings, jobs: seq<Job>, off: nat, refuse: Refuse, file: Bytes, verify: bool)
    ensures Faithful(s, jobs, 0, off, WriteJobs(s, jobs, 0, off, refuse), file, verify)
  {
  }

  lemma FailureSticks1(s: Settings, jobs: seq<Job>, n: nat, off: nat, refuse: Refuse)
    requires 0 < n <= |jobs| && WriteJobs(s, jobs, n, off, refuse).err.None?
    ensures WriteJobs(s, jobs, n - 1, off, refuse).err.None?
  {
    hide EncodeJob;
  }

  lemma {:induction false} JoinRawSnoc(jobs: seq<Job>, n: nat)
    requires n < |jobs|
    ensures JoinRaw(jobs[..n + 1]) == JoinRaw(jobs[..n]) + jobs[n].raw
  {
    if n == 0 {
      assert jobs[..1] == [jobs[0]] && jobs[..0] == [];
      assert JoinRaw([jobs[0]]) == jobs[0].raw + JoinRaw([]);
    } else {
      JoinRawSnoc(jobs[1..], n - 1);
      assert jobs[1..][..n] == jobs[..n + 1][1..] && jobs[1..][..n - 1] == jobs[..n][1..];
    }
  }

  lemma {:induction false} ReadBackPrefix(p: Primitives, file: Bytes, refs: seq<ChunkRef>, more: ChunkRef, n: nat,
      verify: bool, maxChunk: u32)
    requires n <= |refs|
    ensures ReadBack(p, file, refs + [more], n, verify, maxChunk) == ReadBack(p, file, refs, n, verify, maxChunk)
  {
    hide LoadRef;
    if n != 0 { ReadBackPrefix(p, file, refs, more, n - 1, verify, maxChunk); }
  }

  lemma PackedMore(refs: seq<ChunkRef>, more: ChunkRef, off: nat)
    requires Packed(refs, off) && more.chunkOffset == off + StoredBytes(refs)
    ensures Packed(refs + [more], off)
    ensures StoredBytes(refs + [more]) == StoredBytes(refs) + more.compSize + CHUNK_HEADER
  {
    var all := refs + [more];
    assert all[..|refs|] == refs;
    forall i | 0 <= i < |all|
      ensures all[i].chunkOffset == off + StoredBytes(all[..i])
    {
      if i < |refs| { assert all[..i] == refs[..i]; }
    }
  }

  lemma AppendedReadsBack(s: Settings, jobs: seq<Job>, n: nat, off: nat, t: Trace, file: Bytes, verify: bool,
      refuse: Refuse)
    requires s.p.InversePair() && n < |jobs| && SmallJobs(jobs) && t.err.None?
    requires Faithful(s, jobs, n, off, t, file, verify)
    requires AppendCoded(t, EncodeJob(s, jobs[n]), off, refuse).err.None?
    ensures Faithful(s, jobs, n + 1, off, AppendCoded(t, EncodeJob(s, jobs[n]), off, refuse), file, verify)
  {
    hide EncodeChunk, LoadRef, StoredBytes, Packed, ReadBack, At, JoinRaw, Refusal;
    var job := jobs[n];
    var u := AppendCoded(t, EncodeJob(s, job), off, refuse);
    var rec, ref := EncodeJob(s, job).rec, u.refs[n];
    RecordSizes(s, job);
    PackedMore(t.refs, ref, off);
    JoinRawSnoc(jobs, n);
    if At(file, off, u.log) {
      AtSplit(file, off, t.log, rec);
      RecordReadsBack(s.p, file, off + |t.log|, job.raw, job.rawOff, s.codec, s.level, verify, 0);
      ReadBackPrefix(s.p, file, t.refs, ref, n, verify, 0);
      ReadBackStep(s.p, file, u.refs, n, verify, 0);
    }
  }

  lemma ReadBackStep(p: Primitives, file: Bytes, refs: seq<ChunkRef>, n: nat, verify: bool, maxChunk: u32)
    requires n < |refs| && ReadBack(p, file, refs, n, verify, maxChunk).Ok?
    requires LoadRef(p, file, refs[n], verify, maxChunk).Ok?
    ensures ReadBack(p, file, refs, n + 1, verify, maxChunk)
            == Ok(ReadBack(p, file, refs, n, verify, maxChunk).value
                  + LoadRef(p, file, refs[n], verify, maxChunk).value)
  {
    hide LoadRef;
  }

  lemma RecordSizes(s: Settings, job: Job)
    requires s.p.InversePair() && 0 < |job.raw| < U32 && EncodeJob(s, job).Coded?
    ensures CHUNK_HEADER < |EncodeJob(s, job).rec| < CHUNK_HEADER + U32
    ensures EncodeChunk(s.p, job.raw, s.codec, s.level).Ok?
    ensures EncodeChunk(s.p, job.raw, s.codec, s.level).value == (EncodeJob(s, job).rec, EncodeJob(s, job).crc)
  {
    hide ChunkHead;
  }

  // ---------- the round trip ----------

  /** For any source and any settings with chunks below 4 GiB: writing succeeds only if the source ended without a
      reported error, and then the references are contiguous from 0 to the size of the data, their records lie packed
      in the appended bytes, and wherever the file holds these bytes the chunks read back as the data. */
  lemma WrittenReadsBack(s: Settings, src: Source, off: nat, refuse: Refuse, file: Bytes, verify: bool)
    requires s.p.InversePair() && s.size < U32 && Written(s, src, off, refuse).result.Ok?
    ensures var w := Written(s, src, off, refuse); var (refs, total) := w.result.value;
            && !src.end.Fails? && total == |src.data| && TiledRefs(refs, 0, total)
            && Packed(refs, off) && |w.log| == StoredBytes(refs)
            && (At(file, off, w.log) ==> ReadBack(s.p, file, refs, |refs|, verify, 0) == Ok(src.data))
  {
    hide EncodeJob, AppendCoded, WriteJobs, Produced, TiledJobs, TiledRefs, StoredBytes, Packed, ReadBack;
    ProducedTiles(s, src, 0, 0);
    var jobs := Produced(s, src, 0, 0).jobs;
    TiledSmall(s, jobs, 0, 0, Produced(s, src, 0, 0).total);
    TraceReadsBack(s, jobs, |jobs|, off, refuse, file, verify);
    TiledSame(s, jobs, Written(s, src, off, refuse).result.value.0, 0, 0, |src.data|);
    assert jobs[..|jobs|] == jobs && src.data[0..|src.data|] == src.data;
  }

  /** A write succeeds exactly if its source does not fail and is not too large, every chunk can be encoded, and none of
      their writes is refused.  If all that is wrong is the size, that is the error. */
  lemma WrittenIff(s: Settings, src: Source, off: nat, refuse: Refuse)
    ensures var jobs := Produced(s, src, 0, 0).jobs; var r := Written(s, src, off, refuse).result;
            && (r.Ok? <==> !src.end.Fails? && !TooLarge(s, |src.data|) && forall i :: 0 <= i < |jobs| ==> JobGoes(s, jobs, i, off, refuse))
            && (r.Ok? ==> r.value.1 == |src.data|)
            && (!src.end.Fails? && TooLarge(s, |src.data|) && (forall i :: 0 <= i < |jobs| ==> JobGoes(s, jobs, i, off, refuse)) ==>
                  r == Err(LimitExceeded))
  {
    hide Produced, WriteJobs, JobGoes;
    ProducedStops(s, src, 0, 0);
    ProducedTiles(s, src, 0, 0);
    var jobs := Produced(s, src, 0, 0).jobs;
    if forall i :: 0 <= i < |jobs| ==> JobGoes(s, jobs, i, off, refuse) {
      JobsGo(s, jobs, |jobs|, off, refuse);
    } else {
      var k := FirstStuck(s, jobs, 0, off, refuse);
      FailsAtLog(s, src, off, refuse, k);
    }
  }

  lemma {:induction false} FirstStuck(s: Settings, jobs: seq<Job>, i: nat, off: nat, refuse: Refuse) returns (k: nat)
    requires i <= |jobs| && forall j :: 0 <= j < i ==> JobGoes(s, jobs, j, off, refuse)
    requires exists j :: 0 <= j < |jobs| && !JobGoes(s, jobs, j, off, refuse)
    ensures k < |jobs| && !JobGoes(s, jobs, k, off, refuse) && forall j :: 0 <= j < k ==> JobGoes(s, jobs, j, off, refuse)
    decreases |jobs| - i
  {
    hide JobGoes;
    k := i;
    if JobGoes(s, jobs, i, off, refuse) { k := FirstStuck(s, jobs, i + 1, off, refuse); }
  }

  lemma {:induction false} TiledSmall(s: Settings, jobs: seq<Job>, index: nat, pos: u64, end: u64)
    requires TiledJobs(s, jobs, index, pos, end) && s.size < U32
    ensures SmallJobs(jobs)
    decreases |jobs|
  {
    if |jobs| != 0 {
      TiledSmall(s, jobs[1..], index + 1, pos + |jobs[0].raw|, end);
      forall i | 0 <= i < |jobs|
        ensures 0 < |jobs[i].raw| < U32
      {
        if i > 0 { assert jobs[i] == jobs[1..][i - 1]; }
      }
    }
  }

  /** The reader's error for a premature end is taken as the end of the data: a source cut short by it is
      stored, without complaint, exactly like a complete source. */
  lemma PrematureEndAccepted(s: Settings, data: Bytes, off: nat, refuse: Refuse)
    ensures Written(s, Source(data, Unexpected), off, refuse) == Written(s, Source(data, Clean), off, refuse)
  {
    hide WriteJobs;
    SameProduced(s, data, 0, 0);
  }

  lemma {:induction false} SameProduced(s: Settings, data: Bytes, pos: u64, index: nat)
    requires pos <= |data|
    ensures Produced(s, Source(data, Unexpected), pos, index) == Produced(s, Source(data, Clean), pos, index)
    decreases |data| - pos
  {
    hide ReadFull;
    SameReads(data, pos, s.size);
    var read := ReadFull(Source(data, Clean), pos, s.size);
    if read.Full? && !Exceeds(s, pos + |read.raw|) { SameProduced(s, data, pos + |read.raw|, index + 1); }
  }

  lemma SameReads(data: Bytes, pos: nat, size: ChunkSize)
    requires pos <= |data|
    ensures ReadFull(Source(data, Unexpected), pos, size) == ReadFull(Source(data, Clean), pos, size)
  {
  }
}

/** The parallel chunk writer: a producer, workers and a collector over two bounded channels. */
module Pipeline {
  import opened Binary
  import opened Common
  import opened Directory
  import opened Chunk
  import opened Disk
  import opened ChunkWriter
  import opened WriteRead

  // ---------- the collector ----------

  /** Results that arrived early, the next index to be written, and what has been written. */
  datatype Collector = Collector(pending: map<nat, Coded>, next: nat, t: Trace)

  ghost predicate Sized(pending: map<nat, Coded>)
  {
    forall k :: k in pending && pending[k].Coded? ==> CHUNK_HEADER <= |pending[k].rec|
  }

  /** The drain loop: while the next index is there, take it out and write it unless something failed before. */
  ghost function Drain(c: Collector, off: nat, refuse: Refuse): (d: Collector)
    requires Sized(c.pending)
    ensures Sized(d.pending)
    decreases |c.pending|
  {
    if c.next !in c.pending then c
    else Drain(Collector(c.pending - {c.next}, c.next + 1, AppendCoded(c.t, c.pending[c.next], off, refuse)), off, refuse)
  }

  /** One arrival: its error, if it is the first one, is remembered at once; then the drain loop runs. */
  ghost function Receive(c: Collector, res: Coded, off: nat, refuse: Refuse): (d: Collector)
    requires Sized(c.pending) && (res.Coded? ==> CHUNK_HEADER <= |res.rec|)
    ensures Sized(d.pending)
  {
    var t := if res.Bad? && c.t.err.None? then c.t.(err := Some(res.error)) else c.t;
    Drain(Collector(c.pending[res.index := res], c.next, t), off, refuse)
  }

  ghost predicate SizedResults(rs: seq<Coded>)
  {
    forall r :: r in rs && r.Coded? ==> CHUNK_HEADER <= |r.rec|
  }

  ghost function ReceiveAll(rs: seq<Coded>, n: nat, off: nat, refuse: Refuse): (d: Collector)
    requires n <= |rs| && SizedResults(rs)
    ensures Sized(d.pending)
  {
    if n == 0 then Collector(map[], 0, Trace([], [], None)) else Receive(ReceiveAll(rs, n - 1, off, refuse), rs[n - 1], off, refuse)
  }

  /** Handles one result in its turn: after any error, and for a failed chunk, nothing is written. */
  method Settle(f: File, ghost d0: Disk, off: nat, ghost log: Bytes, refs: seq<ChunkRef>, end: nat,
      err: Option<Error>, cur: Coded)
    returns (refs2: seq<ChunkRef>, end2: nat, err2: Option<Error>, ghost log2: Bytes)
    requires f.Valid() && AllWrites(d0.pending) && Reached(d0, f.disk, off, log) && end == off + |log|
    requires cur.Coded? ==> CHUNK_HEADER <= |cur.rec|
    modifies f`disk
    ensures f.Valid() && Reached(d0, f.disk, off, log2) && end2 == off + |log2|
    ensures Trace(refs2, log2, err2) == AppendCoded(Trace(refs, log, err), cur, off, f.refuse)
  {
    hide View, Reached;
    refs2, end2, err2, log2 := refs, end, err, log;
    if cur.Bad? {
      if err.None? { err2 := Some(cur.error); }
    } else if err.None? {
      ghost var before := f.disk;
      err2 := f.WriteAt(end, cur.rec);
      if err2.None? {
        ReachedMore(d0, before, off, log, cur.rec);
        refs2 := refs + [RefFor(end, cur.rawOff, cur.rawSize, cur.rec, cur.crc)];
        end2, log2 := end + |cur.rec|, log + cur.rec;
      }
    }
  }

  /** The inner loop: writes results as long as the next one has arrived. */
  method DrainPending(f: File, ghost d0: Disk, off: nat, ghost log: Bytes, pending: map<nat, Coded>, next: nat,
      refs: seq<ChunkRef>,
                      end: nat, err: Option<Error>)
    returns (pending2: map<nat, Coded>, next2: nat, refs2: seq<ChunkRef>, end2: nat, err2: Option<Error>, ghost log2: Bytes)
    requires f.Valid() && AllWrites(d0.pending) && Reached(d0, f.disk, off, log) && end == off + |log| && Sized(pending)
    modifies f`disk
    ensures f.Valid() && Reached(d0, f.disk, off, log2) && end2 == off + |log2|
    ensures Collector(pending2, next2, Trace(refs2, log2, err2))
            == Drain(Collector(pending, next, Trace(refs, log, err)), off, f.refuse)
  {
    hide View, Reached, AppendCoded;
    pending2, next2, refs2, end2, err2, log2 := pending, next, refs, end, err, log;
    while next2 in pending2
      invariant f.Valid() && Sized(pending2) && end2 == off + |log2| && Reached(d0, f.disk, off, log2)
      invariant Drain(Collector(pending2, next2, Trace(refs2, log2, err2)), off, f.refuse)
                == Drain(Collector(pending, next, Trace(refs, log, err)), off, f.refuse)
      decreases |pending2|
    {
      var cur := pending2[next2];
      refs2, end2, err2, log2 := Settle(f, d0, off, log2, refs2, end2, err2, cur);
      pending2, next2 := pending2 - {next2}, next2 + 1;
    }
  }

  /** The collector's loops, for results in any order of arrival. */
  method CollectResults(f: File, off: nat, arrivals: seq<Coded>)
    returns (pending: map<nat, Coded>, next: nat, refs: seq<ChunkRef>, end: nat, err: Option<Error>)
    requires f.Valid() && SizedResults(arrivals)
    modifies f`disk
    ensures f.Valid() && var d := ReceiveAll(arrivals, |arrivals|, off, f.refuse);
            && pending == d.pending && next == d.next && refs == d.t.refs && err == d.t.err
            && end == off + |d.t.log| && Reached(old(f.disk), f.disk, off, d.t.log)
  {
    hide View, Reached, AppendCoded, Drain;
    pending, next, refs, end, err := map[], 0, [], off, None;
    ghost var log: Bytes := [];
    StartReached(f.disk, off);
    for i := 0 to |arrivals|
      invariant f.Valid() && Sized(pending) && end == off + |log| && Reached(old(f.disk), f.disk, off, log)
      invariant Collector(pending, next, Trace(refs, log, err)) == ReceiveAll(arrivals, i, off, f.refuse)
    {
      var res := arrivals[i];
      if res.Bad? && err.None? { err := Some(res.error); }
      pending := pending[res.index := res];
      pending, next, refs, end, err, log := DrainPending(f, old(f.disk), off, log, pending, next, refs, end, err);
    }
  }

  // ---------- the machine ----------

  datatype Worker = Waiting | Holding(job: Job) | Exited

  type Crew = n: nat | 0 < n witness 1

  datatype Config = Config(s: Settings, src: Source, off: nat, refuse: Refuse, crew: Crew)
  {
    function Out(): Output { Produced(s, src, 0, 0) }
    function Jobs(): seq<Job> { Out().jobs }
    function Capacity(): nat { 2 * crew }
    function Code(k: nat): Coded requires k < |Jobs()| { EncodeJob(s, Jobs()[k]) }
    function After(n: nat): Trace requires n <= |Jobs()| { WriteJobs(s, Jobs(), n, off, refuse) }
  }

  datatype Pipe = Pipe(sent: nat, closed: bool, jobs: seq<Job>, workers: seq<Worker>, results: seq<Coded>,
                       resultsClosed: bool, col: Collector, finished: bool)

  function Start(c: Config): Pipe
  {
    Pipe(0, false, [], seq(c.crew, i => Waiting), [], false, Collector(map[], 0, Trace([], [], None)), false)
  }

  datatype Move = Produce | CloseJobs | Take(w: nat) | Send(w: nat) | Exit(w: nat) | CloseResults | Collect | Finish

  ghost predicate Enabled(c: Config, s: Pipe, m: Move)
  {
    match m
    case Produce => !s.closed && s.sent < |c.Jobs()| && |s.jobs| < c.Capacity()
    case CloseJobs => !s.closed && s.sent == |c.Jobs()|
    case Take(w) => w < |s.workers| && s.workers[w].Waiting? && |s.jobs| > 0
    case Send(w) => w < |s.workers| && s.workers[w].Holding? && |s.results| < c.Capacity()
    case Exit(w) => w < |s.workers| && s.workers[w].Waiting? && s.closed && s.jobs == []
    case CloseResults => !s.resultsClosed && forall w :: 0 <= w < |s.workers| ==> s.workers[w].Exited?
    case Collect => !s.finished && |s.results| > 0 && Sized(s.col.pending) && (s.results[0].Coded? ==> CHUNK_HEADER <= |s.results[0].rec|)
    case Finish => !s.finished && s.resultsClosed && s.results == []
  }

  ghost function Act(c: Config, s: Pipe, m: Move): Pipe
    requires Enabled(c, s, m)
  {
    match m
    case Produce => s.(jobs := s.jobs + [c.Jobs()[s.sent]], sent := s.sent + 1)
    case CloseJobs => s.(closed := true)
    case Take(w) => s.(jobs := s.jobs[1..], workers := s.workers[w := Holding(s.jobs[0])])
    case Send(w) => s.(results := s.results + [EncodeJob(c.s, s.workers[w].job)], workers := s.workers[w := Waiting])
    case Exit(w) => s.(workers := s.workers[w := Exited])
    case CloseResults => s.(resultsClosed := true)
    case Collect => s.(results := s.results[1..], col := Receive(s.col, s.results[0], c.off, c.refuse))
    case Finish => s.(finished := true)
  }

  ghost predicate Step(c: Config, s: Pipe, t: Pipe)
  {
    exists m :: Enabled(c, s, m) && t == Act(c, s, m)
  }

  /** A run of the machine under any schedule. */
  ghost predicate Schedule(c: Config, states: seq<Pipe>)
  {
    |states| > 0 && states[0] == Start(c) && forall i :: 0 < i < |states| ==> Step(c, states[i - 1], states[i])
  }

  // ---------- where every index is ----------

  function JobIndices(js: seq<Job>): seq<nat> { seq(|js|, i requires 0 <= i < |js| => js[i].index) }

  function CodedIndices(rs: seq<Coded>): seq<nat> { seq(|rs|, i requires 0 <= i < |rs| => rs[i].index) }

  function HeldBy(w: Worker): multiset<nat>
  {
    if w.Holding? then multiset{w.job.index} else multiset{}
  }

  function Held(ws: seq<Worker>): multiset<nat>
  {
    if |ws| == 0 then multiset{} else HeldBy(ws[0]) + Held(ws[1..])
  }

  function Weight(w: Worker): nat { if w.Waiting? then 1 else if w.Holding? then 3 else 0 }

  function Weights(ws: seq<Worker>): nat
  {
    if |ws| == 0 then 0 else Weight(ws[0]) + Weights(ws[1..])
  }

  lemma {:induction false} HeldChanges(ws: seq<Worker>, w: nat, x: Worker)
    requires w < |ws|
    ensures Held(ws[w := x]) + HeldBy(ws[w]) == Held(ws) + HeldBy(x)
    decreases |ws|
  {
    hide HeldBy;
    var u := ws[w := x];
    if w == 0 {
      assert u[1..] == ws[1..];
    } else {
      HeldChanges(ws[1..], w - 1, x);
      assert u[1..] == ws[1..][w - 1 := x] && u[0] == ws[0] && ws[1..][w - 1] == ws[w];
      Regroup(HeldBy(ws[0]), Held(u[1..]), HeldBy(ws[w]), Held(ws[1..]), HeldBy(x));
    }
  }

  lemma Regroup(h: multiset<nat>, a: multiset<nat>, b: multiset<nat>, c: multiset<nat>, d: multiset<nat>)
    requires a + b == c + d
    ensures (h + a) + b == (h + c) + d
  {
    assert (h + a) + b == h + (a + b);
  }

  lemma {:induction false} WeightChanges(ws: seq<Worker>, w: nat, x: Worker)
    requires w < |ws|
    ensures Weights(ws[w := x]) + Weight(ws[w]) == Weights(ws) + Weight(x)
    decreases |ws|
  {
    hide Weight;
    var u := ws[w := x];
    if w == 0 {
      assert u[1..] == ws[1..];
    } else {
      WeightChanges(ws[1..], w - 1, x);
      assert u[1..] == ws[1..][w - 1 := x] && u[0] == ws[0] && ws[1..][w - 1] == ws[w];
    }
  }

  /** The indices from a up to b, once each. */
  function Range(a: nat, b: nat): (r: multiset<nat>)
    ensures forall k :: r[k] == if a <= k < b then 1 else 0
  {
    if b <= a then multiset{} else Range(a, b - 1) + multiset{(b - 1) as nat}
  }

  lemma RangeLast(a: nat, b: nat)
    requires a <= b
    ensures Range(a, b + 1) == Range(a, b) + multiset{b}
  {
  }

  function Everywhere(s: Pipe): multiset<nat>
  {
    multiset(JobIndices(s.jobs)) + Held(s.workers) + multiset(CodedIndices(s.results)) + multiset(s.col.pending.Keys)
  }

  // ---------- invariant ----------

  predicate IsJob(c: Config, n: nat, j: Job)
  {
    j.index < n <= |c.Jobs()| && j == c.Jobs()[j.index]
  }

  predicate IsResult(c: Config, n: nat, r: Coded)
  {
    r.index < n <= |c.Jobs()| && r == c.Code(r.index)
  }

  /** Everything under way is the job, or the encoding of the job, that its index says. */
  ghost predicate Genuine(c: Config, s: Pipe)
  {
    && (forall j :: j in s.jobs ==> IsJob(c, s.sent, j))
    && (forall w :: 0 <= w < |s.workers| && s.workers[w].Holding? ==> IsJob(c, s.sent, s.workers[w].job))
    && (forall r :: r in s.results ==> IsResult(c, s.sent, r))
    && PendingGenuine(c, s.col.pending)
  }

  /** What has been written is exactly what the sequential loop writes for the first jobs; after an error it is what
      the loop writes for some of them, and the loop fails too. */
  ghost predicate Sequenced(c: Config, col: Collector)
  {
    && col.next <= |c.Jobs()|
    && if col.t.err.None? then col.t == c.After(col.next)
       else c.After(|c.Jobs()|).err.Some? && ErrorFrom(c, col.t.err.value) && exists m :: WrittenUpTo(c, col, m)
  }

  /** The error the sequential loop writes no further for, or the encoding error of some chunk. */
  ghost predicate ErrorFrom(c: Config, e: Error)
  {
    c.After(|c.Jobs()|).err == Some(e) || exists k :: 0 <= k < |c.Jobs()| && c.Code(k) == Bad(k, e)
  }

  ghost predicate WrittenUpTo(c: Config, col: Collector, m: nat)
  {
    m <= col.next <= |c.Jobs()| && c.After(m).err.None? && col.t.log == c.After(m).log && col.t.refs == c.After(m).refs
  }

  ghost predicate Channels(c: Config, s: Pipe)
  {
    && s.sent <= |c.Jobs()| && (s.closed ==> s.sent == |c.Jobs()|)
    && |s.workers| == c.crew && |s.jobs| <= c.Capacity() && |s.results| <= c.Capacity()
    && (forall w :: 0 <= w < |s.workers| && s.workers[w].Exited? ==> s.closed && s.jobs == [])
    && (s.resultsClosed ==> forall w :: 0 <= w < |s.workers| ==> s.workers[w].Exited?)
    && (s.finished ==> s.resultsClosed && s.results == [])
  }

  ghost predicate Inv(c: Config, s: Pipe)
  {
    && Channels(c, s) && Genuine(c, s) && Sequenced(c, s.col)
    && s.col.next <= s.sent && s.col.next !in s.col.pending
    && Everywhere(s) == Range(s.col.next, s.sent)
  }

  // ---------- the collector keeps the order ----------

  /** One turn of the drain loop. */
  lemma DrainTurn(c: Config, col: Collector)
    requires Sequenced(c, col) && col.next in col.pending && col.next < |c.Jobs()| && col.pending[col.next] == c.Code(col.next)
    ensures Sequenced(c, Collector(col.pending - {col.next}, col.next + 1,
                                   AppendCoded(col.t, col.pending[col.next], c.off, c.refuse)))
  {
    hide EncodeJob, AppendCoded, Produced;
    var n := col.next;
    var t := AppendCoded(col.t, col.pending[n], c.off, c.refuse);
    var after := Collector(col.pending - {n}, n + 1, t);
    if col.t.err.Some? {
      AppendAfterError(col.t, col.pending[n], c.off, c.refuse);
      var m :| WrittenUpTo(c, col, m);
      assert WrittenUpTo(c, after, m);
    } else {
      assert t == c.After(n + 1);
      if t.err.Some? {
        FailureSticks(c.s, c.Jobs(), n + 1, |c.Jobs()|, c.off, c.refuse);
        AppendKeepsLog(col.t, col.pending[n], c.off, c.refuse);
        assert ErrorFrom(c, t.err.value);
        assert WrittenUpTo(c, after, n);
      }
    }
  }

  lemma AppendAfterError(t: Trace, x: Coded, off: nat, refuse: Refuse)
    requires t.err.Some? && (x.Coded? ==> CHUNK_HEADER <= |x.rec|)
    ensures AppendCoded(t, x, off, refuse) == t
  {
  }

  lemma AppendKeepsLog(t: Trace, x: Coded, off: nat, refuse: Refuse)
    requires (x.Coded? ==> CHUNK_HEADER <= |x.rec|) && AppendCoded(t, x, off, refuse).err.Some?
    ensures AppendCoded(t, x, off, refuse).log == t.log && AppendCoded(t, x, off, refuse).refs == t.refs
  {
  }

  ghost predicate PendingGenuine(c: Config, pending: map<nat, Coded>)
  {
    forall k :: k in pending ==> k < |c.Jobs()| && pending[k] == c.Code(k)
  }

  lemma GenuineSized(c: Config, pending: map<nat, Coded>)
    requires PendingGenuine(c, pending)
    ensures Sized(pending)
  {
    hide Produced;
  }

  lemma GenuineAt(c: Config, pending: map<nat, Coded>, k: nat)
    requires PendingGenuine(c, pending) && k in pending
    ensures k < |c.Jobs()| && pending[k] == c.Code(k) && PendingGenuine(c, pending - {k})
    ensures pending[k].Coded? ==> CHUNK_HEADER <= |pending[k].rec|
  {
    hide Produced, EncodeJob;
  }

  lemma PeelKey(elsewhere: multiset<nat>, keys: set<nat>, n: nat, sent: nat)
    requires n in keys && elsewhere + multiset(keys) == Range(n, sent)
    ensures n < sent && elsewhere + multiset(keys - {n}) == Range(n + 1, sent)
  {
    var all := elsewhere + multiset(keys);
    assert all[n] >= 1;
    forall k: nat
      ensures (elsewhere + multiset(keys - {n}))[k] == Range(n + 1, sent)[k]
    {
      assert all[k] == Range(n, sent)[k];
    }
  }

  /** The drain loop takes a run of consecutive indices from the pending ones and keeps the order of writing. */
  lemma {:induction false} DrainKeeps(c: Config, col: Collector, sent: nat, elsewhere: multiset<nat>)
    requires PendingGenuine(c, col.pending) && Sized(col.pending) && Sequenced(c, col)
    requires col.next <= sent && elsewhere + multiset(col.pending.Keys) == Range(col.next, sent)
    ensures var d := Drain(col, c.off, c.refuse);
            && PendingGenuine(c, d.pending) && Sequenced(c, d) && d.next !in d.pending && d.next <= sent
            && elsewhere + multiset(d.pending.Keys) == Range(d.next, sent)
    decreases |col.pending|
  {
    hide Sequenced, AppendCoded, EncodeJob, Produced, PendingGenuine, Range, Sized;
    if col.next in col.pending {
      GenuineAt(c, col.pending, col.next);
      var rest := Collector(col.pending - {col.next}, col.next + 1,
                            AppendCoded(col.t, col.pending[col.next], c.off, c.refuse));
      DrainTurn(c, col);
      PeelKey(elsewhere, col.pending.Keys, col.next, sent);
      assert rest.pending.Keys == col.pending.Keys - {col.next};
      assert Sized(rest.pending) by { GenuineSized(c, rest.pending); }
      DrainKeeps(c, rest, sent, elsewhere);
    }
  }

  lemma BadJobFails(c: Config, k: nat)
    requires k < |c.Jobs()| && c.Code(k).Bad?
    ensures c.After(|c.Jobs()|).err.Some?
  {
    hide EncodeJob, Produced;
    FailureSticks(c.s, c.Jobs(), k + 1, |c.Jobs()|, c.off, c.refuse);
  }

  lemma FreshKey(elsewhere: multiset<nat>, keys: set<nat>, k: nat, n: nat, sent: nat)
    requires elsewhere + multiset{k} + multiset(keys) == Range(n, sent)
    ensures k !in keys && n <= k < sent && elsewhere + multiset(keys + {k}) == Range(n, sent)
  {
    var all := elsewhere + multiset{k} + multiset(keys);
    assert all[k] == Range(n, sent)[k];
  }

  lemma ReceiveKeeps(c: Config, col: Collector, res: Coded, sent: nat, elsewhere: multiset<nat>)
    requires PendingGenuine(c, col.pending) && Sequenced(c, col) && col.next <= sent && IsResult(c, sent, res)
    requires elsewhere + multiset{res.index} + multiset(col.pending.Keys) == Range(col.next, sent)
    ensures Sized(col.pending) && (res.Coded? ==> CHUNK_HEADER <= |res.rec|)
    ensures var d := Receive(col, res, c.off, c.refuse);
            && PendingGenuine(c, d.pending) && Sequenced(c, d) && d.next !in d.pending && d.next <= sent
            && elsewhere + multiset(d.pending.Keys) == Range(d.next, sent)
  {
    hide AppendCoded, Produced, Drain;
    GenuineSized(c, col.pending);
    FreshKey(elsewhere, col.pending.Keys, res.index, col.next, sent);
    var t := if res.Bad? && col.t.err.None? then col.t.(err := Some(res.error)) else col.t;
    var marked := Collector(col.pending[res.index := res], col.next, t);
    assert marked.pending.Keys == col.pending.Keys + {res.index};
    assert Sequenced(c, marked) by {
      if res.Bad? && col.t.err.None? {
        BadJobFails(c, res.index);
        assert c.Code(res.index) == Bad(res.index, res.error);
        assert ErrorFrom(c, res.error);
        assert WrittenUpTo(c, marked, col.next);
      } else if col.t.err.Some? {
        var m :| WrittenUpTo(c, col, m);
        assert WrittenUpTo(c, marked, m);
      }
    }
    GenuineSized(c, marked.pending);
    DrainKeeps(c, marked, sent, elsewhere);
  }

  // ---------- every move keeps the invariant ----------

  lemma {:induction false} JobIndex(s: Settings, jobs: seq<Job>, index: nat, pos: u64, end: u64, k: nat)
    requires TiledJobs(s, jobs, index, pos, end) && k < |jobs|
    ensures jobs[k].index == index + k
    decreases k
  {
    if k != 0 { JobIndex(s, jobs[1..], index + 1, pos + |jobs[0].raw|, end, k - 1); }
  }

  lemma NumberedJobs(c: Config, k: nat)
    requires k < |c.Jobs()|
    ensures c.Jobs()[k].index == k
  {
    hide Produced, TiledJobs;
    ProducedTiles(c.s, c.src, 0, 0);
    JobIndex(c.s, c.Jobs(), 0, 0, c.Out().total, k);
  }

  lemma IndicesMore(js: seq<Job>, j: Job)
    ensures multiset(JobIndices(js + [j])) == multiset(JobIndices(js)) + multiset{j.index}
  {
    assert JobIndices(js + [j]) == JobIndices(js) + [j.index];
  }

  lemma IndicesLess(js: seq<Job>)
    requires |js| > 0
    ensures multiset(JobIndices(js)) == multiset{js[0].index} + multiset(JobIndices(js[1..]))
  {
    assert JobIndices(js) == [js[0].index] + JobIndices(js[1..]);
  }

  lemma CodedMore(rs: seq<Coded>, r: Coded)
    ensures multiset(CodedIndices(rs + [r])) == multiset(CodedIndices(rs)) + multiset{r.index}
  {
    assert CodedIndices(rs + [r]) == CodedIndices(rs) + [r.index];
  }

  lemma CodedLess(rs: seq<Coded>)
    requires |rs| > 0
    ensures multiset(CodedIndices(rs)) == multiset{rs[0].index} + multiset(CodedIndices(rs[1..]))
  {
    assert CodedIndices(rs) == [rs[0].index] + CodedIndices(rs[1..]);
  }

  lemma ProduceKeeps(c: Config, s: Pipe)
    requires Inv(c, s) && Enabled(c, s, Produce)
    ensures Inv(c, Act(c, s, Produce))
  {
    hide Produced, Sequenced, Held, JobIndices, CodedIndices, Range;
    var t := Act(c, s, Produce);
    NumberedJobs(c, s.sent);
    IndicesMore(s.jobs, c.Jobs()[s.sent]);
    RangeLast(s.col.next, s.sent);
    assert Everywhere(t) == Everywhere(s) + multiset{s.sent};
  }

  lemma TakeKeeps(c: Config, s: Pipe, w: nat)
    requires Inv(c, s) && Enabled(c, s, Take(w))
    ensures Inv(c, Act(c, s, Take(w)))
  {
    hide Produced, Sequenced, Held, JobIndices, CodedIndices, Range;
    var t := Act(c, s, Take(w));
    HeldChanges(s.workers, w, Holding(s.jobs[0]));
    IndicesLess(s.jobs);
    assert Held(t.workers) == Held(s.workers) + multiset{s.jobs[0].index};
    assert Everywhere(t) == Everywhere(s);
    assert Channels(c, t);
  }

  lemma SendKeeps(c: Config, s: Pipe, w: nat)
    requires Inv(c, s) && Enabled(c, s, Send(w))
    ensures Inv(c, Act(c, s, Send(w)))
  {
    hide Produced, Sequenced, Held, JobIndices, CodedIndices, Range, EncodeJob;
    var t := Act(c, s, Send(w));
    HeldChanges(s.workers, w, Waiting);
    CodedMore(s.results, EncodeJob(c.s, s.workers[w].job));
    assert Held(t.workers) + multiset{s.workers[w].job.index} == Held(s.workers);
    assert Everywhere(t) == Everywhere(s);
    assert Genuine(c, t);
  }

  lemma ExitKeeps(c: Config, s: Pipe, w: nat)
    requires Inv(c, s) && Enabled(c, s, Exit(w))
    ensures Inv(c, Act(c, s, Exit(w)))
  {
    hide Produced, Sequenced, Held, JobIndices, CodedIndices, Range;
    var t := Act(c, s, Exit(w));
    HeldChanges(s.workers, w, Exited);
    var nothing: multiset<nat> := multiset{};
    assert Held(t.workers) + nothing == Held(t.workers) && Held(s.workers) + nothing == Held(s.workers);
    assert Everywhere(t) == Everywhere(s);
  }

  lemma CollectKeeps(c: Config, s: Pipe)
    requires Inv(c, s) && |s.results| > 0
    ensures Enabled(c, s, Collect) && Inv(c, Act(c, s, Collect))
  {
    hide Produced, Sequenced, Held, JobIndices, CodedIndices, Range, Receive, EncodeJob;
    var elsewhere := multiset(JobIndices(s.jobs)) + Held(s.workers) + multiset(CodedIndices(s.results[1..]));
    CodedLess(s.results);
    assert elsewhere + multiset{s.results[0].index} + multiset(s.col.pending.Keys) == Everywhere(s);
    ReceiveKeeps(c, s.col, s.results[0], s.sent, elsewhere);
  }

  lemma MoveKeeps(c: Config, s: Pipe, m: Move)
    requires Inv(c, s) && Enabled(c, s, m)
    ensures Inv(c, Act(c, s, m))
  {
    hide Produced, Sequenced, Held, JobIndices, CodedIndices, Range, Receive, EncodeJob;
    match m
    case Produce => ProduceKeeps(c, s);
    case CloseJobs =>
    case Take(w) => TakeKeeps(c, s, w);
    case Send(w) => SendKeeps(c, s, w);
    case Exit(w) => ExitKeeps(c, s, w);
    case CloseResults =>
    case Collect => CollectKeeps(c, s);
    case Finish =>
  }

  lemma {:induction false} NothingHeld(n: nat)
    ensures Held(seq(n, i => Waiting)) == multiset{} && Weights(seq(n, i => Waiting)) == n
  {
    if n != 0 {
      var ws := seq(n, i => Waiting);
      assert ws[1..] == seq(n - 1, i => Waiting);
      NothingHeld(n - 1);
    }
  }

  lemma StartSound(c: Config)
    ensures Inv(c, Start(c))
  {
    hide Produced;
    NothingHeld(c.crew);
  }

  lemma {:induction false} ScheduleSound(c: Config, states: seq<Pipe>, n: nat)
    requires Schedule(c, states) && n < |states|
    ensures Inv(c, states[n])
  {
    hide Inv, Enabled, Act, Start;
    if n == 0 {
      StartSound(c);
    } else {
      ScheduleSound(c, states, n - 1);
      assert Step(c, states[n - 1], states[n]);
      var m :| Enabled(c, states[n - 1], m) && states[n] == Act(c, states[n - 1], m);
      MoveKeeps(c, states[n - 1], m);
    }
  }

  // ---------- no deadlock, termination ----------

  /** The sequential loop's decisions on both failure kinds, from what the machine has at the end. */
  function Result(c: Config, s: Pipe): Result<(seq<ChunkRef>, u64)>
  {
    if s.col.t.err.Some? then Err(s.col.t.err.value)
    else if c.Out().stop.Some? then Err(c.Out().stop.value)
    else Ok((s.col.t.refs, c.Out().total))
  }

  /** Unread input, queued jobs, work in flight, queued results and open ends. */
  function Measure(c: Config, s: Pipe): int
  {
    4 * (|c.Jobs()| - s.sent) + 3 * |s.jobs| + Weights(s.workers) + |s.results|
    + (if s.closed then 0 else 1) + (if s.resultsClosed then 0 else 1) + (if s.finished then 0 else 1)
  }

  lemma {:induction false} SomeWorker(ws: seq<Worker>) returns (w: nat)
    ensures w <= |ws|
    ensures w == |ws| ==> forall i :: 0 <= i < |ws| ==> ws[i].Exited?
    ensures w < |ws| ==> ws[w].Holding? || (ws[w].Waiting? && forall i :: 0 <= i < |ws| ==> !ws[i].Holding?)
  {
    if h :| 0 <= h < |ws| && ws[h].Holding? { return h; }
    if h :| 0 <= h < |ws| && ws[h].Waiting? { return h; }
    w := |ws|;
  }

  lemma OpenCrew(c: Config, s: Pipe)
    requires Channels(c, s) && !s.closed
    ensures |s.workers| > 0 && !s.workers[0].Exited?
  {
    hide Produced;
  }

  /** The pipeline never deadlocks: in every state of every schedule before the end, some move is possible. */
  lemma NoDeadlock(c: Config, states: seq<Pipe>, n: nat)
    requires Schedule(c, states) && n < |states| && !states[n].finished
    ensures exists m :: Enabled(c, states[n], m)
  {
    hide Produced, Sequenced, Genuine, Held, JobIndices, CodedIndices, Range, Schedule;
    ScheduleSound(c, states, n);
    var s := states[n];
    var w := SomeWorker(s.workers);
    if |s.results| > 0 { CollectKeeps(c, s); assert Enabled(c, s, Collect); }
    else if w < |s.workers| && s.workers[w].Holding? { assert Enabled(c, s, Send(w)); }
    else if w < |s.workers| && |s.jobs| > 0 { assert Enabled(c, s, Take(w)); }
    else if !s.closed && s.sent == |c.Jobs()| { assert Enabled(c, s, CloseJobs); }
    else if !s.closed {
      OpenCrew(c, s);
      assert Enabled(c, s, Produce);
    }
    else if w < |s.workers| { assert Enabled(c, s, Exit(w)); }
    else if !s.resultsClosed { assert Enabled(c, s, CloseResults); }
    else { assert Enabled(c, s, Finish); }
  }

  /** Every move makes progress, on error paths too, so every schedule ends. */
  lemma AlwaysProgress(c: Config, states: seq<Pipe>, n: nat)
    requires Schedule(c, states) && n + 1 < |states|
    ensures 0 <= Measure(c, states[n + 1]) < Measure(c, states[n])
  {
    hide Produced, Sequenced, Genuine, JobIndices, CodedIndices, Range, Schedule, Receive, Held, EncodeJob, Everywhere;
    ScheduleSound(c, states, n);
    ScheduleSound(c, states, n + 1);
    var s, t := states[n], states[n + 1];
    assert Step(c, s, t) by { ScheduledStep(c, states, n); }
    var m :| Enabled(c, s, m) && t == Act(c, s, m);
    match m
    case Take(w) => WeightChanges(s.workers, w, Holding(s.jobs[0]));
    case Send(w) => WeightChanges(s.workers, w, Waiting);
    case Exit(w) => WeightChanges(s.workers, w, Exited);
    case _ =>
  }

  lemma ScheduledStep(c: Config, states: seq<Pipe>, n: nat)
    requires Schedule(c, states) && n + 1 < |states|
    ensures Step(c, states[n], states[n + 1])
  {
    hide Step;
  }

  // ---------- refinement ----------

  /** At any moment, what is in the file is a prefix of what the sequential loop would write. */
  lemma LogIsPrefix(c: Config, states: seq<Pipe>, n: nat)
    requires Schedule(c, states) && n < |states|
    ensures states[n].col.t.log <= Written(c.s, c.src, c.off, c.refuse).log
  {
    hide Produced, Genuine, Held, JobIndices, CodedIndices, Range, Schedule, AppendCoded;
    ScheduleSound(c, states, n);
    var col := states[n].col;
    if col.t.err.None? {
      LogGrows(c, col.next, |c.Jobs()|);
    } else {
      var m :| WrittenUpTo(c, col, m);
      LogGrows(c, m, |c.Jobs()|);
    }
  }

  lemma {:induction false} LogGrows(c: Config, m: nat, n: nat)
    requires m <= n <= |c.Jobs()|
    ensures c.After(m).log <= c.After(n).log
  {
    hide EncodeJob, Produced;
    if m < n { LogGrows(c, m, n - 1); }
  }

  /** Whatever the schedule: the parallel writer succeeds exactly when the sequential loop does, with the same
      references in the same order, the same bytes appended and the same total, and nothing is left pending.  If only
      the reader failed the error is the same too.  If a chunk failed, the error is the sequential loop's or that of a
      chunk that cannot be encoded; so if all those have the error that the sequential loop returns, it is returned. */
  lemma ParallelRefinesSequential(c: Config, states: seq<Pipe>, n: nat)
    requires Schedule(c, states) && n < |states| && states[n].finished
    ensures var s, r, w := states[n], Result(c, states[n]), Written(c.s, c.src, c.off, c.refuse);
            && (r.Ok? <==> w.result.Ok?)
            && (w.result.Ok? ==> r == w.result && s.col.t.log == w.log)
            && (c.After(|c.Jobs()|).err.None? ==> r == w.result && s.col.t.log == w.log)
            && s.col.pending == map[] && s.col.next == |c.Jobs()|
            && (r.Err? ==> r == w.result || exists k :: 0 <= k < |c.Jobs()| && c.Code(k) == Bad(k, r.error))
            && ((forall k :: 0 <= k < |c.Jobs()| && c.Code(k).Bad? ==> w.result == Err(c.Code(k).error)) ==> r == w.result)
  {
    hide Produced, Genuine, JobIndices, CodedIndices, Schedule, WriteJobs, EncodeJob;
    ScheduleSound(c, states, n);
    var s := states[n];
    NothingLeft(c, s);
    if s.col.t.err.Some? {
      var e := s.col.t.err.value;
      if c.After(|c.Jobs()|).err != Some(e) {
        var k :| 0 <= k < |c.Jobs()| && c.Code(k) == Bad(k, e);
        assert c.Code(k).error == e;
      }
    }
  }

  lemma {:induction false} NoneHeld(ws: seq<Worker>)
    requires forall w :: 0 <= w < |ws| ==> ws[w].Exited?
    ensures Held(ws) == multiset{}
  {
    if |ws| != 0 { NoneHeld(ws[1..]); }
  }

  lemma NothingLeft(c: Config, s: Pipe)
    requires Inv(c, s) && s.finished
    ensures s.col.pending == map[] && s.col.next == |c.Jobs()| == s.sent
  {
    hide Produced, Genuine, Sequenced;
    NoneHeld(s.workers);
    assert s.workers[0].Exited?;
    var keys := s.col.pending.Keys;
    var left: multiset<nat> := multiset(keys);
    assert Everywhere(s) == left;
    assert left[s.col.next] == 0;
    assert Range(s.col.next, s.sent) == multiset{};
    assert |keys| == |left|;
  }

  // ---------- every schedule can be finished ----------

  /** Any schedule can be carried on to the end. */
  lemma {:induction false} FinishFrom(c: Config, states: seq<Pipe>) returns (all: seq<Pipe>)
    requires Schedule(c, states)
    ensures Schedule(c, all) && states <= all && all[|all| - 1].finished
    decreases Measure(c, states[|states| - 1])
  {
    hide Enabled, Act, Start, Measure, Inv;
    var n := |states| - 1;
    if states[n].finished { return states; }
    NoDeadlock(c, states, n);
    var m :| Enabled(c, states[n], m);
    var more := states + [Act(c, states[n], m)];
    assert Schedule(c, more) by { ScheduleMore(c, states, m); }
    AlwaysProgress(c, more, n);
    all := FinishFrom(c, more);
  }

  lemma ScheduleMore(c: Config, states: seq<Pipe>, m: Move)
    requires Schedule(c, states) && Enabled(c, states[|states| - 1], m)
    ensures Schedule(c, states + [Act(c, states[|states| - 1], m)])
  {
    hide Enabled, Act, Start;
    var more := states + [Act(c, states[|states| - 1], m)];
    forall i | 0 < i < |more|
      ensures Step(c, more[i - 1], more[i])
    {
      if i < |states| { assert Step(c, states[i - 1], states[i]); }
    }
  }

  lemma {:induction false} DrainAfterError(col: Collector, off: nat, refuse: Refuse)
    requires Sized(col.pending) && col.t.err.Some?
    ensures Drain(col, off, refuse).t == col.t
    decreases |col.pending|
  {
    hide AppendCoded;
    if col.next in col.pending {
      AppendAfterError(col.t, col.pending[col.next], off, refuse);
      DrainAfterError(Collector(col.pending - {col.next}, col.next + 1, col.t), off, refuse);
    }
  }

  /** The first error stays, and nothing is written behind it. */
  lemma {:induction false} ErrorStays(c: Config, states: seq<Pipe>, m: nat, n: nat)
    requires Schedule(c, states) && m <= n < |states| && states[m].col.t.err.Some?
    ensures states[n].col.t == states[m].col.t
  {
    hide Start, Enabled, Act;
    if m < n {
      ErrorStays(c, states, m, n - 1);
      assert Step(c, states[n - 1], states[n]);
      var move :| Enabled(c, states[n - 1], move) && states[n] == Act(c, states[n - 1], move);
      MoveKeepsError(c, states[n - 1], move);
    }
  }

  lemma MoveKeepsError(c: Config, s: Pipe, m: Move)
    requires Enabled(c, s, m) && s.col.t.err.Some?
    ensures Act(c, s, m).col.t == s.col.t
  {
    hide Produced, Drain, EncodeJob;
    if m.Collect? {
      var pending := s.col.pending[s.results[0].index := s.results[0]];
      DrainAfterError(Collector(pending, s.col.next, s.col.t), c.off, c.refuse);
    }
  }

  // ---------- where the two writers differ ----------

  /** Three chunks of one byte each; the second and the third cannot be encoded, with different errors. */
  function Uneven(): Config
  {
    var p := Primitives(b => 0, b => 0,
                        (raw, codec, level) => if raw == [0] then Ok([0]) else Err(Other(if raw == [1] then 1 else 2)),
                        (comp, codec, n) => Ok([0]));
    Config(Settings(p, 0, 0, 1, 0), Source([0, 1, 2], Clean), 0, off => None, 3)
  }

  function UnevenJob(k: byte): Job { Job(k, k, [k]) }

  lemma UnevenJobs()
    ensures Uneven().Jobs() == [UnevenJob(0), UnevenJob(1), UnevenJob(2)]
  {
    var c := Uneven();
    assert c.src.data[0..1] == [0] && c.src.data[1..2] == [1] && c.src.data[2..3] == [2];
    assert Produced(c.s, c.src, 3, 3) == Output([], None, 3);
    assert Produced(c.s, c.src, 2, 2) == Output([UnevenJob(2)] + [], None, 3);
    assert Produced(c.s, c.src, 1, 1) == Output([UnevenJob(1)] + [UnevenJob(2)], None, 3);
    assert [UnevenJob(0)] + ([UnevenJob(1)] + [UnevenJob(2)]) == [UnevenJob(0), UnevenJob(1), UnevenJob(2)];
  }

  lemma UnevenCodes()
    ensures var c := Uneven();
            && |c.Jobs()| == 3 && c.Code(0).Coded? && |c.Code(0).rec| > 0 && c.Code(1) == Bad(1, Other(1))
            && EncodeJob(c.s, UnevenJob(2)) == Bad(2, Other(2))
  {
    hide Produced;
    UnevenJobs();
  }

  /** The sequential loop writes the first chunk and returns the error of the second. */
  lemma UnevenSequential()
    ensures var c := Uneven(); var w := Written(c.s, c.src, c.off, c.refuse);
            w.result == Err(Other(1)) && |w.log| > 0
  {
    hide Produced, EncodeJob;
    var c := Uneven();
    UnevenCodes();
    var first := c.After(1);
    assert c.After(0) == Trace([], [], None);
    assert first.err.None? && |first.log| > 0;
    assert c.After(2) == first.(err := Some(Other(1)));
    FailureSticks(c.s, c.Jobs(), 2, 3, c.off, c.refuse);
  }

  /** One worker each takes one chunk, and the result of the last chunk is sent first. */
  function UnevenPipe(k: nat): Pipe
  {
    var j0, j1, j2, none := UnevenJob(0), UnevenJob(1), UnevenJob(2), Collector(map[], 0, Trace([], [], None));
    var idle, last := [Waiting, Waiting, Waiting], Bad(2, Other(2));
    match k
    case 0 => Pipe(0, false, [], idle, [], false, none, false)
    case 1 => Pipe(1, false, [j0], idle, [], false, none, false)
    case 2 => Pipe(2, false, [j0, j1], idle, [], false, none, false)
    case 3 => Pipe(3, false, [j0, j1, j2], idle, [], false, none, false)
    case 4 => Pipe(3, false, [j1, j2], [Holding(j0), Waiting, Waiting], [], false, none, false)
    case 5 => Pipe(3, false, [j2], [Holding(j0), Holding(j1), Waiting], [], false, none, false)
    case 6 => Pipe(3, false, [], [Holding(j0), Holding(j1), Holding(j2)], [], false, none, false)
    case _ => Pipe(3, false, [], [Holding(j0), Holding(j1), Waiting], [last], false, none, false)
  }

  function UnevenMove(k: nat): Move
  {
    if k < 3 then Produce else if k < 6 then Take(k - 3) else Send(2)
  }

  lemma UnevenProduces(k: nat)
    requires k < 3
    ensures Enabled(Uneven(), UnevenPipe(k), Produce) && Act(Uneven(), UnevenPipe(k), Produce) == UnevenPipe(k + 1)
  {
    hide Produced;
    UnevenJobs();
    assert Uneven().Jobs()[k] == UnevenJob(k);
  }

  lemma UnevenTakes(k: nat)
    requires 3 <= k < 6
    ensures Enabled(Uneven(), UnevenPipe(k), Take(k - 3)) && Act(Uneven(), UnevenPipe(k), Take(k - 3)) == UnevenPipe(k + 1)
  {
    hide Produced;
  }

  lemma UnevenSends()
    ensures Enabled(Uneven(), UnevenPipe(6), Send(2)) && Act(Uneven(), UnevenPipe(6), Send(2)) == UnevenPipe(7)
  {
    hide Produced, EncodeJob;
    UnevenCodes();
  }

  /** The collector takes the first error it is told of, and has written nothing. */
  lemma UnevenCollects()
    ensures Enabled(Uneven(), UnevenPipe(7), Collect)
    ensures Act(Uneven(), UnevenPipe(7), Collect).col.t == Trace([], [], Some(Other(2)))
  {
    hide Produced, EncodeJob;
  }

  lemma {:induction false} UnevenSchedule(k: nat) returns (states: seq<Pipe>)
    requires k <= 7
    ensures Schedule(Uneven(), states) && states[|states| - 1] == UnevenPipe(k)
  {
    hide Produced, Enabled, Act, UnevenPipe;
    if k == 0 {
      UnevenStarts();
      states := [UnevenPipe(0)];
    } else {
      states := UnevenSchedule(k - 1);
      if k - 1 < 3 { UnevenProduces(k - 1); } else if k - 1 < 6 { UnevenTakes(k - 1); } else { UnevenSends(); }
      ScheduleMore(Uneven(), states, UnevenMove(k - 1));
      states := states + [UnevenPipe(k)];
    }
  }

  lemma UnevenStarts()
    ensures Start(Uneven()) == UnevenPipe(0)
  {
  }

  /** The parallel writer can return the error of a later chunk than the sequential loop does, and leave unwritten an
      earlier chunk that the loop writes. */
  lemma LaterErrorWins()
    ensures exists c: Config, states: seq<Pipe> :: Schedule(c, states) && states[|states| - 1].finished
              && var s, w := states[|states| - 1], Written(c.s, c.src, c.off, c.refuse);
                 && Result(c, s) == Err(Other(2)) && w.result == Err(Other(1))
                 && s.col.t.log == [] && |w.log| > 0
  {
    hide Produced, EncodeJob, Enabled, Act, Start, Written, Schedule, UnevenPipe;
    var c := Uneven();
    var states := UnevenSchedule(7);
    UnevenCollects();
    ScheduleMore(c, states, Collect);
    states := states + [Act(c, UnevenPipe(7), Collect)];
    var all := FinishFrom(c, states);
    assert all[|states| - 1] == states[|states| - 1];
    ErrorStays(c, all, |states| - 1, |all| - 1);
    UnevenSequential();
  }
}

/** The streaming reader of one entry: what it delivers, for any sequence of read-buffer sizes. */
module EntryReader {
  import opened Binary
  import opened Common
  import opened Directory
  import opened Chunk
  import opened Disk
  import opened ChunkWriter
  import opened WriteRead

  datatype Limits = Limits(verify: bool, maxEntry: u64, maxChunk: u32)

  /** Bytes still to be delivered, and the error reported when they are exhausted; EOF is the ordinary end. */
  datatype Stream = Stream(bytes: Bytes, final: Error)

  /** The limit check on the bytes read so far; the sum is taken modulo 2^64. */
  predicate OverLimit(total: u64, n: nat, maxEntry: u64)
  {
    maxEntry > 0 && (total + n) % U64 > maxEntry
  }

  /** What the references from i on deliver, after `total` bytes: payloads up to the first reference that fails. */
  function Tail(p: Primitives, image: Bytes, l: Limits, cs: seq<ChunkRef>, i: nat, total: u64): Stream
    requires i <= |cs|
    decreases |cs| - i
  {
    if i == |cs| then Stream([], EOF)
    else match LoadRef(p, image, cs[i], l.verify, l.maxChunk)
      case Err(e) => Stream([], e)
      case Ok(raw) =>
        if OverLimit(total, |raw|, l.maxEntry) then Stream([], LimitExceeded)
        else var rest := Tail(p, image, l, cs, i + 1, (total + |raw|) % U64); Stream(raw + rest.bytes, rest.final)
  }

  /** The whole stream from a reader's position: the rest of the current chunk, then the remaining references. */
  ghost function Ahead(p: Primitives, image: Bytes, l: Limits, cs: seq<ChunkRef>, idx: nat, cur: Bytes, curRead: nat,
      total: u64): Stream
    requires idx <= |cs| && curRead <= |cur|
  {
    var rest := Tail(p, image, l, cs, idx, (total + (|cur| - curRead)) % U64);
    Stream(cur[curRead..] + rest.bytes, rest.final)
  }

  lemma AheadUsedUp(p: Primitives, image: Bytes, l: Limits, cs: seq<ChunkRef>, idx: nat, cur: Bytes, total: u64)
    requires idx <= |cs|
    ensures Ahead(p, image, l, cs, idx, cur, |cur|, total) == Tail(p, image, l, cs, idx, total)
  {
    hide Tail;
    assert (total + (|cur| - |cur|)) % U64 == total by { Unwrapped(total); }
    var rest := Tail(p, image, l, cs, idx, total);
    assert cur[|cur|..] + rest.bytes == rest.bytes;
  }

  lemma Unwrapped(total: u64)
    ensures (total + 0) % U64 == total
  {
  }

  /** Loading the next chunk changes nothing of what is ahead. */
  lemma AheadLoaded(p: Primitives, image: Bytes, l: Limits, cs: seq<ChunkRef>, idx: nat, raw: Bytes, total: u64)
    requires idx < |cs| && LoadRef(p, image, cs[idx], l.verify, l.maxChunk) == Ok(raw)
    requires !OverLimit(total, |raw|, l.maxEntry)
    ensures Ahead(p, image, l, cs, idx + 1, raw, 0, total) == Tail(p, image, l, cs, idx, total)
  {
    hide LoadRef;
    assert raw[0..] == raw;
  }

  lemma TailFails(p: Primitives, image: Bytes, l: Limits, cs: seq<ChunkRef>, idx: nat, total: u64)
    requires idx <= |cs|
    ensures idx == |cs| ==> Tail(p, image, l, cs, idx, total) == Stream([], EOF)
    ensures idx < |cs| ==> var loaded := LoadRef(p, image, cs[idx], l.verify, l.maxChunk);
              && (loaded.Err? ==> Tail(p, image, l, cs, idx, total) == Stream([], loaded.error))
              && (loaded.Ok? && OverLimit(total, |loaded.value|, l.maxEntry) ==>
                    Tail(p, image, l, cs, idx, total) == Stream([], LimitExceeded))
  {
    hide LoadRef;
  }

  /** Delivering bytes of the current chunk takes them off what is ahead. */
  lemma AheadCopied(p: Primitives, image: Bytes, l: Limits, cs: seq<ChunkRef>, idx: nat, cur: Bytes, curRead: nat,
      total: u64, k: nat)
    requires idx <= |cs| && curRead + k <= |cur|
    ensures var a := Ahead(p, image, l, cs, idx, cur, curRead, total);
            && k <= |a.bytes| && a.bytes[..k] == cur[curRead..curRead + k]
            && Ahead(p, image, l, cs, idx, cur, curRead + k, (total + k) % U64) == Stream(a.bytes[k..], a.final)
  {
    hide Tail;
    WrapTwice(total, |cur| - curRead - k, k);
  }

  lemma WrapTwice(total: nat, a: nat, k: nat)
    ensures ((total + k) % U64 + a) % U64 == (total + (a + k)) % U64
  {
  }

  class Reader {
    const p: Primitives
    const f: File
    const chunks: seq<ChunkRef>
    const limits: Limits
    var idx: nat
    var cur: Bytes
    var curRead: nat
    var readTotal: u64

    constructor (p: Primitives, f: File, chunks: seq<ChunkRef>, limits: Limits)
      requires f.Valid()
      ensures Valid() && this.p == p && this.f == f && this.chunks == chunks && this.limits == limits
      ensures Left() == Tail(p, View(f.disk), limits, chunks, 0, 0)
    {
      hide Tail, View;
      this.p, this.f, this.chunks, this.limits := p, f, chunks, limits;
      idx, cur, curRead, readTotal := 0, [], 0, 0;
      new;
      AheadUsedUp(p, View(f.disk), limits, chunks, 0, [], 0);
    }

    ghost predicate Valid()
      reads this, f
    {
      f.Valid() && idx <= |chunks| && curRead <= |cur|
    }

    /** What is left of the stream if the file stays as it is. */
    ghost function Left(): Stream
      requires Valid()
      reads this, f
    {
      Ahead(p, View(f.disk), limits, chunks, idx, cur, curRead, readTotal)
    }

    /** Loads the next chunk once the current one is used up; on an error nothing changes, so that it recurs. */
    method Refill() returns (e: Option<Error>)
      requires Valid() && curRead == |cur|
      modifies this
      ensures Valid() && Left() == old(Left())
      ensures e.None? ==> curRead == 0 < |cur|
      ensures e.Some? ==> Left() == Stream([], e.value)
    {
      hide Tail, LoadRef, View, Ahead, OverLimit;
      ghost var image := View(f.disk);
      AheadUsedUp(p, image, limits, chunks, idx, cur, readTotal);
      TailFails(p, image, limits, chunks, idx, readTotal);
      if idx >= |chunks| { return Some(EOF); }
      var loaded := LoadRef(p, View(f.disk), chunks[idx], limits.verify, limits.maxChunk);
      if loaded.Err? { return Some(loaded.error); }
      if OverLimit(readTotal, |loaded.value|, limits.maxEntry) { return Some(LimitExceeded); }
      AheadLoaded(p, image, limits, chunks, idx, loaded.value, readTotal);
      idx, cur, curRead := idx + 1, loaded.value, 0;
      e := None;
    }

    /** Copies what fits of the current chunk into the buffer from n on. */
    method CopyOut(buf: array<byte>, n: nat) returns (copied: nat)
      requires Valid() && n < buf.Length && curRead < |cur|
      modifies this, buf
      ensures Valid() && 0 < copied <= |old(Left()).bytes| && n + copied <= buf.Length
      ensures buf[..] == Splice(old(buf[..]), n, old(Left()).bytes[..copied])
      ensures Left() == Stream(old(Left()).bytes[copied..], old(Left()).final)
    {
      hide LoadRef, Tail, View, Ahead, Splice;
      copied := if buf.Length - n < |cur| - curRead then buf.Length - n else |cur| - curRead;
      AheadCopied(p, View(f.disk), limits, chunks, idx, cur, curRead, readTotal, copied);
      CopyInto(buf, n, cur[curRead..curRead + copied]);
      curRead, readTotal := curRead + copied, (readTotal + copied) % U64;
    }

    /** `Read`: fills the buffer from as many chunks as needed; an error is reported only when nothing was copied. */
    method Read(buf: array<byte>) returns (n: nat, e: Option<Error>)
      requires Valid()
      modifies this, buf
      ensures Valid() && var left := old(Left());
              && n == (if buf.Length < |left.bytes| then buf.Length else |left.bytes|)
              && buf[..n] == left.bytes[..n] && buf[n..] == old(buf[n..])
              && Left() == Stream(left.bytes[n..], left.final)
              && e == if buf.Length > 0 && |left.bytes| == 0 then Some(left.final) else None
    {
      hide LoadRef, Tail, View, Ahead, Filled, Splice;
      n, e := 0, None;
      ghost var left, was := Left(), buf[..];
      NothingFilled(was, left.bytes);
      while n < buf.Length
        invariant Valid() && n <= buf.Length && n <= |left.bytes|
        invariant Filled(buf[..], was, left.bytes, n)
        invariant Left() == Stream(left.bytes[n..], left.final)
        decreases buf.Length - n
      {
        if curRead >= |cur| {
          var failed := Refill();
          if failed.Some? {
            FilledParts(buf[..], was, left.bytes, n);
            return n, if n > 0 then None else failed;
          }
        }
        ghost var now := buf[..];
        var copied := CopyOut(buf, n);
        FilledMore(now, was, left.bytes, n, left.bytes[n..][..copied]);
        n := n + copied;
      }
      FilledParts(buf[..], was, left.bytes, n);
    }
  }

  /** A buffer that held `was` and has received the first n bytes of s. */
  ghost predicate Filled(b: Bytes, was: Bytes, s: Bytes, n: nat)
  {
    |b| == |was| && n <= |s| && n <= |b| && b == s[..n] + was[n..]
  }

  lemma NothingFilled(was: Bytes, s: Bytes)
    ensures Filled(was, was, s, 0) && s[0..] == s
  {
  }

  lemma FilledMore(b: Bytes, was: Bytes, s: Bytes, n: nat, piece: Bytes)
    requires Filled(b, was, s, n) && n + |piece| <= |b| && n + |piece| <= |s| && s[n..][..|piece|] == piece
    ensures Filled(Splice(b, n, piece), was, s, n + |piece|)
    ensures s[n..][|piece|..] == s[n + |piece|..]
  {
    assert s[..n] + s[n..][..|piece|] == s[..n + |piece|];
  }

  lemma FilledParts(b: Bytes, was: Bytes, s: Bytes, n: nat)
    requires Filled(b, was, s, n)
    ensures n <= |b| && b[..n] == s[..n] && b[n..] == was[n..]
  {
  }

  lemma Rebase(s: Bytes, n: nat, k: nat)
    requires n <= |s| && k <= |s[n..]|
    ensures s[..n] + s[n..][..k] == s[..n + k] && s[n..][k..] == s[n + k..]
  {
  }

  // ---------- buffers of any sizes ----------

  function Sum(sizes: seq<nat>): nat
  {
    if |sizes| == 0 then 0 else Sum(sizes[..|sizes| - 1]) + sizes[|sizes| - 1]
  }

  ghost predicate Collected(out: Bytes, left: Stream, now: Stream)
  {
    |out| <= |left.bytes| && out == left.bytes[..|out|] && now == Stream(left.bytes[|out|..], left.final)
  }

  lemma CollectedMore(out: Bytes, left: Stream, now: Stream, piece: Bytes, later: Stream)
    requires Collected(out, left, now) && |piece| <= |now.bytes| && piece == now.bytes[..|piece|]
    requires later == Stream(now.bytes[|piece|..], now.final)
    ensures Collected(out + piece, left, later)
  {
    Rebase(left.bytes, |out|, |piece|);
  }

  /** Reads with buffers of the given sizes and concatenates what they deliver: whatever the sizes, it is the stream
      cut off where the buffers are full. */
  method ReadSizes(r: Reader, sizes: seq<nat>) returns (out: Bytes)
    requires r.Valid()
    modifies r
    ensures r.Valid() && |out| == (if Sum(sizes) < |old(r.Left()).bytes| then Sum(sizes) else |old(r.Left()).bytes|)
    ensures Collected(out, old(r.Left()), r.Left())
  {
    hide View, Ahead, Tail, LoadRef, Collected;
    out := [];
    ghost var left := r.Left();
    NothingCollected(left);
    for i := 0 to |sizes|
      invariant r.Valid() && |out| == (if Sum(sizes[..i]) < |left.bytes| then Sum(sizes[..i]) else |left.bytes|)
      invariant Collected(out, left, r.Left())
    {
      var buf := new byte[sizes[i]](k => 0);
      ghost var now := r.Left();
      var n, e := r.Read(buf);
      CollectedMore(out, left, now, buf[..n], r.Left());
      CollectedSize(out, left, now);
      assert sizes[..i + 1][..i] == sizes[..i];
      out := out + buf[..n];
    }
    assert sizes[..|sizes|] == sizes;
  }

  lemma NothingCollected(left: Stream)
    ensures Collected([], left, left)
  {
  }

  lemma CollectedSize(out: Bytes, left: Stream, now: Stream)
    requires Collected(out, left, now)
    ensures |now.bytes| == |left.bytes| - |out| && now.final == left.final && (now.bytes == [] ==> out == left.bytes)
  {
  }

  /** `Extract` copies with one buffer until the reader reports its end; an ordinary end is no error. */
  method Extract(r: Reader, size: nat) returns (out: Bytes, e: Option<Error>)
    requires r.Valid() && size > 0
    modifies r
    ensures out == old(r.Left()).bytes && e == if old(r.Left()).final == EOF then None else Some(old(r.Left()).final)
  {
    hide View, Ahead, Tail, LoadRef, Collected;
    out := [];
    ghost var left := r.Left();
    NothingCollected(left);
    var buf := new byte[size](k => 0);
    while true
      invariant r.Valid() && |out| <= |left.bytes| && Collected(out, left, r.Left())
      decreases |left.bytes| - |out|
    {
      ghost var now := r.Left();
      CollectedSize(out, left, now);
      var n, failed := r.Read(buf);
      if failed.Some? { return out, if failed.value == EOF then None else failed; }
      CollectedMore(out, left, now, buf[..n], r.Left());
      out := out + buf[..n];
      CollectedSize(out, left, r.Left());
    }
  }

  // ---------- what a stream is ----------

  /** Sum of the recorded sizes of the first n references. */
  function RawSum(cs: seq<ChunkRef>, n: nat): nat
    requires n <= |cs|
  {
    if n == 0 then 0 else RawSum(cs, n - 1) + cs[n - 1].rawSize
  }

  /** Chunk j loads, and with it the reader is still within its limit on the entry. */
  predicate Delivers(p: Primitives, image: Bytes, l: Limits, cs: seq<ChunkRef>, j: nat)
    requires j < |cs|
  {
    && LoadRef(p, image, cs[j], l.verify, l.maxChunk).Ok?
    && (l.maxEntry == 0 || RawSum(cs, j + 1) <= l.maxEntry)
  }

  /** k is the first reference that is not delivered, or there is none. */
  ghost predicate StopsAt(p: Primitives, image: Bytes, l: Limits, cs: seq<ChunkRef>, k: nat)
  {
    && k <= |cs| && (forall j :: 0 <= j < k ==> Delivers(p, image, l, cs, j))
    && (k < |cs| ==> !Delivers(p, image, l, cs, k))
  }

  lemma {:induction false} FirstStop(p: Primitives, image: Bytes, l: Limits, cs: seq<ChunkRef>, i: nat) returns (k: nat)
    requires i <= |cs| && forall j :: 0 <= j < i ==> Delivers(p, image, l, cs, j)
    ensures StopsAt(p, image, l, cs, k)
    decreases |cs| - i
  {
    hide Delivers;
    k := i;
    if i < |cs| && Delivers(p, image, l, cs, i) { k := FirstStop(p, image, l, cs, i + 1); }
  }

  /** The error with which a stream ends that stops at k. */
  function FinalAt(p: Primitives, image: Bytes, l: Limits, cs: seq<ChunkRef>, k: nat): Error
    requires k <= |cs|
  {
    if k == |cs| then EOF
    else match LoadRef(p, image, cs[k], l.verify, l.maxChunk)
      case Err(e) => e
      case Ok(_) => LimitExceeded
  }

  /** References in order never sum past the 64-bit range, so the reader's running total does not wrap around. */
  lemma {:induction false} InOrderSum(cs: seq<ChunkRef>, n: nat)
    requires ChunksInOrder(cs, 0) && n <= |cs|
    ensures RawSum(cs, n) <= MAX64
  {
    InOrderEnd(cs, 0, n);
  }

  lemma {:induction false} InOrderEnd(cs: seq<ChunkRef>, prevEnd: u64, n: nat)
    requires ChunksInOrder(cs, prevEnd) && n <= |cs|
    ensures prevEnd + RawSum(cs, n) <= MAX64
    decreases n
  {
    if n != 0 {
      InOrderEnd(cs[1..], cs[0].rawOffset + cs[0].rawSize, n - 1);
      RawSumRest(cs, n);
    }
  }

  lemma {:induction false} RawSumRest(cs: seq<ChunkRef>, n: nat)
    requires 0 < n <= |cs|
    ensures RawSum(cs, n) == cs[0].rawSize + RawSum(cs[1..], n - 1)
  {
    if n > 1 { RawSumRest(cs, n - 1); }
  }

  lemma {:induction false} RawSumGrows(cs: seq<ChunkRef>, m: nat, n: nat)
    requires m <= n <= |cs|
    ensures RawSum(cs, m) <= RawSum(cs, n)
  {
    if m < n { RawSumGrows(cs, m, n - 1); }
  }

  /** The stream up to a reference before which everything was delivered. */
  lemma {:induction false} TailFrom(p: Primitives, image: Bytes, l: Limits, cs: seq<ChunkRef>, i: nat)
    requires ChunksInOrder(cs, 0) && i <= |cs| && forall j :: 0 <= j < i ==> Delivers(p, image, l, cs, j)
    ensures RawSum(cs, i) <= MAX64
    ensures ReadBack(p, image, cs, i, l.verify, l.maxChunk).Ok?
    ensures var before, rest := ReadBack(p, image, cs, i, l.verify, l.maxChunk).value, Tail(p, image, l, cs, i, RawSum(cs, i));
            |before| == RawSum(cs, i) && Tail(p, image, l, cs, 0, 0) == Stream(before + rest.bytes, rest.final)
  {
    hide LoadRef, Tail, Delivers, ReadBack, RawSum, ChunksInOrder;
    InOrderSum(cs, i);
    if i == 0 {
      RawSumNone(cs);
      NothingRead(p, image, l, cs);
    } else {
      TailFrom(p, image, l, cs, i - 1);
      TailDelivers(p, image, l, cs, i - 1);
      ReadBackStep(p, image, cs, i - 1, l.verify, l.maxChunk);
      var raw := LoadRef(p, image, cs[i - 1], l.verify, l.maxChunk).value;
      var before, rest := ReadBack(p, image, cs, i - 1, l.verify, l.maxChunk).value, Tail(p, image, l, cs, i, RawSum(cs, i));
      assert before + (raw + rest.bytes) == (before + raw) + rest.bytes;
    }
  }

  lemma NothingRead(p: Primitives, image: Bytes, l: Limits, cs: seq<ChunkRef>)
    ensures ReadBack(p, image, cs, 0, l.verify, l.maxChunk) == Ok([])
    ensures var rest := Tail(p, image, l, cs, 0, 0); rest == Stream([] + rest.bytes, rest.final)
  {
    hide Tail;
  }

  lemma TailDelivers(p: Primitives, image: Bytes, l: Limits, cs: seq<ChunkRef>, i: nat)
    requires i < |cs| && Delivers(p, image, l, cs, i) && RawSum(cs, i + 1) <= MAX64
    ensures RawSum(cs, i) <= MAX64 && LoadRef(p, image, cs[i], l.verify, l.maxChunk).Ok?
    ensures var raw, rest := LoadRef(p, image, cs[i], l.verify, l.maxChunk).value, Tail(p, image, l, cs, i + 1, RawSum(cs, i + 1));
            && RawSum(cs, i + 1) == RawSum(cs, i) + |raw|
            && Tail(p, image, l, cs, i, RawSum(cs, i)) == Stream(raw + rest.bytes, rest.final)
  {
    hide LoadRef, RawSum, OverLimit;
    RawSumNext(cs, i);
    Within(RawSum(cs, i), cs[i].rawSize, l.maxEntry);
  }

  lemma Within(total: nat, n: nat, maxEntry: u64)
    requires total + n <= MAX64
    ensures (total + n) % U64 == total + n
    ensures OverLimit(total, n, maxEntry) <==> maxEntry > 0 && total + n > maxEntry
  {
  }

  /** What a reader delivers of an entry whose references are in order: the payloads of all references before the first
      that does not load or exceeds a limit; then that reference's error, or the end. */
  lemma StreamIs(p: Primitives, image: Bytes, l: Limits, cs: seq<ChunkRef>, k: nat)
    requires ChunksInOrder(cs, 0) && StopsAt(p, image, l, cs, k)
    ensures var payloads := ReadBack(p, image, cs, k, l.verify, l.maxChunk);
            && payloads.Ok? && |payloads.value| == RawSum(cs, k)
            && Tail(p, image, l, cs, 0, 0) == Stream(payloads.value, FinalAt(p, image, l, cs, k))
  {
    hide LoadRef, ReadBack;
    TailFrom(p, image, l, cs, k);
    TailStops(p, image, l, cs, k);
    var payloads := ReadBack(p, image, cs, k, l.verify, l.maxChunk).value;
    assert payloads + [] == payloads;
  }

  lemma TailStops(p: Primitives, image: Bytes, l: Limits, cs: seq<ChunkRef>, k: nat)
    requires ChunksInOrder(cs, 0) && StopsAt(p, image, l, cs, k) && RawSum(cs, k) <= MAX64
    ensures Tail(p, image, l, cs, k, RawSum(cs, k)) == Stream([], FinalAt(p, image, l, cs, k))
  {
    hide LoadRef;
    if k < |cs| {
      assert RawSum(cs, k + 1) == RawSum(cs, k) + cs[k].rawSize;
      InOrderSum(cs, k + 1);
    }
  }

  /** The piece is what the record that the reference names holds, and, under verification, it has the recorded checksum. */
  ghost predicate Genuine(p: Primitives, image: Bytes, l: Limits, ref: ChunkRef, piece: Bytes)
  {
    && (l.verify ==> p.crc(piece) == ref.crc32Raw)
    && exists codec, level, comp :: HoldsRaw(p, image, ref, codec, level, comp, piece)
  }

  lemma LoadedGenuine(p: Primitives, image: Bytes, l: Limits, ref: ChunkRef)
    requires LoadRef(p, image, ref, l.verify, l.maxChunk).Ok?
    ensures Genuine(p, image, l, ref, LoadRef(p, image, ref, l.verify, l.maxChunk).value)
  {
    hide LoadRef, HoldsRaw;
    LoadRefIff(p, image, ref, l.verify, l.maxChunk, LoadRef(p, image, ref, l.verify, l.maxChunk).value);
  }

  /** The part of the delivered bytes that reference j accounts for. */
  function Part(cs: seq<ChunkRef>, out: Bytes, j: nat): Bytes
    requires j < |cs| && RawSum(cs, j) + cs[j].rawSize <= |out|
  {
    out[RawSum(cs, j)..RawSum(cs, j) + cs[j].rawSize]
  }

  ghost predicate PartsGenuine(p: Primitives, image: Bytes, l: Limits, cs: seq<ChunkRef>, k: nat, out: Bytes)
    requires k <= |cs|
  {
    && |out| == RawSum(cs, k)
    && forall j :: 0 <= j < k ==> RawSum(cs, j) + cs[j].rawSize <= |out| && Genuine(p, image, l, cs[j], Part(cs, out, j))
  }

  lemma {:induction false} ReadBackGenuine(p: Primitives, image: Bytes, l: Limits, cs: seq<ChunkRef>, k: nat)
    requires k <= |cs| && ReadBack(p, image, cs, k, l.verify, l.maxChunk).Ok?
    ensures PartsGenuine(p, image, l, cs, k, ReadBack(p, image, cs, k, l.verify, l.maxChunk).value)
  {
    hide LoadRef, Genuine;
    if k != 0 {
      ReadBackGenuine(p, image, l, cs, k - 1);
      var before, raw := ReadBack(p, image, cs, k - 1, l.verify, l.maxChunk).value,
                         LoadRef(p, image, cs[k - 1], l.verify, l.maxChunk).value;
      LoadedGenuine(p, image, l, cs[k - 1]);
      var out := before + raw;
      forall j | 0 <= j < k
        ensures RawSum(cs, j) + cs[j].rawSize <= |out| && Genuine(p, image, l, cs[j], Part(cs, out, j))
      {
        if j < k - 1 {
          assert Part(cs, out, j) == Part(cs, before, j);
        } else {
          assert Part(cs, out, j) == raw;
        }
      }
    }
  }

  /** What a reader delivers, chunk by chunk: each delivered part is what the record of its reference decompresses to,
      and under verification has the recorded checksum.  A payload within the limits that does not have it is not
      delivered; the stream stops in front of it with that error. */
  lemma DeliveredGenuine(p: Primitives, image: Bytes, l: Limits, cs: seq<ChunkRef>, k: nat, codec: u8, level: u8,
      comp: Bytes)
    requires ChunksInOrder(cs, 0) && StopsAt(p, image, l, cs, k)
    ensures k <= |cs| && PartsGenuine(p, image, l, cs, k, Tail(p, image, l, cs, 0, 0).bytes)
    ensures k < |cs| && l.verify && WithinChunkLimit(cs[k], l.maxChunk) && RecordThere(image, cs[k], codec, level, comp)
            && p.decompress(comp, codec, cs[k].rawSize).Ok? ==>
              var raw := p.decompress(comp, codec, cs[k].rawSize).value;
              |raw| == cs[k].rawSize && p.crc(raw) != cs[k].crc32Raw ==>
                Tail(p, image, l, cs, 0, 0).final == CRCMismatch
  {
    hide LoadRef, ReadBack, Tail, RawSum, RecordThere;
    StreamIs(p, image, l, cs, k);
    ReadBackGenuine(p, image, l, cs, k);
    if k < |cs| && WithinChunkLimit(cs[k], l.maxChunk) && RecordThere(image, cs[k], codec, level, comp) {
      RecordLoads(p, image, cs[k], l.verify, l.maxChunk, codec, level, comp);
    }
  }

  /** For every limit: no more bytes than MaxEntrySize are ever delivered of an entry. */
  lemma DeliveredWithinLimit(p: Primitives, image: Bytes, l: Limits, cs: seq<ChunkRef>)
    requires ChunksInOrder(cs, 0) && 0 < l.maxEntry
    ensures |Tail(p, image, l, cs, 0, 0).bytes| <= l.maxEntry
  {
    hide LoadRef, Tail, ReadBack;
    var k := FirstStop(p, image, l, cs, 0);
    StreamIs(p, image, l, cs, k);
    if k > 0 { assert Delivers(p, image, l, cs, k - 1); }
  }

  // ---------- ends ----------

  /** A stream ends as if complete exactly when every chunk was delivered, or when the record of the first reference
      that was not runs past the end of the file; the latter is the one way for an entry to be cut short without an
      error. */
  lemma OrdinaryEndIff(p: Primitives, image: Bytes, l: Limits, cs: seq<ChunkRef>, k: nat)
    requires NoCodecEOF(p) && ChunksInOrder(cs, 0) && StopsAt(p, image, l, cs, k)
    ensures Tail(p, image, l, cs, 0, 0).final == EOF <==> k == |cs| || PastEnd(image, cs[k], l.maxChunk)
  {
    hide LoadRef, Tail, ReadBack, PastEnd;
    StreamIs(p, image, l, cs, k);
    if k < |cs| { LoadRefEOFIff(p, image, cs[k], l.verify, l.maxChunk); }
  }

  /** Loading the map checks that all recorded extents lie inside the file.  Then a stream ends as if complete exactly
      when everything was delivered, or when the first reference that was not has a recorded compressed size of zero
      and names a record whose payload runs past the end of the file. */
  lemma CheckedEndIff(p: Primitives, image: Bytes, l: Limits, cs: seq<ChunkRef>, k: nat)
    requires NoCodecEOF(p) && ChunksInOrder(cs, 0) && StopsAt(p, image, l, cs, k)
    requires forall j :: 0 <= j < |cs| ==> cs[j].chunkOffset + CHUNK_HEADER + cs[j].compSize <= |image|
    ensures Tail(p, image, l, cs, 0, 0).final == EOF <==>
            || k == |cs|
            || (&& cs[k].compSize == 0 && !(l.maxChunk > 0 && cs[k].rawSize > l.maxChunk)
                && cs[k].chunkOffset < MAX_OFFSET && PayloadPastEnd(image, cs[k]))
  {
    hide Tail, StopsAt, PastEnd, PayloadPastEnd;
    OrdinaryEndIff(p, image, l, cs, k);
    assert k <= |cs| by { StopBound(p, image, l, cs, k); }
    if k < |cs| { InsidePastEnd(image, cs[k], l.maxChunk); }
  }

  lemma StopBound(p: Primitives, image: Bytes, l: Limits, cs: seq<ChunkRef>, k: nat)
    requires StopsAt(p, image, l, cs, k)
    ensures k <= |cs|
  {
    hide Delivers;
  }

  // ---------- the round trip ----------

  /** The limits of a reader admit an entry of the given size. */
  ghost predicate Admits(l: Limits, cs: seq<ChunkRef>, size: nat)
  {
    && (l.maxEntry == 0 || size <= l.maxEntry)
    && forall j :: 0 <= j < |cs| ==> !(l.maxChunk > 0 && (cs[j].rawSize > l.maxChunk || cs[j].compSize > l.maxChunk))
  }

  /** A stream of the data: all of it if the limits admit that, and otherwise a part of it and then an error. */
  ghost predicate StreamsAs(t: Stream, data: Bytes, l: Limits, cs: seq<ChunkRef>)
  {
    if Admits(l, cs, |data|) then t == Stream(data, EOF) else t.bytes < data && t.final == LimitExceeded
  }

  /** `OpenReader` behind the lookup: the recorded size is checked before anything is read. */
  function OpenEntry(p: Primitives, image: Bytes, l: Limits, e: Entry): Result<Stream>
  {
    if l.maxEntry > 0 && e.fileSize > l.maxEntry then Err(LimitExceeded) else Ok(Tail(p, image, l, e.chunks, 0, 0))
  }

  /** Reading the data through an entry that records its size: refused at once if it is too large; otherwise all of it,
      unless some chunk is. */
  ghost predicate ReadsAs(r: Result<Stream>, data: Bytes, l: Limits, cs: seq<ChunkRef>)
  {
    if l.maxEntry > 0 && |data| > l.maxEntry then r == Err(LimitExceeded) else r.Ok? && StreamsAs(r.value, data, l, cs)
  }

  lemma {:induction false} ReadBackPart(p: Primitives, image: Bytes, cs: seq<ChunkRef>, k: nat, n: nat, verify: bool,
      maxChunk: u32)
    requires k <= n <= |cs| && ReadBack(p, image, cs, n, verify, 0).Ok?
    requires ReadBack(p, image, cs, k, verify, maxChunk).Ok?
    ensures ReadBack(p, image, cs, k, verify, maxChunk).value <= ReadBack(p, image, cs, n, verify, 0).value
    ensures k == n ==> ReadBack(p, image, cs, k, verify, maxChunk) == ReadBack(p, image, cs, n, verify, 0)
    decreases n
  {
    hide LoadRef;
    if n != 0 {
      if k < n {
        ReadBackPart(p, image, cs, k, n - 1, verify, maxChunk);
      } else {
        LoadRefLimits(p, image, cs[n - 1], verify, maxChunk);
        ReadBackPart(p, image, cs, n - 1, n - 1, verify, maxChunk);
      }
    }
  }

  lemma {:induction false} ReadBackParts(p: Primitives, image: Bytes, cs: seq<ChunkRef>, n: nat, verify: bool)
    requires n <= |cs| && ReadBack(p, image, cs, n, verify, 0).Ok?
    ensures |ReadBack(p, image, cs, n, verify, 0).value| == RawSum(cs, n)
    ensures forall j :: 0 <= j < n ==> LoadRef(p, image, cs[j], verify, 0).Ok?
  {
    hide LoadRef;
    if n != 0 { ReadBackParts(p, image, cs, n - 1, verify); }
  }

  /** Chunks that read back read back through the streaming reader, as far as its limits allow. */
  lemma ReadBackStreams(p: Primitives, image: Bytes, l: Limits, cs: seq<ChunkRef>)
    requires ChunksInOrder(cs, 0) && ReadBack(p, image, cs, |cs|, l.verify, 0).Ok?
    ensures StreamsAs(Tail(p, image, l, cs, 0, 0), ReadBack(p, image, cs, |cs|, l.verify, 0).value, l, cs)
  {
    hide LoadRef, Tail, ReadBack, RawSum;
    var n, data := |cs|, ReadBack(p, image, cs, |cs|, l.verify, 0).value;
    ReadBackParts(p, image, cs, n, l.verify);
    forall j | 0 <= j < n
      ensures LoadRef(p, image, cs[j], l.verify, l.maxChunk)
              == if l.maxChunk > 0 && (cs[j].rawSize > l.maxChunk || cs[j].compSize > l.maxChunk) then Err(LimitExceeded)
                 else LoadRef(p, image, cs[j], l.verify, 0)
    {
      LoadRefLimits(p, image, cs[j], l.verify, l.maxChunk);
    }
    var k := FirstStop(p, image, l, cs, 0);
    StreamIs(p, image, l, cs, k);
    ReadBackPart(p, image, cs, k, n, l.verify, l.maxChunk);
    if k < n {
      RawSumNext(cs, k);
      RawSumGrows(cs, k + 1, n);
    } else {
      forall j | 0 <= j < n
        ensures !(l.maxChunk > 0 && (cs[j].rawSize > l.maxChunk || cs[j].compSize > l.maxChunk))
      {
        assert Delivers(p, image, l, cs, j);
      }
      if n > 0 { assert Delivers(p, image, l, cs, n - 1); }
      RawSumNone(cs);
    }
  }

  lemma RawSumNext(cs: seq<ChunkRef>, k: nat)
    requires k < |cs|
    ensures RawSum(cs, k + 1) == RawSum(cs, k) + cs[k].rawSize
  {
  }

  lemma RawSumNone(cs: seq<ChunkRef>)
    ensures RawSum(cs, 0) == 0
  {
  }

  /** Write-then-read: what a successful write of a source appended is streamed back as exactly the source's data, from
      any file that still holds the appended bytes, for any chunk size and worker count, as far as the limits of the
      reader allow. */
  lemma WriteThenRead(s: Settings, src: Source, off: nat, refuse: Refuse, image: Bytes, l: Limits)
    requires s.p.InversePair() && s.size < U32 && Written(s, src, off, refuse).result.Ok?
    requires At(image, off, Written(s, src, off, refuse).log)
    ensures var refs := Written(s, src, off, refuse).result.value.0;
            StreamsAs(Tail(s.p, image, l, refs, 0, 0), src.data, l, refs)
  {
    hide Written, ReadBack, Tail, TiledRefs, Packed, StreamsAs;
    WrittenReadsBack(s, src, off, refuse, image, l.verify);
    var refs := Written(s, src, off, refuse).result.value.0;
    TiledInOrder(refs, 0, |src.data|);
    ReadBackStreams(s.p, image, l, refs);
  }

  // ---------- isolation ----------

  /** What a reader delivers depends only on the records its references name. */
  lemma {:induction false} TailStable(p: Primitives, image: Bytes, grown: Bytes, l: Limits, cs: seq<ChunkRef>,
      i: nat, total: u64)
    requires i <= |cs| && forall j :: i <= j < |cs| ==> SameRecord(image, grown, cs[j]) && cs[j].compSize > 0
    ensures Tail(p, grown, l, cs, i, total) == Tail(p, image, l, cs, i, total)
    decreases |cs| - i
  {
    hide LoadRef, SameRecord;
    if i < |cs| {
      LoadRefStable(p, image, grown, cs[i], l.verify, l.maxChunk);
      var loaded := LoadRef(p, image, cs[i], l.verify, l.maxChunk);
      if loaded.Ok? && !OverLimit(total, |loaded.value|, l.maxEntry) {
        TailStable(p, image, grown, l, cs, i + 1, (total + |loaded.value|) % U64);
      }
    }
  }
}

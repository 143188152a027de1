/** The disk: a durable image plus unsynced writes, and every image a crash may leave behind. */
module Disk {
  import opened Binary
  import opened Common
  import opened Header

  datatype FileOp = WriteAt(off: nat, data: Bytes) | Sync

  datatype Disk = Disk(durable: Bytes, pending: seq<FileOp>)

  /** The image after one write; a write beyond the end fills the gap with zeros. */
  function Overwrite(b: Bytes, off: nat, data: Bytes): (r: Bytes)
    ensures |r| == if off + |data| > |b| then off + |data| else |b|
    ensures r[off..off + |data|] == data
    ensures forall i :: 0 <= i < |b| && !(off <= i < off + |data|) ==> r[i] == b[i]
  {
    var base := if off > |b| then b + Zeros(off - |b|) else b;
    base[..off] + data + if off + |data| < |base| then base[off + |data|..] else []
  }

  predicate AllWrites(ops: seq<FileOp>)
  {
    forall i :: 0 <= i < |ops| ==> ops[i].WriteAt?
  }

  /** What the running process reads: the durable image with every write applied in order. */
  function View(d: Disk): Bytes
    requires AllWrites(d.pending)
    decreases |d.pending|
  {
    if |d.pending| == 0 then d.durable
    else
      var n := |d.pending| - 1;
      Overwrite(View(Disk(d.durable, d.pending[..n])), d.pending[n].off, d.pending[n].data)
  }

  function Apply(d: Disk, op: FileOp): (r: Disk)
    requires AllWrites(d.pending)
    ensures AllWrites(r.pending)
  {
    match op
    case WriteAt(_, _) => Disk(d.durable, d.pending + [op])
    case Sync => Disk(View(d), [])
  }

  function ApplyAll(d: Disk, ops: seq<FileOp>): (r: Disk)
    requires AllWrites(d.pending)
    ensures AllWrites(r.pending)
    decreases |ops|
  {
    if |ops| == 0 then d else ApplyAll(Apply(d, ops[0]), ops[1..])
  }

  lemma {:induction false} ApplyAllSnoc(d: Disk, ops: seq<FileOp>, n: nat)
    requires AllWrites(d.pending) && n < |ops|
    ensures ApplyAll(d, ops[..n + 1]) == Apply(ApplyAll(d, ops[..n]), ops[n])
    decreases |ops|
  {
    hide View;
    if n == 0 {
      assert ops[..1][1..] == [] && ops[..0] == [];
      assert ApplyAll(d, ops[..1]) == ApplyAll(Apply(d, ops[0]), []);
    } else {
      ApplyAllSnoc(Apply(d, ops[0]), ops[1..], n - 1);
      assert ops[1..][..n] == ops[..n + 1][1..] && ops[1..][..n - 1] == ops[..n][1..];
    }
  }

  // ---------- append-only discipline ----------

  predicate SlotWrite(op: FileOp)
  {
    op.WriteAt? && (op.off == 0 || op.off == SLOT) && |op.data| == SLOT
  }

  /** Unsynced writes replace a whole header slot or lie at or beyond the durable end. */
  predicate Disciplined(d: Disk)
  {
    && 2 * SLOT <= |d.durable| && AllWrites(d.pending)
    && forall i :: 0 <= i < |d.pending| ==> SlotWrite(d.pending[i]) || |d.durable| <= d.pending[i].off
  }

  /** Past the slots, b begins with everything a holds. */
  ghost predicate Grows(a: Bytes, b: Bytes)
  {
    |a| <= |b| && forall i :: 2 * SLOT <= i < |a| ==> b[i] == a[i]
  }

  lemma {:induction false} ViewGrows(d: Disk)
    requires Disciplined(d)
    ensures Grows(d.durable, View(d))
    decreases |d.pending|
  {
    if |d.pending| != 0 {
      var n := |d.pending| - 1;
      var before := Disk(d.durable, d.pending[..n]);
      ViewGrows(before);
      assert SlotWrite(d.pending[n]) || |d.durable| <= d.pending[n].off;
    }
  }

  /** The bytes last written to the slot at s, if any write is pending there. */
  function LastWrite(ops: seq<FileOp>, s: nat): Option<Bytes>
    requires AllWrites(ops)
  {
    if |ops| == 0 then None
    else if ops[|ops| - 1].off == s then Some(ops[|ops| - 1].data)
    else LastWrite(ops[..|ops| - 1], s)
  }

  lemma {:induction false} ViewSlot(d: Disk, s: nat)
    requires Disciplined(d) && s in {0, SLOT}
    ensures |View(d)| >= 2 * SLOT
    ensures View(d)[s..s + SLOT] == match LastWrite(d.pending, s) case Some(b) => b case None => d.durable[s..s + SLOT]
    decreases |d.pending|
  {
    if |d.pending| != 0 {
      var n := |d.pending| - 1;
      var before, op := Disk(d.durable, d.pending[..n]), d.pending[n];
      ViewSlot(before, s);
      assert SlotWrite(op) || |d.durable| <= op.off;
      if op.off != s {
        OverwriteElsewhere(View(before), op.off, op.data, s, s + SLOT);
      }
    }
  }

  lemma OverwriteElsewhere(b: Bytes, off: nat, data: Bytes, lo: nat, hi: nat)
    requires lo <= hi <= |b| && (hi <= off || off + |data| <= lo)
    ensures Overwrite(b, off, data)[lo..hi] == b[lo..hi]
  {
  }

  /** A write appended exactly at the end of the view extends it. */
  lemma AppendExtendsView(d: Disk, data: Bytes)
    requires AllWrites(d.pending)
    ensures View(Apply(d, WriteAt(|View(d)|, data))) == View(d) + data
  {
    hide Overwrite;
    var op := WriteAt(|View(d)|, data);
    assert (d.pending + [op])[..|d.pending|] == d.pending;
    OverwriteAtEnd(View(d), data);
  }

  lemma OverwriteAtEnd(b: Bytes, data: Bytes)
    ensures Overwrite(b, |b|, data) == b + data
  {
  }

  // ---------- crashes ----------

  ghost predicate FieldFrom(r: Bytes, cands: set<Bytes>, lo: nat, hi: nat)
    requires lo <= hi <= SLOT && |r| == SLOT && forall c :: c in cands ==> |c| == SLOT
  {
    exists c :: c in cands && r[lo..hi] == c[lo..hi]
  }

  /** r is a slot torn between the candidates, field by field. */
  ghost predicate TornSlot(r: Bytes, cands: set<Bytes>)
  {
    && |r| == SLOT && (forall c :: c in cands ==> |c| == SLOT)
    && FieldFrom(r, cands, 0, 4) && FieldFrom(r, cands, 4, 6) && FieldFrom(r, cands, 6, 8) && FieldFrom(r, cands, 8, 12)
    && FieldFrom(r, cands, 12, 28) && FieldFrom(r, cands, 28, 36) && FieldFrom(r, cands, 36, 44)
    && FieldFrom(r, cands, 44, 52) && FieldFrom(r, cands, 52, 56) && FieldFrom(r, cands, 56, 64)
    && FieldFrom(r, cands, 64, 72) && FieldFrom(r, cands, 72, 73) && FieldFrom(r, cands, 73, 74)
    && FieldFrom(r, cands, 74, 80) && FieldFrom(r, cands, 80, 88) && FieldFrom(r, cands, 88, 96)
    && FieldFrom(r, cands, 96, 104) && FieldFrom(r, cands, 104, 112) && FieldFrom(r, cands, 112, 120)
    && FieldFrom(r, cands, 120, 124) && FieldFrom(r, cands, 124, 128)
  }

  /** What a field of the slot at s may hold after a crash: the durable bytes or any unsynced write. */
  function SlotCandidates(d: Disk, s: nat): set<Bytes>
    requires Disciplined(d) && s in {0, SLOT}
  {
    {d.durable[s..s + SLOT]} + set i | 0 <= i < |d.pending| && d.pending[i].off == s :: d.pending[i].data
  }

  /** The images a crash may leave: nothing durable is lost, space past the durable end holds anything
      at any length, and the two slots may be torn. */
  ghost predicate CrashImage(d: Disk, r: Bytes)
    requires Disciplined(d)
  {
    && Grows(d.durable, r)
    && TornSlot(r[0..SLOT], SlotCandidates(d, 0))
    && TornSlot(r[SLOT..2 * SLOT], SlotCandidates(d, SLOT))
  }

  lemma {:induction false} LastWriteIs(ops: seq<FileOp>, s: nat)
    requires AllWrites(ops) && LastWrite(ops, s).Some?
    ensures exists i :: 0 <= i < |ops| && ops[i].off == s && ops[i].data == LastWrite(ops, s).value
  {
    var n := |ops| - 1;
    if ops[n].off != s {
      LastWriteIs(ops[..n], s);
      var i :| 0 <= i < n && ops[..n][i].off == s && ops[..n][i].data == LastWrite(ops[..n], s).value;
      assert ops[i].off == s;
    }
  }

  lemma WholeSlot(r: Bytes, cands: set<Bytes>)
    requires r in cands && |r| == SLOT && forall c :: c in cands ==> |c| == SLOT
    ensures TornSlot(r, cands)
  {
  }

  /** The crashes considered include every loss and every reordering of unsynced writes: whichever of them reach the disk,
      in whatever order and however often. */
  lemma CrashCovers(d: Disk, kept: seq<FileOp>)
    requires Disciplined(d) && forall op :: op in kept ==> op in d.pending
    ensures Disciplined(Disk(d.durable, kept)) && CrashImage(d, View(Disk(d.durable, kept)))
  {
    hide TornSlot, View;
    var k := Disk(d.durable, kept);
    forall i | 0 <= i < |kept|
      ensures kept[i] in d.pending
    {
    }
    ViewGrows(k);
    SlotCovers(d, k, 0);
    SlotCovers(d, k, SLOT);
  }

  lemma SlotCovers(d: Disk, k: Disk, s: nat)
    requires Disciplined(d) && Disciplined(k) && k.durable == d.durable && s in {0, SLOT}
    requires forall op :: op in k.pending ==> op in d.pending
    ensures |View(k)| >= 2 * SLOT && TornSlot(View(k)[s..s + SLOT], SlotCandidates(d, s))
  {
    hide TornSlot, View;
    ViewSlot(k, s);
    if LastWrite(k.pending, s).Some? {
      LastWriteIs(k.pending, s);
      var i :| 0 <= i < |k.pending| && k.pending[i].off == s && k.pending[i].data == LastWrite(k.pending, s).value;
      assert k.pending[i] in d.pending;
      var j :| 0 <= j < |d.pending| && d.pending[j] == k.pending[i];
      assert d.pending[j].data in SlotCandidates(d, s);
    }
    WholeSlot(View(k)[s..s + SLOT], SlotCandidates(d, s));
  }

  lemma ExtendEqual(r: Bytes, x: Bytes, cands: set<Bytes>, mid: nat, hi: nat)
    requires |r| == SLOT && |x| == SLOT && (forall c :: c in cands ==> |c| == SLOT && c == x)
    requires mid <= hi <= SLOT && r[..mid] == x[..mid] && FieldFrom(r, cands, mid, hi)
    ensures r[..hi] == x[..hi]
  {
    assert r[..hi] == r[..mid] + r[mid..hi] && x[..hi] == x[..mid] + x[mid..hi];
  }

  /** A slot torn between copies of one header is that header. */
  lemma TornSingle(r: Bytes, x: Bytes, cands: set<Bytes>)
    requires TornSlot(r, cands) && |x| == SLOT && forall c :: c in cands ==> c == x
    ensures r == x
  {
    hide FieldFrom;
    ExtendEqual(r, x, cands, 0, 4);
    ExtendEqual(r, x, cands, 4, 6);
    ExtendEqual(r, x, cands, 6, 8);
    ExtendEqual(r, x, cands, 8, 12);
    ExtendEqual(r, x, cands, 12, 28);
    ExtendEqual(r, x, cands, 28, 36);
    ExtendEqual(r, x, cands, 36, 44);
    ExtendEqual(r, x, cands, 44, 52);
    ExtendEqual(r, x, cands, 52, 56);
    ExtendEqual(r, x, cands, 56, 64);
    ExtendEqual(r, x, cands, 64, 72);
    ExtendEqual(r, x, cands, 72, 73);
    ExtendEqual(r, x, cands, 73, 74);
    ExtendEqual(r, x, cands, 74, 80);
    ExtendEqual(r, x, cands, 80, 88);
    ExtendEqual(r, x, cands, 88, 96);
    ExtendEqual(r, x, cands, 96, 104);
    ExtendEqual(r, x, cands, 104, 112);
    ExtendEqual(r, x, cands, 112, 120);
    ExtendEqual(r, x, cands, 120, 124);
    ExtendEqual(r, x, cands, 124, 128);
    assert r == r[..128] && x == x[..128];
  }

  function ParsedAll(cands: set<Bytes>): set<Header>
    requires forall c :: c in cands ==> |c| == SLOT
  {
    set c | c in cands :: ParseHeader(c, 0)
  }

  lemma Reserved64(b: Bytes, k: nat)
    requires |b| == SLOT && k + 8 <= 56
    ensures Get64(ParseHeader(b, 0).reserved, k) == Get64(b, 72 + k)
  {
    var w := b[72..128];
    AtWithin(b, 72, w, k, w[k..k + 8]);
  }

  lemma Reserved32(b: Bytes, k: nat)
    requires |b| == SLOT && k + 4 <= 56
    ensures Get32(ParseHeader(b, 0).reserved, k) == Get32(b, 72 + k)
  {
    var w := b[72..128];
    AtWithin(b, 72, w, k, w[k..k + 4]);
  }

  /** The extension fields of a parsed slot, read from their places in the slot. */
  lemma SlotExt(b: Bytes)
    requires |b| == SLOT
    ensures ExtOf(ParseHeader(b, 0).reserved) ==
            Ext(b[72], b[73], Get64(b, 80), Get64(b, 88), Get64(b, 96), Get64(b, 104), Get64(b, 112), Get32(b, 120),
              Get32(b, 124))
  {
    hide Get32, Get64;
    Reserved64(b, 8);
    Reserved64(b, 16);
    Reserved64(b, 24);
    Reserved64(b, 32);
    Reserved64(b, 40);
    Reserved32(b, 48);
    Reserved32(b, 52);
  }

  /** Parsing a torn slot gives a header each of whose fields is some candidate's. */
  lemma TornParses(r: Bytes, cands: set<Bytes>)
    requires TornSlot(r, cands)
    ensures Mixed(ParseHeader(r, 0), ParsedAll(cands))
  {
    hide MixedExt, MixedHead, MixedMarks, MixedPointers, Mixed, FieldFrom, ParsedAll, ParseHeader, ExtOf;
    TornHeadFields(r, cands);
    TornMarks(r, cands);
    TornPointers(r, cands);
    MixedParts(ParseHeader(r, 0), ParsedAll(cands));
  }

  lemma MixedParts(h: Header, s: set<Header>)
    requires MixedHead(h, s) && MixedMarks(ExtOf(h.reserved), s) && MixedPointers(ExtOf(h.reserved), s)
    ensures Mixed(h, s)
  {
    hide ExtOf;
  }

  ghost predicate MixedMarks(x: Ext, s: set<Header>)
  {
    && (exists c :: c in s && x.marker == Marker(c)) && (exists c :: c in s && x.minor == Minor(c))
    && (exists c :: c in s && x.features == Features(c))
  }

  ghost predicate MixedPointers(x: Ext, s: set<Header>)
  {
    && (exists c :: c in s && x.gen == Generation(c)) && (exists c :: c in s && x.idxOff == IndexOffset(c))
    && (exists c :: c in s && x.idxSize == IndexSize(c)) && (exists c :: c in s && x.idxCRC == IndexCRC(c))
  }

  ghost predicate MixedHead(h: Header, s: set<Header>)
  {
    && (exists c :: c in s && h.magic == c.magic) && (exists c :: c in s && h.version == c.version)
    && (exists c :: c in s && h.headerSize == c.headerSize) && (exists c :: c in s && h.flags == c.flags)
    && (exists c :: c in s && h.dirOffset == c.dirOffset) && (exists c :: c in s && h.dirSize == c.dirSize)
    && (exists c :: c in s && h.dirCRC == c.dirCRC) && (exists c :: c in s && h.journalOffset == c.journalOffset)
    && (exists c :: c in s && h.journalSize == c.journalSize)
  }

  lemma FieldSource(r: Bytes, cands: set<Bytes>, lo: nat, hi: nat) returns (c: Bytes)
    requires |r| == SLOT && (forall c :: c in cands ==> |c| == SLOT) && lo <= hi <= SLOT && FieldFrom(r, cands, lo, hi)
    ensures c in cands && |c| == SLOT && r[lo..hi] == c[lo..hi] && ParseHeader(c, 0) in ParsedAll(cands)
  {
    c :| c in cands && r[lo..hi] == c[lo..hi];
  }

  lemma TornHeadFields(r: Bytes, cands: set<Bytes>)
    requires TornSlot(r, cands)
    ensures MixedHead(ParseHeader(r, 0), ParsedAll(cands))
  {
    hide FieldFrom, ParsedAll, UnLE;
    var c1 := FieldSource(r, cands, 0, 4);
    var c2 := FieldSource(r, cands, 4, 6);
    var c3 := FieldSource(r, cands, 6, 8);
    var c4 := FieldSource(r, cands, 8, 12);
    var c5 := FieldSource(r, cands, 36, 44);
    var c6 := FieldSource(r, cands, 44, 52);
    var c7 := FieldSource(r, cands, 52, 56);
    var c8 := FieldSource(r, cands, 56, 64);
    var c9 := FieldSource(r, cands, 64, 72);
  }

  lemma ExtAccessors(h: Header)
    ensures var x := ExtOf(h.reserved);
            && x.marker == Marker(h) && x.minor == Minor(h) && x.gen == Generation(h) && x.idxOff == IndexOffset(h)
            && x.idxSize == IndexSize(h) && x.idxCRC == IndexCRC(h) && x.features == Features(h)
  {
  }

  /** A candidate with the same bytes in [lo, hi), and where its extension fields lie. */
  lemma ExtSource(r: Bytes, cands: set<Bytes>, lo: nat, hi: nat) returns (c: Bytes)
    requires |r| == SLOT && (forall c :: c in cands ==> |c| == SLOT) && lo <= hi <= SLOT && FieldFrom(r, cands, lo, hi)
    ensures |c| == SLOT && r[lo..hi] == c[lo..hi] && ParseHeader(c, 0) in ParsedAll(cands)
    ensures var h := ParseHeader(c, 0);
            && Marker(h) == c[72] && Minor(h) == c[73] && Generation(h) == Get64(c, 96)
            && IndexOffset(h) == Get64(c, 104) && IndexSize(h) == Get64(c, 112) && IndexCRC(h) == Get32(c, 120) && Features(h) == Get32(c, 124)
  {
    hide Get32, Get64, ParseHeader, ExtOf, ParsedAll, FieldFrom;
    c := FieldSource(r, cands, lo, hi);
    SlotExt(c);
    ExtAccessors(ParseHeader(c, 0));
  }

  lemma TornMarks(r: Bytes, cands: set<Bytes>)
    requires TornSlot(r, cands)
    ensures MixedMarks(ExtOf(ParseHeader(r, 0).reserved), ParsedAll(cands))
  {
    hide FieldFrom, ParsedAll, UnLE, ParseHeader, ExtOf, Marker, Minor, Generation, IndexOffset, IndexSize, IndexCRC,
      Features;
    SlotExt(r);
    var c1 := ExtSource(r, cands, 72, 73);
    assert r[72] == r[72..73][0] == c1[72..73][0] == c1[72];
    var c2 := ExtSource(r, cands, 73, 74);
    assert r[73] == r[73..74][0] == c2[73..74][0] == c2[73];
    var c3 := ExtSource(r, cands, 124, 128);
  }

  lemma TornPointers(r: Bytes, cands: set<Bytes>)
    requires TornSlot(r, cands)
    ensures MixedPointers(ExtOf(ParseHeader(r, 0).reserved), ParsedAll(cands))
  {
    hide FieldFrom, ParsedAll, UnLE, ParseHeader, ExtOf, Marker, Minor, Generation, IndexOffset, IndexSize, IndexCRC,
      Features;
    SlotExt(r);
    var c1 := ExtSource(r, cands, 96, 104);
    var c2 := ExtSource(r, cands, 104, 112);
    var c3 := ExtSource(r, cands, 112, 120);
    var c4 := ExtSource(r, cands, 120, 124);
  }
}

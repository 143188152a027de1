/** The two header slots through commits and crashes: which committed headers the disk can still yield. */
module Slots {
  import opened Binary
  import opened Common
  import opened Directory
  import opened Catalog
  import opened Rows
  import opened HashRanges
  import opened DirIndex
  import opened Header
  import opened Snapshot
  import opened Journal
  import opened Disk
  import opened Open

  // ---------- volumes ----------

  /** A version of the container: its map, and an image that holds the chunk records the map refers to. */
  datatype Volume = Volume(entries: Paths, image: Bytes)

  function RecordOf(file: Bytes, c: ChunkRef): Bytes
  {
    if RefInside(c, |file|) then file[c.chunkOffset..c.chunkOffset + 16 + c.compSize] else []
  }

  ghost predicate MapRefsIntact(m: Paths, size: nat)
  {
    forall k, i :: k in m && 0 <= i < |m[k].chunks| ==>
      RefInside(m[k].chunks[i], size) && 2 * SLOT <= m[k].chunks[i].chunkOffset
  }

  /** Every chunk record of the volume lies in the file, byte for byte. */
  ghost predicate Intact(file: Bytes, v: Volume)
  {
    && MapRefsIntact(v.entries, |v.image|) && MapRefsIntact(v.entries, |file|)
    && forall k, i :: k in v.entries && 0 <= i < |v.entries[k].chunks| ==>
         RecordOf(file, v.entries[k].chunks[i]) == RecordOf(v.image, v.entries[k].chunks[i])
  }

  lemma RecordGrows(x: Bytes, y: Bytes, c: ChunkRef)
    requires Grows(x, y) && RefInside(c, |x|) && 2 * SLOT <= c.chunkOffset
    ensures RecordOf(y, c) == RecordOf(x, c)
  {
  }

  lemma IntactGrows(x: Bytes, y: Bytes, v: Volume)
    requires Grows(x, y) && Intact(x, v)
    ensures Intact(y, v)
  {
    hide RecordOf;
    forall k, i | k in v.entries && 0 <= i < |v.entries[k].chunks|
      ensures RecordOf(y, v.entries[k].chunks[i]) == RecordOf(v.image, v.entries[k].chunks[i])
    {
      RecordGrows(x, y, v.entries[k].chunks[i]);
    }
  }

  lemma PieceGrows(x: Bytes, y: Bytes, off: nat, piece: Bytes)
    requires Grows(x, y) && 2 * SLOT <= off && At(x, off, piece)
    ensures At(y, off, piece)
  {
  }

  /** What a header depends on survives everything that leaves the bytes behind the slots in place. */
  lemma AnchoredGrows(p: Primitives, x: Bytes, y: Bytes, a: Anchor)
    requires Grows(x, y) && Anchored(p, x, a)
    ensures Anchored(p, y, a)
  {
    hide At, Stamped, Grows, AllCanonical, UniquePaths;
    AnchorParts(p, x, a);
    PieceGrows(x, y, a.h.dirOffset, a.Blob(p));
    PieceGrows(x, y, IndexOffset(a.h), IndexBytes(p, a.Idx()));
    assert |x| <= |y| by { GrowsLength(x, y); }
    RefsIntactGrow(a.es, |x|, |y|);
  }

  lemma GrowsLength(x: Bytes, y: Bytes)
    requires Grows(x, y)
    ensures |x| <= |y|
  {
  }

  lemma RefsIntactGrow(es: seq<Entry>, m: nat, n: nat)
    requires RefsIntact(es, m) && m <= n
    ensures RefsIntact(es, n)
  {
  }

  // ---------- shapes ----------

  /** Why a disk is recoverable.  Settled: the primary slot is durably header a.  Moving: the fixed slot is
      durably header b, and the primary slot is on its way from a to b. */
  datatype Shape = Settled(a: Anchor, va: Volume) | Moving(a: Anchor, va: Volume, b: Anchor, vb: Volume)

  ghost predicate Names(p: Primitives, file: Bytes, a: Anchor, v: Volume)
  {
    Anchored(p, file, a) && a.Contents() == v.entries && Intact(file, v)
  }

  lemma NamesGrows(p: Primitives, x: Bytes, y: Bytes, a: Anchor, v: Volume)
    requires Grows(x, y) && Names(p, x, a, v)
    ensures Names(p, y, a, v)
  {
    hide Anchored, Intact, Grows;
    AnchoredGrows(p, x, y, a);
    IntactGrows(x, y, v);
  }

  ghost predicate OnlySlotBytes(ops: seq<FileOp>, hb: Bytes)
  {
    forall i :: 0 <= i < |ops| && ops[i].WriteAt? && (ops[i].off == 0 || ops[i].off == SLOT) ==> ops[i].data == hb
  }

  ghost predicate NoPrimaryWrite(ops: seq<FileOp>)
  {
    forall i :: 0 <= i < |ops| && ops[i].WriteAt? ==> ops[i].off != 0
  }

  ghost predicate SettledOn(p: Primitives, d: Disk, a: Anchor, va: Volume)
  {
    && Disciplined(d) && Names(p, d.durable, a, va)
    && d.durable[0..SLOT] == HeaderBytes(a.h) && NoPrimaryWrite(d.pending)
  }

  ghost predicate MovingTo(p: Primitives, d: Disk, a: Anchor, va: Volume, b: Anchor, vb: Volume)
  {
    && Disciplined(d) && Names(p, d.durable, a, va) && Names(p, d.durable, b, vb)
    && d.durable[SLOT..2 * SLOT] == HeaderBytes(b.h) && OnlySlotBytes(d.pending, HeaderBytes(b.h))
    && Mixed(ParseHeader(d.durable, 0), {a.h, b.h})
  }

  /** The disk has shape w, and the version it can yield is allowed; the old version of a moving disk only
      if the primary slot can still load as it. */
  ghost predicate Shaped(p: Primitives, d: Disk, allowed: set<Volume>, w: Shape)
  {
    match w
    case Settled(a, va) => SettledOn(p, d, a, va) && va in allowed
    case Moving(a, va, b, vb) =>
      && MovingTo(p, d, a, va, b, vb) && vb in allowed
      && (EssenceOf(ParseHeader(d.durable, 0)) == EssenceOf(a.h) ==> va in allowed)
  }

  /** While the container is open, a moving disk has the new header pending in its primary slot. */
  ghost predicate Live(d: Disk, w: Shape)
  {
    w.Moving? ==> exists i :: 0 <= i < |d.pending| && d.pending[i].WriteAt? && d.pending[i].off == 0
  }

  /** A repair whose write of the primary slot was refused leaves that slot as the crash did: it can be loaded neither
      as the old header nor as the new one. */
  ghost predicate Torn(d: Disk, w: Shape)
  {
    && w.Moving? && SLOT <= |d.durable| && NoPrimaryWrite(d.pending)
    && EssenceOf(ParseHeader(d.durable, 0)) != EssenceOf(w.a.h) && EssenceOf(ParseHeader(d.durable, 0)) != EssenceOf(w.b.h)
  }

  /** How the disk of an open container is. */
  ghost predicate Ready(d: Disk, w: Shape)
  {
    Live(d, w) || Torn(d, w)
  }

  // ---------- slots of the view ----------

  lemma {:induction false} NoLastWrite(ops: seq<FileOp>)
    requires AllWrites(ops) && NoPrimaryWrite(ops)
    ensures LastWrite(ops, 0) == None
  {
    if |ops| != 0 { NoLastWrite(ops[..|ops| - 1]); }
  }

  lemma {:induction false} OnlyLastWrite(ops: seq<FileOp>, hb: Bytes, s: nat)
    requires AllWrites(ops) && OnlySlotBytes(ops, hb) && s in {0, SLOT}
    ensures LastWrite(ops, s) == None || LastWrite(ops, s) == Some(hb)
    ensures (exists i :: 0 <= i < |ops| && ops[i].off == s) ==> LastWrite(ops, s) == Some(hb)
  {
    if |ops| != 0 && ops[|ops| - 1].off != s {
      OnlyLastWrite(ops[..|ops| - 1], hb, s);
      if i :| 0 <= i < |ops| && ops[i].off == s {
        assert ops[..|ops| - 1][i].off == s;
      }
    }
  }

  lemma ParseSlot(file: Bytes)
    requires SLOT <= |file|
    ensures ParseHeader(file, 0) == ParseHeader(file[0..SLOT], 0)
  {
    hide UnLE;
    var s := file[0..SLOT];
    SlotPart(file, 0, 4);
    SlotPart(file, 4, 6);
    SlotPart(file, 6, 8);
    SlotPart(file, 8, 12);
    SlotPart(file, 12, 28);
    SlotPart(file, 28, 36);
    SlotPart(file, 36, 44);
    SlotPart(file, 44, 52);
    SlotPart(file, 52, 56);
    SlotPart(file, 56, 64);
    SlotPart(file, 64, 72);
    SlotPart(file, 72, 128);
  }

  lemma SlotPart(file: Bytes, lo: nat, hi: nat)
    requires lo <= hi <= SLOT <= |file|
    ensures file[lo..hi] == file[0..SLOT][lo..hi]
  {
  }

  /** What the running process reads in the two slots of a disk of either shape. */
  lemma ViewSlots(p: Primitives, d: Disk, allowed: set<Volume>, w: Shape)
    requires Shaped(p, d, allowed, w)
    ensures Disciplined(d) && Grows(d.durable, View(d)) && |View(d)| >= 2 * SLOT
    ensures w.Settled? ==> View(d)[0..SLOT] == HeaderBytes(w.a.h)
    ensures w.Moving? ==>
              && View(d)[SLOT..2 * SLOT] == HeaderBytes(w.b.h)
              && (Live(d, w) ==> View(d)[0..SLOT] == HeaderBytes(w.b.h))
              && (!Live(d, w) ==> View(d)[0..SLOT] == d.durable[0..SLOT] && NoPrimaryWrite(d.pending))
  {
    hide HeaderBytes, Names, View, Grows, Mixed, EssenceOf, ParseHeader;
    assert Disciplined(d);
    ViewGrows(d);
    ViewSlot(d, 0);
    match w
    case Settled(a, va) => NoLastWrite(d.pending);
    case Moving(a, va, b, vb) =>
      ViewSlot(d, SLOT);
      OnlyLastWrite(d.pending, HeaderBytes(b.h), 0);
      OnlyLastWrite(d.pending, HeaderBytes(b.h), SLOT);
      if !Live(d, w) { NoLastWrite(d.pending); }
  }

  // ---------- mixtures ----------

  lemma MixedSelf(c: Header, s: set<Header>)
    requires c in s
    ensures Mixed(c, s)
  {
    hide Get64, Get32;
    ExtAccessors(c);
  }

  lemma MixedTrans(h: Header, s: set<Header>, u: set<Header>)
    requires Mixed(h, s) && forall c :: c in s ==> Mixed(c, u)
    ensures Mixed(h, u)
  {
    hide Mixed, MixedExt, MixedHead, MixedMarks, MixedPointers, ExtOf;
    MixedApart(h, s);
    forall c | c in s
      ensures MixedHead(c, u) && MixedMarks(ExtOf(c.reserved), u) && MixedPointers(ExtOf(c.reserved), u)
    {
      MixedApart(c, u);
    }
    HeadTrans(h, s, u);
    MarksTrans(ExtOf(h.reserved), s, u);
    PointersTrans(ExtOf(h.reserved), s, u);
    MixedParts(h, u);
  }

  lemma MixedApart(h: Header, s: set<Header>)
    requires Mixed(h, s)
    ensures MixedHead(h, s) && MixedMarks(ExtOf(h.reserved), s) && MixedPointers(ExtOf(h.reserved), s)
  {
    hide ExtOf;
  }

  lemma HeadTrans(h: Header, s: set<Header>, u: set<Header>)
    requires MixedHead(h, s) && forall c :: c in s ==> MixedHead(c, u)
    ensures MixedHead(h, u)
  {
  }

  lemma MarksTrans(x: Ext, s: set<Header>, u: set<Header>)
    requires MixedMarks(x, s) && forall c :: c in s ==> MixedMarks(ExtOf(c.reserved), u)
    ensures MixedMarks(x, u)
  {
    hide Marker, Minor, Features, ExtOf;
    forall c | c in s
      ensures ExtOf(c.reserved).marker == Marker(c) && ExtOf(c.reserved).minor == Minor(c) && ExtOf(c.reserved).features == Features(c)
    {
      ExtAccessors(c);
    }
  }

  lemma PointersTrans(x: Ext, s: set<Header>, u: set<Header>)
    requires MixedPointers(x, s) && forall c :: c in s ==> MixedPointers(ExtOf(c.reserved), u)
    ensures MixedPointers(x, u)
  {
    hide Generation, IndexOffset, IndexSize, IndexCRC, ExtOf;
    forall c | c in s
      ensures ExtOf(c.reserved).gen == Generation(c) && ExtOf(c.reserved).idxOff == IndexOffset(c)
      ensures ExtOf(c.reserved).idxSize == IndexSize(c) && ExtOf(c.reserved).idxCRC == IndexCRC(c)
    {
      ExtAccessors(c);
    }
  }

  /** Tearing more of b into a mixture of a and b never brings back the essence of a. */
  lemma EssenceBack(h: Header, s: set<Header>, t: Header, a: Header, b: Header)
    requires Mixed(h, s) && (forall c :: c in s ==> c == t || c == b) && Mixed(t, {a, b})
    requires EssenceOf(h) == EssenceOf(a)
    ensures EssenceOf(t) == EssenceOf(a)
  {
    hide Get64, Get32, Generation, IndexOffset, IndexSize, IndexCRC, ExtOf;
    ExtAccessors(h);
    ExtAccessors(t);
  }

  // ---------- what keeps the shape ----------

  lemma ParsedPair(cands: set<Bytes>, x: Bytes, b: Header)
    requires |x| == SLOT && forall c :: c in cands ==> c == x || c == HeaderBytes(b)
    ensures forall c :: c in cands ==> |c| == SLOT
    ensures forall h :: h in ParsedAll(cands) ==> h == ParseHeader(x, 0) || h == b
  {
    hide HeaderBytes, ParseHeader;
    HeaderRoundTrip(b, HeaderBytes(b));
  }

  lemma CrashedPrimary(r: Bytes, x: Bytes, cands: set<Bytes>, a: Header, b: Header)
    requires |x| == SLOT && (forall c :: c in cands ==> c == x || c == HeaderBytes(b)) && TornSlot(r, cands)
    requires Mixed(ParseHeader(x, 0), {a, b})
    ensures Mixed(ParseHeader(r, 0), {a, b})
    ensures EssenceOf(ParseHeader(r, 0)) == EssenceOf(a) ==> EssenceOf(ParseHeader(x, 0)) == EssenceOf(a)
  {
    hide HeaderBytes, ParseHeader, EssenceOf, Mixed, FieldFrom, ParsedAll;
    ParsedPair(cands, x, b);
    TornParses(r, cands);
    var s := ParsedAll(cands);
    MixedSelf(b, {a, b});
    MixedTrans(ParseHeader(r, 0), s, {a, b});
    if EssenceOf(ParseHeader(r, 0)) == EssenceOf(a) { EssenceBack(ParseHeader(r, 0), s, ParseHeader(x, 0), a, b); }
  }

  lemma SlotCandidatesAre(d: Disk, s: nat, hb: Bytes)
    requires Disciplined(d) && s in {0, SLOT}
    requires forall i :: 0 <= i < |d.pending| && d.pending[i].off == s ==> d.pending[i].data == hb
    ensures forall c :: c in SlotCandidates(d, s) ==> c == d.durable[s..s + SLOT] || c == hb
  {
  }

  /** Any image a crash may leave has the shape the disk had. */
  lemma CrashKeeps(p: Primitives, d: Disk, allowed: set<Volume>, w: Shape, r: Bytes)
    requires Shaped(p, d, allowed, w) && CrashImage(d, r)
    ensures Shaped(p, Disk(r, []), allowed, w)
  {
    hide HeaderBytes, Names, Mixed, EssenceOf, ParseHeader, TornSlot, SlotCandidates;
    assert Grows(d.durable, r) && Disciplined(Disk(r, []));
    NamesGrows(p, d.durable, r, w.a, w.va);
    var hb := HeaderBytes(if w.Settled? then w.a.h else w.b.h);
    SlotCandidatesAre(d, 0, hb);
    if w.Settled? {
      TornSingle(r[0..SLOT], hb, SlotCandidates(d, 0));
    } else {
      NamesGrows(p, d.durable, r, w.b, w.vb);
      SlotCandidatesAre(d, SLOT, hb);
      TornSingle(r[SLOT..2 * SLOT], hb, SlotCandidates(d, SLOT));
      ParseSlot(d.durable);
      ParseSlot(r);
      CrashedPrimary(r[0..SLOT], d.durable[0..SLOT], SlotCandidates(d, 0), w.a.h, w.b.h);
    }
  }

  lemma SlotEnds(b: Bytes)
    requires 2 * SLOT <= |b|
    ensures b[..SLOT] == b[0..SLOT]
  {
  }

  /** A write behind the durable end keeps the shape. */
  lemma AppendKeeps(p: Primitives, d: Disk, allowed: set<Volume>, w: Shape, off: nat, data: Bytes)
    requires Shaped(p, d, allowed, w) && |d.durable| <= off
    ensures Shaped(p, Apply(d, WriteAt(off, data)), allowed, w)
    ensures Live(d, w) ==> Live(Apply(d, WriteAt(off, data)), w)
    ensures Torn(d, w) ==> Torn(Apply(d, WriteAt(off, data)), w)
  {
    hide HeaderBytes, Names, Mixed, EssenceOf, ParseHeader;
    var ops := d.pending + [WriteAt(off, data)];
    if w.Moving? && Live(d, w) {
      var i :| 0 <= i < |d.pending| && d.pending[i].WriteAt? && d.pending[i].off == 0;
      assert ops[i] == d.pending[i];
    }
  }

  /** The header a synced disk has settled on. */
  function Resolved(w: Shape): (r: Shape)
    ensures r.Settled?
  {
    match w
    case Settled(_, _) => w
    case Moving(_, _, b, vb) => Settled(b, vb)
  }

  /** A sync while the container is open completes a pending move. */
  lemma SyncSettles(p: Primitives, d: Disk, allowed: set<Volume>, w: Shape)
    requires Shaped(p, d, allowed, w) && Live(d, w)
    ensures Shaped(p, Apply(d, Sync), allowed, Resolved(w))
  {
    hide HeaderBytes, Names, Mixed, EssenceOf, ParseHeader, View;
    ViewSlots(p, d, allowed, w);
    var r := Resolved(w);
    NamesGrows(p, d.durable, View(d), r.a, r.va);
  }

  /** A sync of a disk whose primary slot is torn leaves it so. */
  lemma SyncTorn(p: Primitives, d: Disk, allowed: set<Volume>, w: Shape)
    requires Shaped(p, d, allowed, w) && Torn(d, w)
    ensures Shaped(p, Apply(d, Sync), allowed, w) && Torn(Apply(d, Sync), w)
  {
    hide HeaderBytes, Names, Mixed, EssenceOf, ParseHeader, View;
    ViewSlots(p, d, allowed, w);
    NamesGrows(p, d.durable, View(d), w.a, w.va);
    NamesGrows(p, d.durable, View(d), w.b, w.vb);
    ParseSlot(d.durable);
    ParseSlot(View(d));
  }

  /** Writing the fixed slot cannot disturb a settled disk. */
  lemma FixedWriteKeeps(p: Primitives, d: Disk, allowed: set<Volume>, w: Shape, hb: Bytes)
    requires Shaped(p, d, allowed, w) && w.Settled? && |hb| == SLOT
    ensures Shaped(p, Apply(d, WriteAt(SLOT, hb)), allowed, w)
  {
    hide HeaderBytes, Names;
  }

  /** With the new header synced in the fixed slot, writing the primary slot starts a move. */
  lemma PrimaryWriteMoves(p: Primitives, d: Disk, allowed: set<Volume>, w: Shape, b: Anchor, vb: Volume)
    requires Shaped(p, d, allowed, w) && w.Settled? && d.pending == []
    requires Names(p, d.durable, b, vb) && vb in allowed && d.durable[SLOT..2 * SLOT] == HeaderBytes(b.h)
    ensures var next := Apply(d, WriteAt(0, HeaderBytes(b.h)));
            && Shaped(p, next, allowed, Moving(w.a, w.va, b, vb)) && Live(next, Moving(w.a, w.va, b, vb))
  {
    hide HeaderBytes, Names, ParseHeader, Mixed;
    ParseSlot(d.durable);
    HeaderRoundTrip(w.a.h, HeaderBytes(w.a.h));
    MixedSelf(w.a.h, {w.a.h, b.h});
    assert Apply(d, WriteAt(0, HeaderBytes(b.h))).pending[0].off == 0;
  }

  /** Rewriting either slot with the header a moving disk is moving to keeps it moving. */
  lemma RepairKeeps(p: Primitives, d: Disk, allowed: set<Volume>, w: Shape, s: nat)
    requires Shaped(p, d, allowed, w) && w.Moving? && s in {0, SLOT}
    ensures var next := Apply(d, WriteAt(s, HeaderBytes(w.b.h)));
            && Shaped(p, next, allowed, w) && (s == 0 || Live(d, w) ==> Live(next, w))
            && (s != 0 && Torn(d, w) ==> Torn(next, w))
  {
    hide HeaderBytes, Names, ParseHeader, Mixed, EssenceOf;
    var op := WriteAt(s, HeaderBytes(w.b.h));
    var ops := d.pending + [op];
    assert ops[|d.pending|] == op;
    if Live(d, w) {
      var i :| 0 <= i < |d.pending| && d.pending[i].WriteAt? && d.pending[i].off == 0;
      assert ops[i] == d.pending[i];
    }
  }

  // ---------- opening a disk of either shape ----------

  /** A header with the essence of a committed one is as good as the committed one. */
  lemma AliasNames(p: Primitives, file: Bytes, a: Anchor, v: Volume, h: Header)
    requires Names(p, file, a, v) && Stamped(h) && EssenceOf(h) == EssenceOf(a.h)
    ensures Names(p, file, a.(h := h), v) && a.(h := h).Loaded(p) == a.Loaded(p)
  {
    hide At, Stamped, AllCanonical, UniquePaths, Intact, RefsIntact, IndexBytes, BodyBytes, DirBytes, Describes,
         BuildRanges, Get64, Get32;
    AnchorParts(p, file, a);
  }

  /** What the primary slot of a moving disk that is not live opens as. */
  lemma MixedPrimary(p: Primitives, file: Bytes, a: Anchor, b: Anchor)
    requires Anchored(p, file, a) && Anchored(p, file, b) && 2 * SLOT <= |file|
    requires Mixed(ParseHeader(file, 0), {a.h, b.h})
    ensures var h := ParseHeader(file, 0);
            && Stamped(h)
            && (EssenceOf(h) == EssenceOf(a.h) ==> Primary(p, file) == Ok(Opened(h, a.Loaded(p), false)))
            && (EssenceOf(h) == EssenceOf(b.h) ==> Primary(p, file) == Ok(Opened(h, b.Loaded(p), false)))
            && (EssenceOf(h) != EssenceOf(a.h) && EssenceOf(h) != EssenceOf(b.h) ==>
                  Primary(p, file).Err? && Recoverable(Primary(p, file).error))
  {
    hide Mixed, ParseHeader, HeaderBytes, EssenceOf, DirAnchored, IndexAnchored, RefsIntact, Stamped, LoadSnapshot,
      UnmarshalHeader;
    var h := ParseHeader(file, 0);
    assert Headers({a, b}) == {a.h, b.h};
    AnchorParts(p, file, a);
    AnchorParts(p, file, b);
    MixedStamped(h, {a.h, b.h});
    TornHeaderResolves(p, file, h, {a, b});
    ParseSlot(file);
    SlotEnds(file);
    HeaderRoundTrip(h, file[..SLOT]);
    StampedUnmarshals(h);
    if EssenceOf(h) == EssenceOf(a.h) { EssenceDecides(p, file, h, a); }
    if EssenceOf(h) == EssenceOf(b.h) { EssenceDecides(p, file, h, b); }
  }

  /** Open yields header h and the snapshot of cur, which holds version v; afterwards the disk has shape w. */
  ghost predicate Yields(p: Primitives, d: Disk, h: Header, repair: bool, cur: Anchor, v: Volume, w: Shape)
    requires Disciplined(d)
  {
    && OpenImage(p, View(d)) == Ok(Opened(h, cur.Loaded(p), repair))
    && Stamped(h) && EssenceOf(h) == EssenceOf(cur.h) && Names(p, d.durable, cur, v)
    && (if repair then w.Moving? && h == w.b.h else Live(d, w))
  }

  lemma SettledYields(p: Primitives, d: Disk, allowed: set<Volume>, w: Shape)
    requires Shaped(p, d, allowed, w) && w.Settled?
    ensures Yields(p, d, w.a.h, false, w.a, w.va, w)
  {
    hide HeaderBytes, Anchored, Mixed, EssenceOf, ParseHeader, View, OpenImage, Grows, Intact;
    ViewSlots(p, d, allowed, w);
    AnchoredGrows(p, d.durable, View(d), w.a);
    SlotEnds(View(d));
    PrimaryOpens(p, View(d), w.a);
    assert Stamped(w.a.h) by { AnchorParts(p, d.durable, w.a); }
  }

  lemma LiveYields(p: Primitives, d: Disk, allowed: set<Volume>, w: Shape)
    requires Shaped(p, d, allowed, w) && w.Moving? && Live(d, w)
    ensures Yields(p, d, w.b.h, false, w.b, w.vb, w)
  {
    hide HeaderBytes, Anchored, Mixed, EssenceOf, ParseHeader, View, OpenImage, Grows, Intact;
    ViewSlots(p, d, allowed, w);
    AnchoredGrows(p, d.durable, View(d), w.b);
    SlotEnds(View(d));
    PrimaryOpens(p, View(d), w.b);
    assert Stamped(w.b.h) by { AnchorParts(p, d.durable, w.b); }
  }

  /** The torn primary slot of a disk found after a crash either loads as one of the two versions, and then
      counts as settled, or fails and the fixed slot is used. */
  lemma TornYields(p: Primitives, d: Disk, allowed: set<Volume>, w: Shape) returns (h: Header, repair: bool,
      cur: Anchor, v: Volume, w2: Shape)
    requires Shaped(p, d, allowed, w) && w.Moving? && !Live(d, w)
    ensures v in allowed && Yields(p, d, h, repair, cur, v, w2) && Shaped(p, d, {v}, w2)
    ensures (repair <==> Torn(d, w)) && (repair ==> w2 == w)
  {
    hide HeaderBytes, Anchored, Mixed, EssenceOf, View, OpenImage, Grows, Intact, FromFixedSlot, ParseHeader, Primary;
    var file := View(d);
    ViewSlots(p, d, allowed, w);
    AnchoredGrows(p, d.durable, file, w.a);
    AnchoredGrows(p, d.durable, file, w.b);
    ParseSlot(file);
    ParseSlot(d.durable);
    h := ParseHeader(file, 0);
    MixedPrimary(p, file, w.a, w.b);
    HeaderRoundTrip(h, d.durable[0..SLOT]);
    if EssenceOf(h) == EssenceOf(w.a.h) {
      AliasNames(p, d.durable, w.a, w.va, h);
      repair, cur, v, w2 := false, w.a.(h := h), w.va, Settled(w.a.(h := h), w.va);
      PrimaryDecides(p, file);
    } else if EssenceOf(h) == EssenceOf(w.b.h) {
      AliasNames(p, d.durable, w.b, w.vb, h);
      repair, cur, v, w2 := false, w.b.(h := h), w.vb, Settled(w.b.(h := h), w.vb);
      PrimaryDecides(p, file);
    } else {
      FixedSlotOpens(p, file, w.b);
      h, repair, cur, v, w2 := w.b.h, true, w.b, w.vb, w;
      assert Stamped(h) by { AnchorParts(p, d.durable, w.b); }
    }
  }

  /** The primary slot, as the running process sees it, loads unless it is torn. */
  lemma PrimaryLoadsIff(p: Primitives, d: Disk, allowed: set<Volume>, w: Shape)
    requires Shaped(p, d, allowed, w) && Ready(d, w)
    ensures Disciplined(d) && SLOT <= |View(d)| && (Primary(p, View(d)).Ok? <==> Live(d, w))
  {
    hide HeaderBytes, Anchored, Mixed, EssenceOf, View, Grows, Intact, ParseHeader, Primary;
    var file := View(d);
    ViewSlots(p, d, allowed, w);
    AnchoredGrows(p, d.durable, file, w.a);
    SlotEnds(file);
    if w.Settled? {
      LivePrimary(p, file, w.a);
    } else {
      AnchoredGrows(p, d.durable, file, w.b);
      if Live(d, w) {
        LivePrimary(p, file, w.b);
      } else {
        ParseSlot(file);
        ParseSlot(d.durable);
        MixedPrimary(p, file, w.a, w.b);
      }
    }
  }

  lemma LivePrimary(p: Primitives, file: Bytes, a: Anchor)
    requires Anchored(p, file, a) && SLOT <= |file| && file[..SLOT] == HeaderBytes(a.h)
    ensures Primary(p, file).Ok?
  {
    hide Grounded, HeaderBytes, Primary;
    GroundedOpens(p, file, a);
  }

  lemma PrimaryDecides(p: Primitives, file: Bytes)
    requires SLOT <= |file| && Primary(p, file).Ok?
    ensures OpenImage(p, file) == Primary(p, file)
  {
    hide Primary;
  }

  /** Whatever shape the disk has, Open succeeds and yields an allowed version.  If nothing was left unsynced,
      that version becomes the only one the disk can ever yield. */
  lemma ShapeOpens(p: Primitives, d: Disk, allowed: set<Volume>, w: Shape) returns (h: Header, repair: bool,
      cur: Anchor, v: Volume, w2: Shape)
    requires Shaped(p, d, allowed, w)
    ensures Disciplined(d) && v in allowed && Yields(p, d, h, repair, cur, v, w2)
    ensures Shaped(p, d, allowed, w2) && (d.pending == [] ==> Shaped(p, d, {v}, w2))
    ensures (Ready(d, w) ==> w2 == w) && (repair ==> Torn(d, w2))
  {
    hide Yields, Names, Mixed, EssenceOf, ParseHeader, HeaderBytes;
    if w.Settled? {
      SettledYields(p, d, allowed, w);
      h, repair, cur, v, w2 := w.a.h, false, w.a, w.va, w;
    } else if Live(d, w) {
      LiveYields(p, d, allowed, w);
      h, repair, cur, v, w2 := w.b.h, false, w.b, w.vb, w;
    } else {
      h, repair, cur, v, w2 := TornYields(p, d, allowed, w);
      ShapedMore(p, d, {v}, allowed, w2);
    }
  }

  lemma ShapedMore(p: Primitives, d: Disk, few: set<Volume>, many: set<Volume>, w: Shape)
    requires Shaped(p, d, few, w) && few <= many
    ensures Shaped(p, d, many, w)
  {
    hide Names, Mixed, EssenceOf, ParseHeader, HeaderBytes;
  }

  /** A snapshot answers every lookup as the map does. */
  ghost predicate Answers(p: Primitives, snap: Snapshot, m: Paths)
  {
    forall path :: FindEntry(p, snap, path) == Ok(if path in m then Some(m[path]) else None)
  }

  /** The version a file image shows: Open succeeds, its lookups and its map are the version's, and every chunk
      record is intact. */
  ghost predicate Shows(p: Primitives, file: Bytes, v: Volume)
  {
    match OpenImage(p, file)
    case Err(_) => false
    case Ok(o) => Answers(p, o.snap, v.entries) && Materialize(p, file, o.h, o.snap) == Ok(v.entries) && Intact(file, v)
  }

  lemma AnchorAnswers(p: Primitives, file: Bytes, a: Anchor)
    requires Anchored(p, file, a)
    ensures Answers(p, a.Loaded(p), a.Contents())
  {
    hide Anchored, FindEntry;
    forall path
      ensures FindEntry(p, a.Loaded(p), path) == Ok(if path in a.Contents() then Some(a.Contents()[path]) else None)
    {
      SnapshotAnswers(p, file, a, path);
    }
  }

  lemma YieldsShows(p: Primitives, d: Disk, h: Header, repair: bool, cur: Anchor, v: Volume, w: Shape)
    requires Disciplined(d) && Yields(p, d, h, repair, cur, v, w)
    ensures Shows(p, View(d), v)
    ensures Names(p, View(d), cur, v) && Materialize(p, View(d), h, cur.Loaded(p)) == Ok(v.entries)
  {
    hide Anchored, EssenceOf, OpenImage, View, Grows, Intact, Materialize, Stamped, Answers;
    ViewGrows(d);
    NamesGrows(p, d.durable, View(d), cur, v);
    EssenceDecides(p, View(d), h, cur);
    AnchorAnswers(p, View(d), cur);
  }
}

/** The loops of the index codec: validation by sorting, the byte buffer, and the moving offset. */
module IndexCode {
  import opened Binary
  import opened Common
  import opened Rows
  import opened HashRanges
  import opened DirIndex

  // ---------- sorting intervals ----------

  function InsertByFirst(x: HashRange, gs: seq<HashRange>): (r: seq<HashRange>)
    ensures |r| == |gs| + 1 && forall g :: g in r <==> g == x || g in gs
  {
    if |gs| == 0 then [x]
    else if gs[0].first < x.first then [gs[0]] + InsertByFirst(x, gs[1..])
    else [x] + gs
  }

  /** The sort of the used intervals by their first row. */
  function SortByFirst(gs: seq<HashRange>): (r: seq<HashRange>)
    ensures |r| == |gs| && forall g :: g in r <==> g in gs
  {
    if |gs| == 0 then [] else InsertByFirst(gs[0], SortByFirst(gs[1..]))
  }

  ghost predicate FirstSorted(gs: seq<HashRange>)
  {
    forall i, j :: 0 <= i < j < |gs| ==> gs[i].first <= gs[j].first
  }

  lemma {:induction false} InsertSorted(x: HashRange, gs: seq<HashRange>)
    requires FirstSorted(gs)
    ensures FirstSorted(InsertByFirst(x, gs))
  {
    if |gs| != 0 && gs[0].first < x.first {
      InsertSorted(x, gs[1..]);
      var rest := InsertByFirst(x, gs[1..]);
      forall i | 0 <= i < |rest|
        ensures gs[0].first <= rest[i].first
      {
        assert rest[i] in rest;
      }
    }
  }

  lemma {:induction false} SortSorted(gs: seq<HashRange>)
    ensures FirstSorted(SortByFirst(gs))
  {
    if |gs| != 0 {
      SortSorted(gs[1..]);
      InsertSorted(gs[0], SortByFirst(gs[1..]));
    }
  }

  // ---------- disjointness of all pairs, and of neighbours ----------

  ghost predicate ApartFromAll(x: HashRange, gs: seq<HashRange>)
  {
    forall g :: g in gs ==> Apart(x, g)
  }

  lemma DisjointCons(x: HashRange, gs: seq<HashRange>)
    ensures Disjoint([x] + gs) <==> ApartFromAll(x, gs) && Disjoint(gs)
  {
    var all := [x] + gs;
    hide Apart;
    if Disjoint(all) {
      forall g | g in gs
        ensures Apart(x, g)
      {
        var i :| 0 <= i < |gs| && gs[i] == g;
        assert Apart(all[0], all[i + 1]);
      }
      forall a, b | 0 <= a < b < |gs|
        ensures Apart(gs[a], gs[b])
      {
        assert Apart(all[a + 1], all[b + 1]);
      }
    }
  }

  lemma {:induction false} InsertDisjoint(x: HashRange, gs: seq<HashRange>)
    ensures Disjoint(InsertByFirst(x, gs)) <==> ApartFromAll(x, gs) && Disjoint(gs)
  {
    hide Disjoint;
    DisjointCons(x, gs);
    if |gs| == 0 {
      assert [x] + [] == [x];
      assert gs == [];
    } else if gs[0].first < x.first {
      assert gs == [gs[0]] + gs[1..];
      InsertDisjoint(x, gs[1..]);
      DisjointCons(gs[0], gs[1..]);
      DisjointCons(gs[0], InsertByFirst(x, gs[1..]));
      ApartInserted(gs[0], x, gs[1..]);
    }
  }

  lemma ApartInserted(y: HashRange, x: HashRange, tail: seq<HashRange>)
    ensures ApartFromAll(y, InsertByFirst(x, tail)) <==> Apart(x, y) && ApartFromAll(y, tail)
    ensures ApartFromAll(x, [y] + tail) <==> Apart(x, y) && ApartFromAll(x, tail)
  {
    var all := [y] + tail;
    assert forall g :: g in all <==> g == y || g in tail;
    assert x in InsertByFirst(x, tail) && y in all;
    assert ApartFromAll(y, InsertByFirst(x, tail)) ==> Apart(y, x);
  }

  /** Sorting changes nothing about disjointness. */
  lemma {:induction false} SortDisjoint(gs: seq<HashRange>)
    ensures Disjoint(SortByFirst(gs)) <==> Disjoint(gs)
  {
    hide Disjoint, Apart;
    if |gs| == 0 {
      assert gs == [];
    } else {
      assert gs == [gs[0]] + gs[1..];
      SortDisjoint(gs[1..]);
      InsertDisjoint(gs[0], SortByFirst(gs[1..]));
      DisjointCons(gs[0], gs[1..]);
    }
  }

  predicate NeighboursApart(gs: seq<HashRange>)
  {
    forall i :: 1 <= i < |gs| ==> gs[i - 1].first + gs[i - 1].span <= gs[i].first
  }

  ghost predicate NonEmpty(gs: seq<HashRange>)
  {
    forall g :: g in gs ==> g.span > 0
  }

  lemma {:induction false} NeighboursReach(gs: seq<HashRange>, a: nat, b: nat)
    requires NeighboursApart(gs) && a < b < |gs|
    ensures gs[a].first + gs[a].span <= gs[b].first
    decreases b
  {
    if a + 1 < b { NeighboursReach(gs, a, b - 1); }
  }

  /** Checking neighbours after sorting by first row decides disjointness of all pairs. */
  lemma NeighboursDecide(gs: seq<HashRange>)
    requires NonEmpty(gs)
    ensures NeighboursApart(SortByFirst(gs)) <==> Disjoint(gs)
  {
    hide Disjoint, NeighboursApart, FirstSorted, SortByFirst;
    SortSorted(gs);
    SortDisjoint(gs);
    SortedNeighbours(SortByFirst(gs));
  }

  lemma SortedNeighbours(s: seq<HashRange>)
    requires FirstSorted(s) && NonEmpty(s)
    ensures NeighboursApart(s) <==> Disjoint(s)
  {
    hide FirstSorted, NonEmpty, Apart;
    if NeighboursApart(s) {
      hide NeighboursApart;
      forall a, b | 0 <= a < b < |s|
        ensures Apart(s[a], s[b])
      {
        NeighboursReach(s, a, b);
        ApartBehind(s[a], s[b]);
      }
    } else {
      var i :| 1 <= i < |s| && s[i - 1].first + s[i - 1].span > s[i].first;
      NeighboursOverlap(s, i);
    }
  }

  lemma ApartBehind(g: HashRange, h: HashRange)
    requires g.first + g.span <= h.first
    ensures Apart(g, h)
  {
  }

  lemma NeighboursOverlap(s: seq<HashRange>, i: nat)
    requires FirstSorted(s) && NonEmpty(s) && 1 <= i < |s| && s[i - 1].first + s[i - 1].span > s[i].first
    ensures !Apart(s[i - 1], s[i])
  {
    assert s[i] in s;
  }

  // ---------- validateDirIndexV1 ----------

  method RowsOk(rows: seq<Row>) returns (ok: bool)
    ensures ok == RowsValid(rows)
  {
    var prevEntryOff: u32 := 0;
    for i := 0 to |rows|
      invariant forall k :: 0 <= k < i ==> rows[k].entrySize != 0 && rows[k].pathSize != 0 && rows[k].entryOff <= prevEntryOff
      invariant forall k, l :: 0 <= k < l < i ==> rows[k].entryOff <= rows[l].entryOff
      invariant i > 0 ==> prevEntryOff == rows[i - 1].entryOff
    {
      if rows[i].entrySize == 0 || rows[i].pathSize == 0 { return false; }
      if i > 0 && rows[i].entryOff < prevEntryOff { return false; }
      prevEntryOff := rows[i].entryOff;
    }
    ok := true;
  }

  method RangeOk(rows: seq<Row>, g: HashRange) returns (ok: bool)
    ensures ok == SoundRange(rows, g)
  {
    if g.span == 0 || g.first + g.span > |rows| { return false; }
    for j := g.first to g.first + g.span
      invariant forall x :: g.first <= x < j ==> rows[x].pathHash == g.pathHash
    {
      if rows[j].pathHash != g.pathHash { return false; }
    }
    ok := true;
  }

  method CheckNeighbours(sorted: seq<HashRange>) returns (ok: bool)
    ensures ok == NeighboursApart(sorted)
  {
    var i := 1;
    while i < |sorted|
      invariant 1 <= i && forall k :: 1 <= k < i && k < |sorted| ==> sorted[k - 1].first + sorted[k - 1].span <= sorted[k].first
    {
      if sorted[i].first <= sorted[i - 1].first + sorted[i - 1].span - 1 { return false; }
      i := i + 1;
    }
    ok := true;
  }

  /** `validateDirIndexV1`, with its running values, the list of used intervals, its sort and the check of neighbours. */
  method ValidateIndex(idx: Index) returns (ok: bool)
    ensures ok == ValidIndex(idx)
  {
    hide RowsValid, SoundRange, Disjoint, SortByFirst, NeighboursApart;
    ok := RowsOk(idx.rows);
    if !ok { return; }
    var used: seq<HashRange>, prevHash: u64 := [], 0;
    for i := 0 to |idx.ranges|
      invariant used == idx.ranges[..i]
      invariant forall k :: 0 <= k < i ==> SoundRange(idx.rows, idx.ranges[k]) && idx.ranges[k].pathHash <= prevHash
      invariant forall k, l :: 0 <= k < l < i ==> idx.ranges[k].pathHash <= idx.ranges[l].pathHash
      invariant i > 0 ==> prevHash == idx.ranges[i - 1].pathHash
    {
      var g := idx.ranges[i];
      var sound := RangeOk(idx.rows, g);
      if !sound { return false; }
      if i > 0 && g.pathHash < prevHash { return false; }
      prevHash := g.pathHash;
      used := used + [g];
    }
    SoundNonEmpty(idx.rows, idx.ranges);
    NeighboursDecide(idx.ranges);
    var sorted := SortByFirst(used);
    assert used == idx.ranges;
    ok := CheckNeighbours(sorted);
  }

  lemma SoundNonEmpty(rows: seq<Row>, gs: seq<HashRange>)
    requires Sound(rows, gs)
    ensures NonEmpty(gs)
  {
    forall g | g in gs
      ensures g.span > 0
    {
      var i :| 0 <= i < |gs| && gs[i] == g;
      assert SoundRange(rows, gs[i]);
    }
  }

  // ---------- MarshalBinary ----------

  /** The buffer holds `done` from 64 on up to off. */
  ghost predicate Tabled(b: Bytes, done: Bytes, off: nat)
  {
    INDEX_HEADER <= off <= |b| && off == INDEX_HEADER + |done| && b[INDEX_HEADER..off] == done
  }

  lemma TabledMore(b: Bytes, done: Bytes, off: nat, piece: Bytes)
    requires Tabled(b, done, off) && off + |piece| <= |b|
    ensures Tabled(Splice(b, off, piece), done + piece, off + |piece|)
    ensures Splice(b, off, piece)[..INDEX_HEADER] == b[..INDEX_HEADER]
  {
  }

  /** One more table record at the moving offset. */
  method PutRecord(buf: array<byte>, off: nat, piece: Bytes, ghost done: Bytes)
    requires Tabled(buf[..], done, off) && off + |piece| <= buf.Length && INDEX_HEADER <= buf.Length
    modifies buf
    ensures Tabled(buf[..], done + piece, off + |piece|)
    ensures buf[..][..INDEX_HEADER] == old(buf[..][..INDEX_HEADER])
  {
    hide Tabled, Splice;
    TabledMore(buf[..], done, off, piece);
    TabledOffset(buf[..], done, off);
    CopyInto(buf, off, piece);
  }

  lemma TabledOffset(b: Bytes, done: Bytes, off: nat)
    requires Tabled(b, done, off)
    ensures INDEX_HEADER <= off <= |b|
  {
  }

  /** The row tables, written record by record at a moving offset. */
  method PutTables(buf: array<byte>, idx: Index)
    requires buf.Length == INDEX_HEADER + ROW_SIZE * |idx.rows| + RANGE_SIZE * |idx.ranges|
    modifies buf
    ensures buf[..INDEX_HEADER] == old(buf[..INDEX_HEADER])
    ensures buf[INDEX_HEADER..] == RowsBytes(idx.rows) + RangesBytes(idx.ranges)
  {
    hide RowBytes, RangeBytes, Tabled;
    var off := INDEX_HEADER;
    ghost var head, done: Bytes := buf[..INDEX_HEADER], [];
    TabledStart(buf[..]);
    for i := 0 to |idx.rows|
      invariant off == INDEX_HEADER + ROW_SIZE * i && done == RowsBytes(idx.rows[..i])
      invariant buf[..][..INDEX_HEADER] == head && Tabled(buf[..], done, off)
    {
      assert idx.rows[..i + 1][..i] == idx.rows[..i];
      var piece := RowBytes(idx.rows[i]);
      PutRecord(buf, off, piece, done);
      off, done := off + ROW_SIZE, done + piece;
    }
    assert idx.rows[..|idx.rows|] == idx.rows;
    ghost var rows := done;
    assert rows + RangesBytes(idx.ranges[..0]) == rows;
    for i := 0 to |idx.ranges|
      invariant off == INDEX_HEADER + ROW_SIZE * |idx.rows| + RANGE_SIZE * i && done == rows + RangesBytes(idx.ranges[..i])
      invariant buf[..][..INDEX_HEADER] == head && Tabled(buf[..], done, off)
    {
      assert idx.ranges[..i + 1][..i] == idx.ranges[..i];
      var piece := RangeBytes(idx.ranges[i]);
      PutRecord(buf, off, piece, done);
      assert done + piece == rows + (RangesBytes(idx.ranges[..i]) + piece);
      off, done := off + RANGE_SIZE, done + piece;
    }
    assert idx.ranges[..|idx.ranges|] == idx.ranges;
    TabledEnd(buf[..], done, off);
  }

  lemma TabledStart(b: Bytes)
    requires INDEX_HEADER <= |b|
    ensures Tabled(b, [], INDEX_HEADER)
  {
  }

  lemma TabledEnd(b: Bytes, done: Bytes, off: nat)
    requires Tabled(b, done, off) && off == |b|
    ensures b[INDEX_HEADER..] == done
  {
  }

  lemma HeadedZeros(b: Bytes, done: Bytes, n: nat)
    requires Headed(b, done) && |done| + n <= |b|
    ensures Headed(b, done + Zeros(n))
  {
  }

  /** The fixed fields up to the checksum, at their offsets; bytes 20 to 24 are left zero. */
  method PutHead(buf: array<byte>, idx: Index)
    requires buf.Length >= INDEX_HEADER && forall i :: 0 <= i < buf.Length ==> buf[i] == 0
    modifies buf
    ensures buf[..60] == Prologue(idx) + Identity(idx)
  {
    hide LE, Headed, Prologue, Identity;
    assert Headed(buf[..], []) by { HeadedStart(buf[..]); }
    ghost var d := PutField(buf, 0, MAGIC_INDEX, []);
    d := PutField(buf, 4, LE(INDEX_VERSION, 2), d);
    d := PutField(buf, 6, LE(INDEX_HEADER, 2), d);
    d := PutField(buf, 8, LE(idx.flags, 4), d);
    d := PutField(buf, 12, LE(ROW_SIZE, 4), d);
    d := PutField(buf, 16, LE(RANGE_SIZE, 4), d);
    HeadedZeros(buf[..], d, 4);
    PrologueIs(idx, d + Zeros(4));
    PutIdentity(buf, idx);
  }

  lemma PrologueIs(idx: Index, d: Bytes)
    requires d == [] + MAGIC_INDEX + LE(INDEX_VERSION, 2) + LE(INDEX_HEADER, 2) + LE(idx.flags, 4) + LE(ROW_SIZE,
      4) + LE(RANGE_SIZE, 4) + Zeros(4)
    ensures d == Prologue(idx)
  {
    hide LE;
  }

  method PutIdentity(buf: array<byte>, idx: Index)
    requires buf.Length >= INDEX_HEADER && Headed(buf[..], Prologue(idx))
    modifies buf
    ensures buf[..60] == Prologue(idx) + Identity(idx)
  {
    hide LE, Headed, Prologue, Identity;
    ghost var d := PutField(buf, 24, LE(idx.generation, 8), Prologue(idx));
    d := PutField(buf, 32, LE(idx.dirOffset, 8), d);
    d := PutField(buf, 40, LE(idx.dirSize, 8), d);
    d := PutField(buf, 48, LE(idx.dirCRC, 4), d);
    d := PutField(buf, 52, LE(|idx.rows|, 4), d);
    d := PutField(buf, 56, LE(|idx.ranges|, 4), d);
    IdentityIs(idx, d);
    HeadedPrefix(buf[..], d);
  }

  lemma IdentityIs(idx: Index, d: Bytes)
    requires d == Prologue(idx) + LE(idx.generation, 8) + LE(idx.dirOffset, 8) + LE(idx.dirSize, 8) + LE(idx.dirCRC,
      4) + LE(|idx.rows|, 4) + LE(|idx.ranges|, 4)
    ensures d == Prologue(idx) + Identity(idx) && |d| == 60
  {
    hide LE, Prologue;
  }

  lemma HeadedPrefix(b: Bytes, d: Bytes)
    requires Headed(b, d)
    ensures |d| <= |b| && b[..|d|] == d
  {
  }

  /** `MarshalBinary`: the head, the tables behind it, and last the checksum of the first 60 bytes. */
  method MarshalIndex(p: Primitives, idx: Index) returns (r: Result<Bytes>)
    ensures r == Marshal(p, idx)
  {
    hide LE, Prologue, Identity, RowsBytes, RangesBytes;
    if |idx.rows| >= U32 || |idx.ranges| >= U32 { return Err(InvalidFormat); }
    var buf := new byte[INDEX_HEADER + ROW_SIZE * |idx.rows| + RANGE_SIZE * |idx.ranges|](i => 0);
    PutHead(buf, idx);
    ghost var head := Prologue(idx) + Identity(idx);
    PutTables(buf, idx);
    assert buf[..60] == buf[..INDEX_HEADER][..60] == head;
    var crc := LE(p.crc(buf[..60]), 4);
    CopyInto(buf, 60, crc);
    assert buf[..] == head + crc + (RowsBytes(idx.rows) + RangesBytes(idx.ranges));
    r := Ok(buf[..]);
  }

  // ---------- UnmarshalDirIndexV1 ----------

  method UnmarshalIndex(p: Primitives, b: Bytes) returns (r: Result<Index>)
    ensures r == Unmarshal(p, b)
  {
    hide ValidIndex, ParseRow, ParseRange, ParseRows, ParseRanges, Get16, Get32, Get64;
    if |b| < INDEX_HEADER || !HeadFixed(b) { return Err(InvalidFormat); }
    if p.crc(b[..60]) != Get32(b, 60) { return Err(CRCMismatch); }
    var n, m := Get32(b, 52), Get32(b, 56);
    if INDEX_HEADER + ROW_SIZE * n + RANGE_SIZE * m != |b| { return Err(InvalidFormat); }
    var rows := ReadTable(b, INDEX_HEADER, n);
    var ranges := ReadRangeTable(b, INDEX_HEADER + ROW_SIZE * n, m);
    var idx := Index(Get32(b, 8), Get64(b, 24), Get64(b, 32), Get64(b, 40), Get32(b, 48), rows, ranges);
    var ok := ValidateIndex(idx);
    r := if ok then Ok(idx) else Err(InvalidFormat);
  }

  method ReadTable(b: Bytes, start: nat, n: nat) returns (rows: seq<Row>)
    requires start + ROW_SIZE * n <= |b|
    ensures rows == ParseRows(b, start, n)
  {
    hide ParseRow;
    rows := [];
    var off := start;
    for i := 0 to n
      invariant off == start + ROW_SIZE * i && rows == ParseRows(b, start, i)
    {
      rows, off := rows + [ParseRow(b, off)], off + ROW_SIZE;
    }
  }

  method ReadRangeTable(b: Bytes, start: nat, n: nat) returns (gs: seq<HashRange>)
    requires start + RANGE_SIZE * n <= |b|
    ensures gs == ParseRanges(b, start, n)
  {
    hide ParseRange;
    gs := [];
    var off := start;
    for i := 0 to n
      invariant off == start + RANGE_SIZE * i && gs == ParseRanges(b, start, i)
    {
      gs, off := gs + [ParseRange(b, off)], off + RANGE_SIZE;
    }
  }
}

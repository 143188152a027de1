/** The 128-byte header: fields, bytes, extension fields kept in its reserved bytes, and validation. */
module Header {
  import opened Binary
  import opened Common

  type Magic = b: Bytes | |b| == 4 witness Zeros(4)
  type Uuid = b: Bytes | |b| == 16 witness Zeros(16)
  type Reserved = b: Bytes | |b| == 56 witness Zeros(56)
  type u16 = x: int | 0 <= x < 0x1_0000

  datatype Header = Header(magic: Magic, version: u16, headerSize: u16, flags: u32, uuid: Uuid, created: u64,
                           dirOffset: u64, dirSize: u64, dirCRC: u32, journalOffset: u64, journalSize: u64,
                           reserved: Reserved)

  const MAGIC_HEADER: Magic := [70, 66, 88, 67]  // "FBXC"
  const SLOT := 128
  const RECORD_SIZE := 4 + 8 + SLOT + 4 + 4

  // ---------- bytes ----------

  function HeaderBytes(h: Header): (b: Bytes)
    ensures |b| == SLOT
  {
    h.magic + (LE(h.version, 2) + (LE(h.headerSize, 2) + (LE(h.flags, 4) + (h.uuid + (LE(h.created, 8)
    + (LE(h.dirOffset, 8) + (LE(h.dirSize, 8) + (LE(h.dirCRC, 4) + (LE(h.journalOffset, 8)
    + (LE(h.journalSize, 8) + h.reserved))))))))))
  }

  function ParseHeader(b: Bytes, off: nat): Header
    requires off + SLOT <= |b|
  {
    Header(b[off..off + 4], Get16(b, off + 4), Get16(b, off + 6), Get32(b, off + 8), b[off + 12..off + 28],
           Get64(b, off + 28), Get64(b, off + 36), Get64(b, off + 44), Get32(b, off + 52), Get64(b, off + 56),
           Get64(b, off + 64), b[off + 72..off + 128])
  }

  /** `UnmarshalHeaderV1`. */
  function UnmarshalHeader(b: Bytes): Result<Header>
  {
    if |b| != SLOT then Err(InvalidFormat)
    else
      var h := ParseHeader(b, 0);
      if h.magic == MAGIC_HEADER && h.version == 1 && h.headerSize == SLOT then Ok(h) else Err(InvalidFormat)
  }

  lemma HeaderAt(b: Bytes, off: nat, h: Header)
    requires off + SLOT <= |b|
    ensures At(b, off, HeaderBytes(h)) <==> ParseHeader(b, off) == h
  {
    hide At, LE, Get16, Get32, Get64;
    var f11 := LE(h.journalSize, 8) + h.reserved;
    var f10 := LE(h.journalOffset, 8) + f11;
    var f9 := LE(h.dirCRC, 4) + f10;
    var f8 := LE(h.dirSize, 8) + f9;
    var f7 := LE(h.dirOffset, 8) + f8;
    var f6 := LE(h.created, 8) + f7;
    var f5 := h.uuid + f6;
    var f4 := LE(h.flags, 4) + f5;
    var f3 := LE(h.headerSize, 2) + f4;
    var f2 := LE(h.version, 2) + f3;
    AtSplit(b, off, h.magic, f2);
    AtSplit(b, off + 4, LE(h.version, 2), f3);
    AtSplit(b, off + 6, LE(h.headerSize, 2), f4);
    AtSplit(b, off + 8, LE(h.flags, 4), f5);
    AtSplit(b, off + 12, h.uuid, f6);
    AtSplit(b, off + 28, LE(h.created, 8), f7);
    AtSplit(b, off + 36, LE(h.dirOffset, 8), f8);
    AtSplit(b, off + 44, LE(h.dirSize, 8), f9);
    AtSplit(b, off + 52, LE(h.dirCRC, 4), f10);
    AtSplit(b, off + 56, LE(h.journalOffset, 8), f11);
    AtSplit(b, off + 64, LE(h.journalSize, 8), h.reserved);
    SliceAt(b, off, h.magic);
    SliceAt(b, off + 12, h.uuid);
    SliceAt(b, off + 72, h.reserved);
    Get16At(b, off + 4, h.version);
    Get16At(b, off + 6, h.headerSize);
    Get32At(b, off + 8, h.flags);
    Get64At(b, off + 28, h.created);
    Get64At(b, off + 36, h.dirOffset);
    Get64At(b, off + 44, h.dirSize);
    Get32At(b, off + 52, h.dirCRC);
    Get64At(b, off + 56, h.journalOffset);
    Get64At(b, off + 64, h.journalSize);
  }

  lemma SliceAt(b: Bytes, off: nat, piece: Bytes)
    requires off + |piece| <= |b|
    ensures At(b, off, piece) <==> b[off..off + |piece|] == piece
  {
  }

  /** A header survives being written and read; and a 128-byte buffer is the bytes of what it parses to. */
  lemma HeaderRoundTrip(h: Header, b: Bytes)
    requires |b| == SLOT
    ensures ParseHeader(HeaderBytes(h), 0) == h && HeaderBytes(ParseHeader(b, 0)) == b
    ensures UnmarshalHeader(HeaderBytes(h)) ==
            if h.magic == MAGIC_HEADER && h.version == 1 && h.headerSize == SLOT then Ok(h) else Err(InvalidFormat)
  {
    hide HeaderBytes;
    var hb := HeaderBytes(h);
    assert hb[0..0 + |hb|] == hb;
    HeaderAt(hb, 0, h);
    HeaderAt(b, 0, ParseHeader(b, 0));
    assert b[0..0 + |b|] == b;
  }

  // ---------- extension fields in the reserved bytes ----------

  function Marker(h: Header): byte { h.reserved[0] }
  function Minor(h: Header): byte { h.reserved[1] }
  function DeadBytes(h: Header): u64 { Get64(h.reserved, 8) }
  function ChurnOps(h: Header): u64 { Get64(h.reserved, 16) }
  function Generation(h: Header): u64 { Get64(h.reserved, 24) }
  function IndexOffset(h: Header): u64 { Get64(h.reserved, 32) }
  function IndexSize(h: Header): u64 { Get64(h.reserved, 40) }
  function IndexCRC(h: Header): u32 { Get32(h.reserved, 48) }
  function Features(h: Header): u32 { Get32(h.reserved, 52) }

  function WithReserved(h: Header, off: nat, piece: Bytes): Header
    requires off + |piece| <= 56
  {
    h.(reserved := Splice(h.reserved, off, piece))
  }

  function WithStats(h: Header, dead: u64, churn: u64): Header
  {
    WithReserved(WithReserved(h, 8, LE(dead, 8)), 16, LE(churn, 8))
  }

  function WithLayout(h: Header): Header
  {
    WithReserved(WithReserved(h, 0, [2]), 1, [0])
  }

  function WithGeneration(h: Header, gen: u64): Header
  {
    WithReserved(h, 24, LE(gen, 8))
  }

  function WithIndex(h: Header, off: u64, size: u64, crc: u32): Header
  {
    WithReserved(WithReserved(WithReserved(h, 32, LE(off, 8)), 40, LE(size, 8)), 48, LE(crc, 4))
  }

  function WithFeatures(h: Header, bits: u32): Header
  {
    WithReserved(h, 52, LE(bits, 4))
  }

  /** Reading a 64-bit slot after writing any piece: the new value if it was written there, else unchanged. */
  lemma SpliceGet64(r: Bytes, off: nat, piece: Bytes, at: nat)
    requires off + |piece| <= |r| && at + 8 <= |r|
    requires at + 8 <= off || off + |piece| <= at
    ensures Get64(Splice(r, off, piece), at) == Get64(r, at)
  {
    assert Splice(r, off, piece)[at..at + 8] == r[at..at + 8];
  }

  lemma SpliceGet32(r: Bytes, off: nat, piece: Bytes, at: nat)
    requires off + |piece| <= |r| && at + 4 <= |r|
    requires at + 4 <= off || off + |piece| <= at
    ensures Get32(Splice(r, off, piece), at) == Get32(r, at)
  {
    assert Splice(r, off, piece)[at..at + 4] == r[at..at + 4];
  }

  /** Everything the reserved bytes hold. */
  datatype Ext = Ext(marker: byte, minor: byte, dead: u64, churn: u64, gen: u64,
                     idxOff: u64, idxSize: u64, idxCRC: u32, features: u32)

  function ExtOf(r: Reserved): Ext
  {
    Ext(r[0], r[1], Get64(r, 8), Get64(r, 16), Get64(r, 24), Get64(r, 32), Get64(r, 40), Get32(r, 48), Get32(r, 52))
  }

  lemma SpliceExt64(r: Reserved, k: nat, x: u64)
    requires k in {8, 16, 24, 32, 40}
    ensures ExtOf(Splice(r, k, LE(x, 8))) ==
            if k == 8 then ExtOf(r).(dead := x) else if k == 16 then ExtOf(r).(churn := x)
            else if k == 24 then ExtOf(r).(gen := x) else if k == 32 then ExtOf(r).(idxOff := x)
            else ExtOf(r).(idxSize := x)
  {
    hide Splice, Get64, Get32, LE;
    var s := Splice(r, k, LE(x, 8));
    Get64At(s, k, x);
    if k != 8 { SpliceGet64(r, k, LE(x, 8), 8); }
    if k != 16 { SpliceGet64(r, k, LE(x, 8), 16); }
    if k != 24 { SpliceGet64(r, k, LE(x, 8), 24); }
    if k != 32 { SpliceGet64(r, k, LE(x, 8), 32); }
    if k != 40 { SpliceGet64(r, k, LE(x, 8), 40); }
    SpliceGet32(r, k, LE(x, 8), 48);
    SpliceGet32(r, k, LE(x, 8), 52);
  }

  lemma SpliceExt32(r: Reserved, k: nat, x: u32)
    requires k in {48, 52}
    ensures ExtOf(Splice(r, k, LE(x, 4))) == if k == 48 then ExtOf(r).(idxCRC := x) else ExtOf(r).(features := x)
  {
    hide Splice, Get64, Get32, LE;
    var s := Splice(r, k, LE(x, 4));
    Get32At(s, k, x);
    if k != 48 { SpliceGet32(r, k, LE(x, 4), 48); }
    if k != 52 { SpliceGet32(r, k, LE(x, 4), 52); }
    SpliceGet64(r, k, LE(x, 4), 8);
    SpliceGet64(r, k, LE(x, 4), 16);
    SpliceGet64(r, k, LE(x, 4), 24);
    SpliceGet64(r, k, LE(x, 4), 32);
    SpliceGet64(r, k, LE(x, 4), 40);
  }

  lemma SpliceExtByte(r: Reserved, k: nat, x: byte)
    requires k in {0, 1}
    ensures ExtOf(Splice(r, k, [x])) == if k == 0 then ExtOf(r).(marker := x) else ExtOf(r).(minor := x)
  {
    hide Splice, Get64, Get32;
    var s := Splice(r, k, [x]);
    assert s[k..k + 1] == [x];
    SpliceGet64(r, k, [x], 8);
    SpliceGet64(r, k, [x], 16);
    SpliceGet64(r, k, [x], 24);
    SpliceGet64(r, k, [x], 32);
    SpliceGet64(r, k, [x], 40);
    SpliceGet32(r, k, [x], 48);
    SpliceGet32(r, k, [x], 52);
  }

  // ---------- validation ----------

  predicate Bit(x: nat, k: nat)
  {
    if k == 0 then x % 2 == 1
    else if k == 1 then x / 2 % 2 == 1
    else if k == 2 then x / 4 % 2 == 1
    else k == 3 && x / 8 % 2 == 1
  }

  /** `validateHeaderRequiredFeatures`. */
  function CheckFeatures(h: Header): Result<()>
  {
    if !Bit(h.flags, 3) then Ok(())
    else if Features(h) >= 16 then Err(UnsupportedFeature)
    else if Bit(Features(h), 0) && !Bit(h.flags, 0) then Err(InvalidFormat)
    else if Bit(Features(h), 1) && !Bit(h.flags, 1) then Err(InvalidFormat)
    else if Bit(Features(h), 2) && !Bit(h.flags, 2) then Err(InvalidFormat)
    else Ok(())
  }

  /** `validateCanonicalHeaderLayout`: the four low flag bits and the four low feature bits must be set. */
  function CheckLayout(h: Header): Result<()>
  {
    if h.flags % 16 != 15 || Marker(h) != 2 || Minor(h) != 0 then Err(InvalidFormat)
    else if h.journalOffset == 0 || h.journalSize != RECORD_SIZE then Err(InvalidFormat)
    else if IndexOffset(h) == 0 || IndexSize(h) == 0 || IndexCRC(h) == 0 then Err(InvalidFormat)
    else if Features(h) % 16 != 15 then Err(InvalidFormat)
    else CheckFeatures(h)
  }

  /** A header is accepted by the layout check exactly when it is in the canonical layout. */
  lemma CheckLayoutIff(h: Header)
    ensures CheckLayout(h).Ok? <==>
            && h.flags % 16 == 15 && Marker(h) == 2 && Minor(h) == 0 && h.journalOffset != 0
            && h.journalSize == RECORD_SIZE && IndexOffset(h) != 0 && IndexSize(h) != 0 && IndexCRC(h) != 0
            && Features(h) == 15
  {
    hide Get32, Get64, Bit;
    if h.flags % 16 == 15 { LowBits(h.flags); }
    if Features(h) % 16 == 15 { LowBits(Features(h)); }
  }

  lemma LowBits(x: nat)
    requires x % 16 == 15
    ensures Bit(x, 0) && Bit(x, 1) && Bit(x, 2) && Bit(x, 3)
  {
    var q := x / 16;
    OddHalf(x, 8 * q + 7);
    OddHalf(8 * q + 7, 4 * q + 3);
    OddHalf(4 * q + 3, 2 * q + 1);
    HalfTwice(x, 8 * q + 7, 4 * q + 3);
    HalfThrice(x, q);
  }

  lemma OddHalf(x: nat, h: nat)
    requires x == 2 * h + 1
    ensures x / 2 == h && x % 2 == 1
  {
  }

  lemma HalfTwice(x: nat, h: nat, k: nat)
    requires x == 2 * h + 1 && h == 2 * k + 1
    ensures x / 4 == k
  {
  }

  lemma HalfThrice(x: nat, q: nat)
    requires x == 16 * q + 15
    ensures x / 8 == 2 * q + 1
  {
  }

  // ---------- torn headers ----------

  /** h takes every field from some header in s; a field is never split. */
  ghost predicate Mixed(h: Header, s: set<Header>)
  {
    && (exists c :: c in s && h.magic == c.magic) && (exists c :: c in s && h.version == c.version)
    && (exists c :: c in s && h.headerSize == c.headerSize) && (exists c :: c in s && h.flags == c.flags)
    && (exists c :: c in s && h.dirOffset == c.dirOffset) && (exists c :: c in s && h.dirSize == c.dirSize)
    && (exists c :: c in s && h.dirCRC == c.dirCRC) && (exists c :: c in s && h.journalOffset == c.journalOffset)
    && (exists c :: c in s && h.journalSize == c.journalSize) && MixedExt(ExtOf(h.reserved), s)
  }

  ghost predicate MixedExt(x: Ext, s: set<Header>)
  {
    && (exists c :: c in s && x.marker == Marker(c)) && (exists c :: c in s && x.minor == Minor(c))
    && (exists c :: c in s && x.gen == Generation(c)) && (exists c :: c in s && x.idxOff == IndexOffset(c))
    && (exists c :: c in s && x.idxSize == IndexSize(c)) && (exists c :: c in s && x.idxCRC == IndexCRC(c))
    && (exists c :: c in s && x.features == Features(c))
  }

  /** The part of a header that decides which snapshot it names. */
  datatype Essence = Essence(dirOffset: u64, dirSize: u64, dirCRC: u32, gen: u64, idxOff: u64, idxSize: u64, idxCRC: u32)

  function EssenceOf(h: Header): Essence
  {
    Essence(h.dirOffset, h.dirSize, h.dirCRC, Generation(h), IndexOffset(h), IndexSize(h), IndexCRC(h))
  }

  ghost predicate Stamped(h: Header)
  {
    h.magic == MAGIC_HEADER && h.version == 1 && h.headerSize == SLOT && CheckLayout(h).Ok?
  }

  /** A mixture of well-formed headers passes every check that looks at one field only. */
  lemma MixedStamped(h: Header, s: set<Header>)
    requires Mixed(h, s) && forall c :: c in s ==> Stamped(c)
    ensures Stamped(h)
  {
    hide CheckLayout, Get64, Get32;
    forall c | c in s
      ensures c.flags % 16 == 15 && Marker(c) == 2 && Minor(c) == 0 && c.journalOffset != 0
      ensures c.journalSize == RECORD_SIZE && IndexOffset(c) != 0 && IndexSize(c) != 0 && IndexCRC(c) != 0
      ensures Features(c) == 15
    {
      CheckLayoutIff(c);
    }
    CheckLayoutIff(h);
  }
}

/** Bytes, fixed-width little-endian fields, checked unsigned arithmetic, and the
    relation "this piece lies at this offset" on which every format proof rests. */
module Binary {

  type byte = b: int | 0 <= b < 256
  type Bytes = seq<byte>

  const U32: int := 0x1_0000_0000
  const U64: int := 0x1_0000_0000_0000_0000
  type u8 = x: int | 0 <= x < 256
  type u32 = x: int | 0 <= x < 0x1_0000_0000
  type u64 = x: int | 0 <= x < 0x1_0000_0000_0000_0000

  // ---------- little-endian fields ----------

  function Pow256(n: nat): (p: nat)
    ensures p > 0
  {
    if n == 0 then 1 else 256 * Pow256(n - 1)
  }

  /** The low n bytes of x; higher bytes are cut off, as a narrowing conversion does. */
  function LE(x: nat, n: nat): (b: Bytes)
    ensures |b| == n
  {
    if n == 0 then [] else [x % 256] + LE(x / 256, n - 1)
  }

  function UnLE(b: Bytes): (x: nat)
    ensures x < Pow256(|b|)
  {
    if |b| == 0 then 0 else b[0] + 256 * UnLE(b[1..])
  }

  lemma {:induction false} UnLEOfLE(x: nat, n: nat)
    requires x < Pow256(n)
    ensures UnLE(LE(x, n)) == x
  {
    if n != 0 {
      UnLEOfLE(x / 256, n - 1);
      assert LE(x, n)[1..] == LE(x / 256, n - 1);
    }
  }

  lemma {:induction false} LEOfUnLE(b: Bytes)
    ensures LE(UnLE(b), |b|) == b
  {
    if |b| != 0 {
      LEOfUnLE(b[1..]);
      assert UnLE(b) % 256 == b[0] && UnLE(b) / 256 == UnLE(b[1..]);
    }
  }

  function Get16(b: Bytes, off: nat): (x: nat)
    requires off + 2 <= |b|
  {
    UnLE(b[off..off + 2])
  }

  function Get32(b: Bytes, off: nat): (x: u32)
    requires off + 4 <= |b|
  {
    assert Pow256(4) == U32;
    UnLE(b[off..off + 4])
  }

  function Get64(b: Bytes, off: nat): (x: u64)
    requires off + 8 <= |b|
  {
    assert Pow256(8) == U64;
    UnLE(b[off..off + 8])
  }

  // ---------- pieces at offsets ----------

  ghost predicate At(b: Bytes, off: nat, piece: Bytes)
  {
    off + |piece| <= |b| && b[off..off + |piece|] == piece
  }

  lemma AtEmpty(b: Bytes, off: nat)
    requires off <= |b|
    ensures At(b, off, [])
  {
  }

  lemma AtSplit(b: Bytes, off: nat, p: Bytes, q: Bytes)
    ensures At(b, off, p + q) <==> At(b, off, p) && At(b, off + |p|, q)
  {
    if off + |p| + |q| <= |b| {
      var w := b[off..off + |p| + |q|];
      assert b[off..off + |p|] == w[..|p|];
      assert b[off + |p|..off + |p| + |q|] == w[|p|..];
      assert (p + q)[..|p|] == p && (p + q)[|p|..] == q;
      assert w == w[..|p|] + w[|p|..];
    }
  }

  /** A piece of a piece is a piece of the whole. */
  lemma AtWithin(b: Bytes, off: nat, outer: Bytes, k: nat, inner: Bytes)
    requires At(b, off, outer) && At(outer, k, inner)
    ensures At(b, off + k, inner)
  {
    var w, n := b[off..off + |outer|], |inner|;
    forall i | 0 <= i < n
      ensures b[off + k..off + k + n][i] == inner[i]
    {
      assert w[k..k + n][i] == w[k + i] == b[off + (k + i)];
    }
  }

  lemma Get32At(b: Bytes, off: nat, x: u32)
    requires off + 4 <= |b|
    ensures At(b, off, LE(x, 4)) <==> Get32(b, off) == x
  {
    assert Pow256(4) == U32;
    UnLEOfLE(x, 4);
    LEOfUnLE(b[off..off + 4]);
  }

  lemma Get64At(b: Bytes, off: nat, x: u64)
    requires off + 8 <= |b|
    ensures At(b, off, LE(x, 8)) <==> Get64(b, off) == x
  {
    assert Pow256(8) == U64;
    UnLEOfLE(x, 8);
    LEOfUnLE(b[off..off + 8]);
  }

  lemma Get16At(b: Bytes, off: nat, x: nat)
    requires off + 2 <= |b| && x < 0x1_0000
    ensures At(b, off, LE(x, 2)) <==> Get16(b, off) == x
  {
    assert Pow256(2) == 0x1_0000;
    UnLEOfLE(x, 2);
    LEOfUnLE(b[off..off + 2]);
  }

  function Zeros(n: nat): (z: Bytes)
    ensures |z| == n
    ensures forall i :: 0 <= i < n ==> z[i] == 0
  {
    seq(n, i => 0)
  }

  /** The buffer b with `piece` written over it at `off`. */
  function Splice(b: Bytes, off: nat, piece: Bytes): (r: Bytes)
    requires off + |piece| <= |b|
    ensures |r| == |b|
    ensures At(r, off, piece)
    ensures forall i :: 0 <= i < |b| && !(off <= i < off + |piece|) ==> r[i] == b[i]
  {
    b[..off] + piece + b[off + |piece|..]
  }

  /** Copies s into the array from k on. */
  method CopyInto(a: array<byte>, k: nat, s: Bytes)
    requires k + |s| <= a.Length
    modifies a
    ensures a[..] == Splice(old(a[..]), k, s)
  {
    for i := 0 to |s|
      invariant a[..] == old(a[..])[..k] + s[..i] + old(a[..])[k + i..]
    {
      a[k + i] := s[i];
    }
  }

  // ---------- filling a buffer field by field ----------

  /** The buffer starts with `done`, and the rest of it is still as allocated. */
  ghost predicate Headed(b: Bytes, done: Bytes)
  {
    |done| <= |b| && b[..|done|] == done && forall i :: |done| <= i < |b| ==> b[i] == 0
  }

  lemma HeadedMore(b: Bytes, done: Bytes, piece: Bytes)
    requires Headed(b, done) && |done| + |piece| <= |b|
    ensures Headed(Splice(b, |done|, piece), done + piece)
  {
  }

  lemma HeadedStart(b: Bytes)
    requires forall i :: 0 <= i < |b| ==> b[i] == 0
    ensures Headed(b, [])
  {
  }

  /** One more field behind those already in place. */
  method PutField(buf: array<byte>, at: nat, piece: Bytes, ghost done: Bytes) returns (ghost more: Bytes)
    requires at == |done| && at + |piece| <= buf.Length && Headed(buf[..], done)
    modifies buf
    ensures more == done + piece && Headed(buf[..], more)
  {
    hide Headed, Splice;
    HeadedMore(buf[..], done, piece);
    CopyInto(buf, at, piece);
    more := done + piece;
  }

  lemma HeadedFull(b: Bytes, done: Bytes)
    requires Headed(b, done) && |done| == |b|
    ensures b == done
  {
  }

  // ---------- unsigned 64-bit arithmetic ----------

  const MAX64: u64 := 0xFFFF_FFFF_FFFF_FFFF

  function SaturatingAdd(a: u64, b: u64): (s: u64)
    ensures s == if a + b <= MAX64 then a + b else MAX64
  {
    if MAX64 - a < b then MAX64 else a + b
  }

  function RegionWithinFile(offset: nat, size: nat, fileSize: nat): (ok: bool)
    ensures ok <==> offset + size <= fileSize
  {
    if offset > fileSize then false else size <= fileSize - offset
  }

  // ---------- order on paths (bytewise, as strings compare) ----------

  predicate Less(a: Bytes, b: Bytes)
  {
    if b == [] then false
    else if a == [] then true
    else if a[0] != b[0] then a[0] < b[0]
    else Less(a[1..], b[1..])
  }

  /** k is the first place at which a and b differ, or one of them ends there. */
  ghost predicate PartAt(a: Bytes, b: Bytes, k: nat)
  {
    k <= |a| && k <= |b| && a[..k] == b[..k] && (k < |a| && k < |b| ==> a[k] != b[k])
  }

  /** The order is that of the first differing byte; a proper prefix comes first. */
  lemma {:induction false} LessIff(a: Bytes, b: Bytes, k: nat)
    requires PartAt(a, b, k)
    ensures Less(a, b) <==> k < |b| && (k < |a| ==> a[k] < b[k])
  {
    if k > 0 {
      assert a[0] == a[..k][0] == b[..k][0] == b[0];
      assert a[1..][..k - 1] == a[..k][1..] && b[1..][..k - 1] == b[..k][1..];
      LessIff(a[1..], b[1..], k - 1);
    }
  }

  lemma {:induction false} LessIrreflexive(a: Bytes)
    ensures !Less(a, a)
  {
    if a != [] { LessIrreflexive(a[1..]); }
  }

  lemma {:induction false} LessTransitive(a: Bytes, b: Bytes, c: Bytes)
    requires Less(a, b) && Less(b, c)
    ensures Less(a, c)
  {
    if a != [] && a[0] == b[0] && b[0] == c[0] { LessTransitive(a[1..], b[1..], c[1..]); }
  }

  lemma {:induction false} LessTotal(a: Bytes, b: Bytes)
    ensures Less(a, b) || a == b || Less(b, a)
  {
    if a != [] && b != [] && a[0] == b[0] {
      LessTotal(a[1..], b[1..]);
      assert a == [a[0]] + a[1..] && b == [b[0]] + b[1..];
    }
  }
}

/** Directories as sorted lists and as maps from path to entry, and the encoder. */
module Catalog {
  import opened Binary
  import opened Common
  import opened Directory

  type Paths = map<Bytes, Entry>

  // ---------- order and uniqueness ----------

  predicate UniquePaths(es: seq<Entry>)
  {
    forall i, j :: 0 <= i < j < |es| ==> es[i].path != es[j].path
  }

  ghost predicate StrictlySorted(es: seq<Entry>)
  {
    forall i, j :: 0 <= i < j < |es| ==> Less(es[i].path, es[j].path)
  }

  lemma StrictlySortedUnique(es: seq<Entry>)
    requires StrictlySorted(es)
    ensures UniquePaths(es)
  {
    forall i, j | 0 <= i < j < |es|
      ensures es[i].path != es[j].path
    {
      LessIrreflexive(es[i].path);
    }
  }

  function Insert(e: Entry, es: seq<Entry>): (r: seq<Entry>)
    ensures multiset(r) == multiset{e} + multiset(es)
  {
    if |es| == 0 then [e]
    else if Less(es[0].path, e.path) then
      assert es == [es[0]] + es[1..];
      [es[0]] + Insert(e, es[1..])
    else [e] + es
  }

  /** The encoder's sort by path.  Equal paths keep their order here; in the source their order is
      unspecified, but a transaction's entries come from a map and never share a path. */
  function SortByPath(es: seq<Entry>): (r: seq<Entry>)
    ensures multiset(r) == multiset(es)
  {
    if |es| == 0 then []
    else
      assert es == [es[0]] + es[1..];
      Insert(es[0], SortByPath(es[1..]))
  }

  lemma MultisetMembers(a: seq<Entry>, b: seq<Entry>, i: nat) returns (j: nat)
    requires multiset(a) == multiset(b) && i < |a|
    ensures j < |b| && b[j] == a[i]
  {
    assert a[i] in multiset(a);
    assert a[i] in b;
    j :| 0 <= j < |b| && b[j] == a[i];
  }

  lemma {:induction false} InsertSorted(e: Entry, es: seq<Entry>)
    requires StrictlySorted(es) && forall i :: 0 <= i < |es| ==> es[i].path != e.path
    ensures StrictlySorted(Insert(e, es))
  {
    if |es| == 0 {
    } else if Less(es[0].path, e.path) {
      var rest := Insert(e, es[1..]);
      InsertSorted(e, es[1..]);
      forall i | 0 <= i < |rest|
        ensures Less(es[0].path, rest[i].path)
      {
        assert rest[i] in multiset(rest);
        assert rest[i] == e || rest[i] in multiset(es[1..]);
      }
    } else {
      LessTotal(es[0].path, e.path);
      forall i | 1 <= i < |es|
        ensures Less(e.path, es[i].path)
      {
        LessTransitive(e.path, es[0].path, es[i].path);
      }
    }
  }

  lemma {:induction false} SortSorts(es: seq<Entry>)
    requires UniquePaths(es)
    ensures StrictlySorted(SortByPath(es))
  {
    if |es| != 0 {
      SortSorts(es[1..]);
      var rest := SortByPath(es[1..]);
      forall i | 0 <= i < |rest|
        ensures rest[i].path != es[0].path
      {
        var j := MultisetMembers(rest, es[1..], i);
        assert es[1..][j] == es[j + 1];
      }
      InsertSorted(es[0], rest);
    }
  }

  lemma TailMultiset(es: seq<Entry>)
    requires |es| > 0
    ensures multiset(es[1..]) == multiset(es) - multiset{es[0]}
  {
    assert es == [es[0]] + es[1..];
  }

  lemma SameFirst(a: seq<Entry>, b: seq<Entry>)
    requires StrictlySorted(a) && StrictlySorted(b) && multiset(a) == multiset(b) && |a| > 0 && |b| > 0
    ensures a[0] == b[0]
  {
    var j := MultisetMembers(a, b, 0);
    var i := MultisetMembers(b, a, 0);
    if j != 0 && i != 0 {
      LessTransitive(a[0].path, b[0].path, a[0].path);
      LessIrreflexive(a[0].path);
    }
  }

  /** A set of entries has one sorted order, so neither the map's iteration order nor the sorting
      algorithm can show in the encoded bytes. */
  lemma {:induction false} SortedOrderUnique(a: seq<Entry>, b: seq<Entry>)
    requires StrictlySorted(a) && StrictlySorted(b) && multiset(a) == multiset(b)
    ensures a == b
    decreases |a|
  {
    assert |a| == |multiset(a)| == |multiset(b)| == |b|;
    if |a| != 0 {
      SameFirst(a, b);
      TailMultiset(a);
      TailMultiset(b);
      SortedOrderUnique(a[1..], b[1..]);
      assert a == [a[0]] + a[1..] && b == [b[0]] + b[1..];
    }
  }

  lemma SortUnique(a: seq<Entry>, b: seq<Entry>)
    requires UniquePaths(a) && UniquePaths(b) && multiset(a) == multiset(b)
    ensures SortByPath(a) == SortByPath(b)
  {
    SortSorts(a);
    SortSorts(b);
    SortedOrderUnique(SortByPath(a), SortByPath(b));
  }

  // ---------- maps ----------

  function MapOf(es: seq<Entry>): (m: Paths)
    ensures forall k :: k in m ==> m[k].path == k
  {
    if |es| == 0 then map[]
    else var n := |es| - 1; MapOf(es[..n])[es[n].path := es[n]]
  }

  lemma {:induction false} MapOfMembers(es: seq<Entry>)
    requires UniquePaths(es)
    ensures forall i :: 0 <= i < |es| ==> es[i].path in MapOf(es) && MapOf(es)[es[i].path] == es[i]
    ensures forall k :: k in MapOf(es) ==> exists i :: 0 <= i < |es| && es[i].path == k
  {
    if |es| != 0 {
      var n := |es| - 1;
      MapOfMembers(es[..n]);
      forall i | 0 <= i < n
        ensures es[i].path in MapOf(es) && MapOf(es)[es[i].path] == es[i]
      {
        assert es[..n][i] == es[i];
      }
      forall k | k in MapOf(es)
        ensures exists i :: 0 <= i < |es| && es[i].path == k
      {
        if k != es[n].path {
          var i :| 0 <= i < n && es[..n][i].path == k;
          assert es[i].path == k;
        }
      }
    }
  }

  ghost predicate Includes(a: seq<Entry>, b: seq<Entry>)
  {
    forall i :: 0 <= i < |b| ==> b[i] in a
  }

  lemma MapOfIncludes(a: seq<Entry>, b: seq<Entry>)
    requires UniquePaths(a) && UniquePaths(b) && Includes(b, a)
    ensures forall k :: k in MapOf(a) ==> k in MapOf(b) && MapOf(b)[k] == MapOf(a)[k]
  {
    MapOfMembers(a);
    MapOfMembers(b);
    forall k | k in MapOf(a)
      ensures k in MapOf(b) && MapOf(b)[k] == MapOf(a)[k]
    {
      var i :| 0 <= i < |a| && a[i].path == k;
      assert a[i] in b;
    }
  }

  lemma MapOfSame(a: seq<Entry>, b: seq<Entry>)
    requires UniquePaths(a) && UniquePaths(b) && Includes(a, b) && Includes(b, a)
    ensures MapOf(a) == MapOf(b)
  {
    MapOfIncludes(a, b);
    MapOfIncludes(b, a);
  }

  // ---------- encoder ----------

  function ClearReserved(cs: seq<ChunkRef>): (r: seq<ChunkRef>)
    ensures |r| == |cs|
    ensures forall i :: 0 <= i < |cs| ==> r[i] == cs[i].(reserved := 0)
  {
    seq(|cs|, i requires 0 <= i < |cs| => cs[i].(reserved := 0))
  }

  /** The derived fields as the encoder writes them, sizes narrowed to 32 bits. */
  function Derive(p: Primitives, e: Entry): Entry
  {
    e.(pathHash := p.fnv(e.path), pathSize := |e.path| % U32, metaSize := |e.meta| % U32,
       chunkCount := |e.chunks| % U32, chunks := ClearReserved(e.chunks))
  }

  function DeriveAll(p: Primitives, es: seq<Entry>): (r: seq<Entry>)
    ensures |r| == |es| && forall i :: 0 <= i < |es| ==> r[i] == Derive(p, es[i])
  {
    seq(|es|, i requires 0 <= i < |es| => Derive(p, es[i]))
  }

  /** `EncodeDirectory`. */
  function Encode(p: Primitives, d: Dir): Result<(Bytes, u32)>
  {
    if d.flags != 0 then Err(InvalidFormat)
    else
      var sorted := SortByPath(d.entries);
      if exists i :: 0 <= i < |sorted| && sorted[i].path == [] then Err(InvalidFormat)
      else
        var es := DeriveAll(p, sorted);
        Ok((DirBytes(p, es, d.buildUnix), p.crc(BodyBytes(es, d.buildUnix))))
  }

  /** The encoder refuses directory flags and empty paths, and nothing else. */
  lemma EncodeFailsIff(p: Primitives, d: Dir)
    ensures Encode(p, d) == Err(InvalidFormat) <==> d.flags != 0 || exists e :: e in d.entries && e.path == []
    ensures Encode(p, d).Err? ==> Encode(p, d) == Err(InvalidFormat)
  {
    hide DirBytes, BodyBytes, DeriveAll;
    var sorted := SortByPath(d.entries);
    forall e
      ensures e in sorted <==> e in d.entries
    {
      assert e in sorted <==> e in multiset(sorted);
      assert e in d.entries <==> e in multiset(d.entries);
    }
  }

  /** What the writer guarantees of an entry before it is encoded. */
  ghost predicate Encodable(e: Entry)
  {
    && e.path != [] && |e.path| < U32 && |e.meta| < U32 && |e.chunks| < U32
    && ChunksFit(e.(chunks := ClearReserved(e.chunks)))
  }

  lemma EncodableDerives(p: Primitives, e: Entry)
    requires e.path != [] && |e.path| < U32 && |e.meta| < U32 && |e.chunks| < U32
    ensures CountsMatch(Derive(p, e))
    ensures Encodable(e) <==> Canonical(p, Derive(p, e))
  {
  }

  lemma DeriveUnique(p: Primitives, es: seq<Entry>)
    ensures UniquePaths(DeriveAll(p, es)) == UniquePaths(es)
  {
    var ds := DeriveAll(p, es);
    forall i | 0 <= i < |es|
      ensures ds[i].path == es[i].path
    {
    }
  }

  /** Decoding an encoded directory yields its entries sorted by path with the derived fields filled in. */
  lemma RoundTrip(p: Primitives, d: Dir)
    requires d.flags == 0 && |d.entries| < U32 && UniquePaths(d.entries)
    requires forall i :: 0 <= i < |d.entries| ==> Encodable(d.entries[i])
    requires Encode(p, d).Ok? ==> |Encode(p, d).value.0| < U64
    ensures Encode(p, d).Ok?
    ensures var (blob, crc) := Encode(p, d).value;
            var es := DeriveAll(p, SortByPath(d.entries));
            && Decode(p, blob, crc, |blob|) == Ok(Dir(|d.entries|, 0, d.buildUnix, es))
            && StrictlySorted(es) && MapOf(es) == MapOf(DeriveAll(p, d.entries))
  {
    var sorted := SortByPath(d.entries);
    var es := DeriveAll(p, sorted);
    assert |sorted| == |multiset(sorted)| == |d.entries|;
    forall i | 0 <= i < |sorted|
      ensures Canonical(p, es[i]) && sorted[i].path != []
    {
      var j := MultisetMembers(sorted, d.entries, i);
      EncodableDerives(p, sorted[i]);
    }
    PrintedDecodes(p, es, d.buildUnix);
    SortSorts(d.entries);
    DeriveKeepsOrder(p, d.entries);
  }

  // ---------- what an encoded entry still says ----------

  /** References d say all that c says; the reserved word is not part of it. */
  ghost predicate SameRefs(cs: seq<ChunkRef>, ds: seq<ChunkRef>)
  {
    && |ds| == |cs|
    && forall i :: 0 <= i < |cs| ==>
         && ds[i].chunkOffset == cs[i].chunkOffset && ds[i].rawOffset == cs[i].rawOffset
         && ds[i].rawSize == cs[i].rawSize && ds[i].compSize == cs[i].compSize && ds[i].crc32Raw == cs[i].crc32Raw
  }

  /** f says all that e says, and carries the hash of its path. */
  ghost predicate Records(p: Primitives, e: Entry, f: Entry)
  {
    && f.path == e.path && f.mtime == e.mtime && f.mode == e.mode && f.flags == e.flags
    && f.fileSize == e.fileSize && f.meta == e.meta && f.pathHash == p.fnv(e.path) && SameRefs(e.chunks, f.chunks)
  }

  /** n has the paths of m, and under each of them all that m says of it. */
  ghost predicate Preserves(p: Primitives, m: Paths, n: Paths)
  {
    n.Keys == m.Keys && forall k :: k in m ==> Records(p, m[k], n[k])
  }

  /** Exactly one entry of the list has the path of e, and it says all that e says. */
  ghost predicate RecordedOnce(p: Primitives, e: Entry, es: seq<Entry>)
  {
    exists j :: 0 <= j < |es| && Records(p, e, es[j]) && forall k :: 0 <= k < |es| && es[k].path == e.path ==> k == j
  }

  lemma RecordsPath(p: Primitives, e: Entry, f: Entry)
    requires Records(p, e, f)
    ensures f.path == e.path
  {
  }

  lemma DeriveRecords(p: Primitives, e: Entry)
    ensures Records(p, e, Derive(p, e))
  {
  }

  /** Decoding what the encoder wrote of a set of entries yields as many entries, and for each of the set exactly one
      with its path, which records everything of it. */
  lemma EncodedRecords(p: Primitives, d: Dir)
    requires d.flags == 0 && |d.entries| < U32 && UniquePaths(d.entries)
    requires forall i :: 0 <= i < |d.entries| ==> Encodable(d.entries[i])
    requires Encode(p, d).Ok? ==> |Encode(p, d).value.0| < U64
    ensures Encode(p, d).Ok?
    ensures var (blob, crc) := Encode(p, d).value; var r := Decode(p, blob, crc, |blob|);
            && r.Ok? && r.value.buildUnix == d.buildUnix && |r.value.entries| == |d.entries|
            && forall i :: 0 <= i < |d.entries| ==> RecordedOnce(p, d.entries[i], r.value.entries)
  {
    hide Encode, Decode, Derive, SortByPath, Encodable, Records, Less;
    RoundTrip(p, d);
    var sorted := SortByPath(d.entries);
    var es := DeriveAll(p, sorted);
    StrictlySortedUnique(es);
    assert |sorted| == |multiset(sorted)| == |d.entries|;
    forall i | 0 <= i < |d.entries|
      ensures RecordedOnce(p, d.entries[i], es)
    {
      var j := MultisetMembers(d.entries, sorted, i);
      DeriveRecords(p, sorted[j]);
      assert Records(p, d.entries[i], es[j]);
      assert es[j].path == d.entries[i].path by { RecordsPath(p, d.entries[i], es[j]); }
    }
  }

  lemma DeriveIncludes(p: Primitives, a: seq<Entry>, b: seq<Entry>)
    requires multiset(a) == multiset(b)
    ensures Includes(DeriveAll(p, a), DeriveAll(p, b))
  {
    forall i | 0 <= i < |b|
      ensures DeriveAll(p, b)[i] in DeriveAll(p, a)
    {
      var j := MultisetMembers(b, a, i);
      assert DeriveAll(p, a)[j] == DeriveAll(p, b)[i];
    }
  }

  lemma DeriveKeepsOrder(p: Primitives, es: seq<Entry>)
    requires UniquePaths(es)
    ensures var ds := DeriveAll(p, SortByPath(es));
            StrictlySorted(ds) && MapOf(ds) == MapOf(DeriveAll(p, es))
  {
    var sorted, ds := SortByPath(es), DeriveAll(p, SortByPath(es));
    SortSorts(es);
    assert forall i :: 0 <= i < |ds| ==> ds[i].path == sorted[i].path;
    StrictlySortedUnique(ds);
    DeriveUnique(p, es);
    DeriveIncludes(p, es, sorted);
    DeriveIncludes(p, sorted, es);
    MapOfSame(ds, DeriveAll(p, es));
  }

  /** For entries of 32-bit sizes, what the encoder writes decodes if and only if every chunk map is
      in order, unwrapped, and ends at the recorded file size. */
  lemma EncodedDecodesIff(p: Primitives, d: Dir)
    requires Encode(p, d).Ok? && |d.entries| < U32 && |Encode(p, d).value.0| < U64
    requires forall i :: 0 <= i < |d.entries| ==>
               |d.entries[i].path| < U32 && |d.entries[i].meta| < U32 && |d.entries[i].chunks| < U32
    ensures var (blob, crc) := Encode(p, d).value;
            Decode(p, blob, crc, |blob|).Ok? <==> forall i :: 0 <= i < |d.entries| ==> Encodable(d.entries[i])
  {
    var sorted := SortByPath(d.entries);
    var es := DeriveAll(p, sorted);
    var (blob, crc) := Encode(p, d).value;
    assert |sorted| == |multiset(sorted)| == |d.entries|;
    forall i | 0 <= i < |sorted|
      ensures CountsMatch(es[i]) && (Encodable(sorted[i]) <==> Canonical(p, es[i]))
    {
      var j := MultisetMembers(sorted, d.entries, i);
      EncodableDerives(p, sorted[i]);
    }
    if Decode(p, blob, crc, |blob|).Ok? {
      var out := Decode(p, blob, crc, |blob|).value;
      DecodedIsPrinted(p, blob, crc, |blob|, out);
      PrintInjective(p, es, out.entries, d.buildUnix, out.buildUnix);
      forall i | 0 <= i < |d.entries|
        ensures Encodable(d.entries[i])
      {
        var j := MultisetMembers(d.entries, sorted, i);
      }
    }
    if forall i :: 0 <= i < |d.entries| ==> Encodable(d.entries[i]) {
      forall i | 0 <= i < |sorted|
        ensures Canonical(p, es[i])
      {
        var j := MultisetMembers(sorted, d.entries, i);
      }
      PrintedDecodes(p, es, d.buildUnix);
    }
  }

  /** Equal printed bytes come from equal entries, so no two directories share an encoding. */
  lemma PrintInjective(p: Primitives, a: seq<Entry>, b: seq<Entry>, buildA: u64, buildB: u64)
    requires |a| < U32 && |b| < U32 && DirBytes(p, a, buildA) == DirBytes(p, b, buildB)
    requires forall i :: 0 <= i < |a| ==> CountsMatch(a[i])
    requires forall i :: 0 <= i < |b| ==> CountsMatch(b[i])
    ensures a == b && buildA == buildB
  {
    hide EntriesBytes, CountsMatch;
    var blob := DirBytes(p, a, buildA);
    PrintedLayout(p, a, buildA);
    PrintedLayout(p, b, buildB);
    PrintedCount(p, a, buildA);
    PrintedCount(p, b, buildB);
    EntriesInjective(blob, HEADER_SIZE, a, b);
  }

  lemma PrintedCount(p: Primitives, es: seq<Entry>, build: u64)
    requires |es| < U32
    ensures |DirBytes(p, es, build)| >= HEADER_SIZE && Get32(DirBytes(p, es, build), 4) == |es|
  {
    var b := DirBytes(p, es, build);
    PrintedLayout(p, es, build);
    AtSplit(b, 0, MAGIC_DIR, LE(|es|, 4) + (LE(0, 4) + LE(build, 8)));
    AtSplit(b, 4, LE(|es|, 4), LE(0, 4) + LE(build, 8));
    Get32At(b, 4, |es|);
  }

  lemma {:induction false} EntriesInjective(blob: Bytes, off: nat, a: seq<Entry>, b: seq<Entry>)
    requires |a| == |b| && At(blob, off, EntriesBytes(a)) && At(blob, off, EntriesBytes(b))
    requires forall i :: 0 <= i < |a| ==> CountsMatch(a[i])
    requires forall i :: 0 <= i < |b| ==> CountsMatch(b[i])
    ensures a == b
    decreases |a|
  {
    hide CountsMatch, EntryBytes, At;
    if |a| != 0 {
      assert a == [a[0]] + a[1..] && b == [b[0]] + b[1..];
      EntriesCons(blob, off, a[0], a[1..]);
      EntriesCons(blob, off, b[0], b[1..]);
      EntryInjective(blob, off, a[0], b[0]);
      EntriesInjective(blob, off + EntrySize(a[0]), a[1..], b[1..]);
    }
  }

  lemma EntryInjective(blob: Bytes, off: nat, x: Entry, y: Entry)
    requires CountsMatch(x) && CountsMatch(y)
    requires At(blob, off, EntryBytes(x)) && At(blob, off, EntryBytes(y))
    ensures x == y
  {
    PrintedParses(blob, off, x);
    PrintedParses(blob, off, y);
  }
}

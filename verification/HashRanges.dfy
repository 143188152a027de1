/** Grouping directory rows by path hash, and what a valid grouping is. */
module HashRanges {
  import opened Binary
  import opened Common
  import opened Rows

  datatype HashRange = HashRange(pathHash: u64, first: u32, span: u32)

  predicate InRange(g: HashRange, x: int)
  {
    g.first <= x < g.first + g.span
  }

  /** Every range is nonempty, inside the row table, and holds only rows of its hash. */
  predicate Sound(rows: seq<Row>, gs: seq<HashRange>)
  {
    forall a :: 0 <= a < |gs| ==> SoundRange(rows, gs[a])
  }

  predicate SoundRange(rows: seq<Row>, g: HashRange)
  {
    0 < g.span && g.first + g.span <= |rows|
    && forall x :: g.first <= x < g.first + g.span ==> rows[x].pathHash == g.pathHash
  }

  predicate HashSorted(gs: seq<HashRange>)
  {
    forall a, b :: 0 <= a < b < |gs| ==> gs[a].pathHash <= gs[b].pathHash
  }

  predicate Apart(g: HashRange, h: HashRange)
  {
    g.first + g.span <= h.first || h.first + h.span <= g.first
  }

  predicate Disjoint(gs: seq<HashRange>)
  {
    forall a, b :: 0 <= a < b < |gs| ==> Apart(gs[a], gs[b])
  }

  /** Every row number lies in some range. */
  predicate Complete(n: nat, gs: seq<HashRange>)
  {
    forall x :: 0 <= x < n ==> Covered(gs, x)
  }

  predicate Covered(gs: seq<HashRange>, x: int)
  {
    exists a :: 0 <= a < |gs| && InRange(gs[a], x)
  }

  // ---------- the order the builder sorts by ----------

  predicate Before(rows: seq<Row>, a: nat, b: nat)
    requires a < |rows| && b < |rows|
  {
    rows[a].pathHash < rows[b].pathHash || (rows[a].pathHash == rows[b].pathHash && a < b)
  }

  predicate Indices(rows: seq<Row>, order: seq<nat>)
  {
    forall k :: 0 <= k < |order| ==> order[k] < |rows|
  }

  function InsertIndex(rows: seq<Row>, x: nat, order: seq<nat>): (r: seq<nat>)
    requires x < |rows| && Indices(rows, order)
    ensures |r| == |order| + 1 && Indices(rows, r)
    ensures forall y :: y in r <==> y == x || y in order
  {
    if |order| == 0 then [x]
    else if Before(rows, order[0], x) then
      assert order == [order[0]] + order[1..];
      [order[0]] + InsertIndex(rows, x, order[1..])
    else [x] + order
  }

  /** The first n row numbers sorted by (hash, number). */
  function HashOrder(rows: seq<Row>, n: nat): (r: seq<nat>)
    requires n <= |rows|
    ensures |r| == n && Indices(rows, r)
    ensures forall y :: y in r <==> 0 <= y < n
  {
    if n == 0 then [] else InsertIndex(rows, n - 1, HashOrder(rows, n - 1))
  }

  ghost predicate Ordered(rows: seq<Row>, order: seq<nat>)
  {
    Indices(rows, order) && forall i, j :: 0 <= i < j < |order| ==> Before(rows, order[i], order[j])
  }

  lemma {:induction false} InsertKeepsOrder(rows: seq<Row>, x: nat, order: seq<nat>)
    requires x < |rows| && Ordered(rows, order) && x !in order
    ensures Ordered(rows, InsertIndex(rows, x, order))
  {
    if |order| != 0 && Before(rows, order[0], x) {
      InsertKeepsOrder(rows, x, order[1..]);
      var rest := InsertIndex(rows, x, order[1..]);
      forall k | 0 <= k < |rest|
        ensures Before(rows, order[0], rest[k])
      {
        assert rest[k] in rest;
        assert rest[k] == x || rest[k] in order[1..];
      }
    } else if |order| != 0 {
      assert order[0] in order;
      forall k | 1 <= k < |order|
        ensures Before(rows, x, order[k])
      {
        assert Before(rows, order[0], order[k]);
      }
    }
  }

  lemma {:induction false} HashOrderOrdered(rows: seq<Row>, n: nat)
    requires n <= |rows|
    ensures Ordered(rows, HashOrder(rows, n))
  {
    if n != 0 {
      HashOrderOrdered(rows, n - 1);
      InsertKeepsOrder(rows, n - 1, HashOrder(rows, n - 1));
    }
  }

  lemma OrderDistinct(rows: seq<Row>, order: seq<nat>, a: nat, b: nat)
    requires a < b < |order| && Ordered(rows, order)
    ensures order[a] != order[b]
  {
    assert Before(rows, order[a], order[b]);
  }

  // ---------- grouping ----------

  /** Positions i to j of the order hold consecutive row numbers of one hash. */
  predicate Run(rows: seq<Row>, order: seq<nat>, i: nat, j: nat)
    requires Indices(rows, order)
  {
    i <= j < |order| && forall k :: i <= k <= j ==> order[k] == order[i] + (k - i) && rows[order[k]].pathHash == rows[order[i]].pathHash
  }

  /** Whether the run from i to j goes on to j + 1. */
  predicate Extends(rows: seq<Row>, order: seq<nat>, i: nat, j: nat)
    requires Indices(rows, order) && i <= j < |order|
  {
    j + 1 < |order| && rows[order[j + 1]].pathHash == rows[order[i]].pathHash && order[j + 1] == order[i] + (j + 1 - i)
  }

  /** The last position of the run that starts at i, looking on from j. */
  function RunEnd(rows: seq<Row>, order: seq<nat>, i: nat, j: nat): (r: nat)
    requires Indices(rows, order) && Run(rows, order, i, j)
    ensures j <= r && Run(rows, order, i, r)
    decreases |order| - j
  {
    if Extends(rows, order, i, j) then RunEnd(rows, order, i, j + 1) else j
  }

  function FirstRun(rows: seq<Row>, order: seq<nat>, i: nat): (r: nat)
    requires Indices(rows, order) && i < |order|
    ensures i <= r < |order| && Run(rows, order, i, r)
  {
    RunEnd(rows, order, i, i)
  }

  lemma RunStep(rows: seq<Row>, order: seq<nat>, i: nat, j: nat)
    requires Indices(rows, order) && i <= j < |order| && Run(rows, order, i, j)
    ensures if Extends(rows, order, i, j)
            then Run(rows, order, i, j + 1) && RunEnd(rows, order, i, j + 1) == RunEnd(rows, order, i, j)
            else RunEnd(rows, order, i, j) == j
  {
  }

  function RunRange(rows: seq<Row>, order: seq<nat>, i: nat, j: nat): (g: HashRange)
    requires Indices(rows, order) && Run(rows, order, i, j) && |rows| < U32
    ensures g.span == j + 1 - i && g.first == order[i] && g.pathHash == rows[order[i]].pathHash
  {
    assert order[j] == order[i] + (j - i);
    HashRange(rows[order[i]].pathHash, order[i], j + 1 - i)
  }

  function Groups(rows: seq<Row>, order: seq<nat>, i: nat): (gs: seq<HashRange>)
    requires i <= |order| && Indices(rows, order) && |rows| < U32
    decreases |order| - i
  {
    if i == |order| then []
    else
      var j := FirstRun(rows, order, i);
      [RunRange(rows, order, i, j)] + Groups(rows, order, j + 1)
  }

  /** `buildDirIndexHashRanges`. */
  function BuildRanges(rows: seq<Row>): seq<HashRange>
    requires |rows| < U32
  {
    Groups(rows, HashOrder(rows, |rows|), 0)
  }

  /** The rows of a run's range are exactly the row numbers at positions i to j. */
  lemma RunRows(rows: seq<Row>, order: seq<nat>, i: nat, j: nat)
    requires Indices(rows, order) && Run(rows, order, i, j) && |rows| < U32
    ensures var g := RunRange(rows, order, i, j);
            && SoundRange(rows, g)
            && (forall x :: InRange(g, x) ==> x in order[i..j + 1])
            && (forall k :: i <= k <= j ==> InRange(g, order[k]))
  {
    var g := RunRange(rows, order, i, j);
    assert order[j] == order[i] + (j - i);
    forall x | InRange(g, x)
      ensures rows[x].pathHash == g.pathHash && x in order[i..j + 1]
    {
      var k := i + (x - g.first);
      assert order[k] == x && order[i..j + 1][k - i] == x;
    }
  }

  lemma {:induction false} GroupsSound(rows: seq<Row>, order: seq<nat>, i: nat)
    requires i <= |order| && Ordered(rows, order) && |rows| < U32
    ensures var gs := Groups(rows, order, i);
            Sound(rows, gs) && HashSorted(gs) && (i < |order| ==> FromHash(gs, rows[order[i]].pathHash))
    decreases |order| - i
  {
    hide SoundRange, Run, Sound, HashSorted, FromHash;
    if i != |order| {
      var j := FirstRun(rows, order, i);
      var g, rest := RunRange(rows, order, i, j), Groups(rows, order, j + 1);
      GroupsSound(rows, order, j + 1);
      assert SoundRange(rows, g) by { RunRows(rows, order, i, j); }
      assert j + 1 < |order| ==> Before(rows, order[i], order[j + 1]);
      if j + 1 == |order| { NothingSound(rows, g.pathHash); } else { FromLower(rest, rows[order[j + 1]].pathHash, g.pathHash); }
      OneMoreSound(rows, g, rest);
    } else {
      NothingSound(rows, 0);
    }
  }

  ghost predicate FromHash(gs: seq<HashRange>, hash: u64)
  {
    forall a :: 0 <= a < |gs| ==> hash <= gs[a].pathHash
  }

  lemma NothingSound(rows: seq<Row>, hash: u64)
    ensures Sound(rows, []) && HashSorted([]) && FromHash([], hash)
  {
  }

  lemma FromLower(gs: seq<HashRange>, hash: u64, lower: u64)
    requires FromHash(gs, hash) && lower <= hash
    ensures FromHash(gs, lower)
  {
  }

  lemma OneMoreSound(rows: seq<Row>, g: HashRange, gs: seq<HashRange>)
    requires SoundRange(rows, g) && Sound(rows, gs) && HashSorted(gs) && FromHash(gs, g.pathHash)
    ensures Sound(rows, [g] + gs) && HashSorted([g] + gs) && FromHash([g] + gs, g.pathHash)
  {
    hide SoundRange;
  }

  ghost predicate Inside(g: HashRange, xs: seq<nat>)
  {
    forall x :: InRange(g, x) ==> x in xs
  }

  ghost predicate AllInside(gs: seq<HashRange>, xs: seq<nat>)
  {
    forall a :: 0 <= a < |gs| ==> Inside(gs[a], xs)
  }

  /** The ranges built from position i on hold only row numbers at those positions. */
  lemma {:induction false} GroupsInside(rows: seq<Row>, order: seq<nat>, i: nat)
    requires i <= |order| && Indices(rows, order) && |rows| < U32
    ensures AllInside(Groups(rows, order, i), order[i..])
    decreases |order| - i
  {
    hide Run, RunEnd, FirstRun, InRange, SoundRange;
    if i != |order| {
      var j := FirstRun(rows, order, i);
      var rest := Groups(rows, order, j + 1);
      GroupsInside(rows, order, j + 1);
      assert AllInside(rest, order[j + 1..]);
      RunRows(rows, order, i, j);
      assert order[i..] == order[i..j + 1] + order[j + 1..];
      assert Inside(RunRange(rows, order, i, j), order[i..j + 1]);
    }
  }

  /** The ranges built from position i on hold every row number at those positions. */
  lemma {:induction false} GroupsCover(rows: seq<Row>, order: seq<nat>, i: nat, k: nat)
    requires i <= k < |order| && Indices(rows, order) && |rows| < U32
    ensures Covered(Groups(rows, order, i), order[k])
    decreases |order| - i
  {
    hide Run, RunEnd, FirstRun, InRange, SoundRange;
    var j := FirstRun(rows, order, i);
    var rest := Groups(rows, order, j + 1);
    var gs := [RunRange(rows, order, i, j)] + rest;
    if k <= j {
      RunRows(rows, order, i, j);
      assert InRange(gs[0], order[k]);
    } else {
      GroupsCover(rows, order, j + 1, k);
      var a :| 0 <= a < |rest| && InRange(rest[a], order[k]);
      assert InRange(gs[a + 1], order[k]);
    }
  }

  /** A range of row numbers found only after position j cannot meet the run that ends there. */
  lemma RunApart(rows: seq<Row>, order: seq<nat>, i: nat, j: nat, h: HashRange)
    requires Indices(rows, order) && Ordered(rows, order) && Run(rows, order, i, j) && |rows| < U32 && 0 < h.span
    requires Inside(h, order[j + 1..])
    ensures Apart(RunRange(rows, order, i, j), h)
  {
    hide Ordered;
    var g := RunRange(rows, order, i, j);
    if !Apart(g, h) {
      var x := if g.first <= h.first then h.first else g.first;
      assert InRange(h, x) && InRange(g, x);
      var k := i + (x - g.first);
      assert order[k] == x;
      var m :| 0 <= m < |order[j + 1..]| && order[j + 1..][m] == x;
      OrderDistinct(rows, order, k, j + 1 + m);
    }
  }

  lemma {:induction false} GroupsDisjoint(rows: seq<Row>, order: seq<nat>, i: nat)
    requires i <= |order| && Ordered(rows, order) && |rows| < U32
    ensures Disjoint(Groups(rows, order, i))
    decreases |order| - i
  {
    hide Run, RunEnd, FirstRun, InRange, Apart, Ordered, HashSorted;
    if i != |order| {
      assert Indices(rows, order) by { OrderedIndices(rows, order); }
      var j := FirstRun(rows, order, i);
      GroupsDisjoint(rows, order, j + 1);
      GroupsInside(rows, order, j + 1);
      GroupsSound(rows, order, j + 1);
      var rest := Groups(rows, order, j + 1);
      forall a | 0 <= a < |rest|
        ensures Apart(RunRange(rows, order, i, j), rest[a])
      {
        assert SoundRange(rows, rest[a]);
        RunApart(rows, order, i, j, rest[a]);
      }
    }
  }

  lemma OrderedIndices(rows: seq<Row>, order: seq<nat>)
    requires Ordered(rows, order)
    ensures Indices(rows, order)
  {
  }

  /** The built ranges partition the row numbers: every row is in a range, no two ranges meet, each
      range is one hash, and the ranges are sorted by hash. */
  lemma BuiltRangesPartition(rows: seq<Row>)
    requires |rows| < U32
    ensures var gs := BuildRanges(rows);
            Sound(rows, gs) && HashSorted(gs) && Disjoint(gs) && Complete(|rows|, gs)
  {
    hide Groups, Disjoint, Sound, HashSorted, Covered, HashOrder;
    var order := HashOrder(rows, |rows|);
    HashOrderOrdered(rows, |rows|);
    GroupsSound(rows, order, 0);
    GroupsDisjoint(rows, order, 0);
    forall x: nat | 0 <= x < |rows|
      ensures Covered(BuildRanges(rows), x)
    {
      assert x in order;
      var k :| 0 <= k < |order| && order[k] == x;
      GroupsCover(rows, order, 0, k);
    }
  }

  // ---------- the builder's loops ----------

  /** The builder: one pass over the sorted order, emitting a range for every maximal run. */
  method BuildHashRanges(rows: seq<Row>) returns (out: seq<HashRange>)
    requires |rows| < U32
    ensures out == BuildRanges(rows)
  {
    hide Groups, Run, RunEnd, HashOrder;
    var order := HashOrder(rows, |rows|);
    out := [];
    var i := 0;
    while i < |order|
      invariant 0 <= i <= |order|
      invariant out + Groups(rows, order, i) == BuildRanges(rows)
    {
      var j := i;
      var hash, first, span := rows[order[i]].pathHash, order[i], 1;
      RunBase(rows, order, i);
      while j + 1 < |order| && rows[order[j + 1]].pathHash == hash && order[j + 1] == first + span
        invariant i <= j < |order| && Run(rows, order, i, j) && span == j + 1 - i
        invariant RunEnd(rows, order, i, j) == FirstRun(rows, order, i)
      {
        RunStep(rows, order, i, j);
        span, j := span + 1, j + 1;
      }
      RunStep(rows, order, i, j);
      GroupsStep(rows, order, i);
      ghost var g, rest := RunRange(rows, order, i, j), Groups(rows, order, j + 1);
      assert out + ([g] + rest) == (out + [g]) + rest;
      out := out + [HashRange(hash, first, span)];
      i := j + 1;
    }
    GroupsEnd(rows, order);
    assert out + [] == out;
  }

  lemma RunBase(rows: seq<Row>, order: seq<nat>, i: nat)
    requires Indices(rows, order) && i < |order|
    ensures Run(rows, order, i, i)
  {
  }

  lemma GroupsStep(rows: seq<Row>, order: seq<nat>, i: nat)
    requires Indices(rows, order) && |rows| < U32 && i < |order|
    ensures var j := FirstRun(rows, order, i);
            Groups(rows, order, i) == [RunRange(rows, order, i, j)] + Groups(rows, order, j + 1)
  {
  }

  lemma GroupsEnd(rows: seq<Row>, order: seq<nat>)
    requires Indices(rows, order) && |rows| < U32
    ensures Groups(rows, order, |order|) == []
  {
  }
}

/** The sliding window over the lengths of splits that decides which splits share a document. */
module SplitWindows {

  datatype Window = Window(lo: nat, hi: nat)

  /** The sizes that steer the merge: chunk size, overlap, separator length. */
  datatype Sizes = Sizes(chunk: nat, overlap: nat, sep: nat)

  /** Length of the join of the splits `lo` to `hi`. */
  function Width(lens: seq<nat>, lo: nat, hi: nat, sep: nat): nat
    requires lo <= hi <= |lens|
    decreases hi
  {
    if lo == hi then 0
    else if lo + 1 == hi then lens[lo]
    else Width(lens, lo, hi - 1, sep) + sep + lens[hi - 1]
  }

  lemma {:induction false} WidthFront(lens: seq<nat>, lo: nat, hi: nat, sep: nat)
    requires lo < hi <= |lens|
    ensures Width(lens, lo, hi, sep) == lens[lo] + (if hi - lo > 1 then sep else 0) + Width(lens, lo + 1, hi, sep)
    decreases hi
  {
    if lo + 2 < hi {
      WidthFront(lens, lo, hi - 1, sep);
    }
  }

  predicate Full(lens: seq<nat>, z: Sizes, lo: nat, k: nat)
    requires lo <= k < |lens|
  {
    lo < k && Width(lens, lo, k, z.sep) + lens[k] + z.sep > z.chunk
  }

  predicate MustDrop(lens: seq<nat>, z: Sizes, lo: nat, k: nat)
    requires lo <= k < |lens|
  {
    var total := Width(lens, lo, k, z.sep);
    total > z.overlap || (total + lens[k] > z.chunk && total > 0)
  }

  /** The start that is left after dropping splits from the front. */
  function DropFront(lens: seq<nat>, z: Sizes, lo: nat, k: nat): (r: nat)
    requires lo <= k < |lens|
    ensures lo <= r <= k && !MustDrop(lens, z, r, k)
    ensures forall j | lo <= j < r :: MustDrop(lens, z, j, k)
    decreases k - lo
  {
    if lo < k && MustDrop(lens, z, lo, k) then DropFront(lens, z, lo + 1, k) else lo
  }

  /** The windows emitted from split `k` on, when the current window is `lo` to `k`. */
  function Scan(lens: seq<nat>, z: Sizes, lo: nat, k: nat): seq<Window>
    requires lo <= k <= |lens|
    decreases |lens| - k
  {
    if k == |lens| then [Window(lo, k)]
    else if Full(lens, z, lo, k) then [Window(lo, k)] + Scan(lens, z, DropFront(lens, z, lo, k), k + 1)
    else Scan(lens, z, lo, k + 1)
  }

  ghost predicate Bounds(lens: seq<nat>, ws: seq<Window>) {
    forall i | 0 <= i < |ws| :: ws[i].lo <= ws[i].hi <= |lens|
  }

  /** What consecutive windows have to do with each other: the first one had no room for the split behind it,
      and the second keeps the longest tail of it that fits the overlap and leaves room for that split. */
  ghost predicate Linked(lens: seq<nat>, z: Sizes, v: Window, w: Window) {
    && v.lo <= w.lo <= v.hi < w.hi <= |lens|
    && Width(lens, w.lo, v.hi, z.sep) <= z.overlap
    && Full(lens, z, v.lo, v.hi)
    && !MustDrop(lens, z, w.lo, v.hi) && (forall j | v.lo <= j < w.lo :: MustDrop(lens, z, j, v.hi))
  }

  /** The windows cover the splits in order, without a gap, sharing at most the overlap. */
  ghost predicate Tiles(lens: seq<nat>, z: Sizes, ws: seq<Window>, from: nat) {
    && ws != [] && Bounds(lens, ws) && ws[0].lo == from && ws[|ws| - 1].hi == |lens|
    && forall i | 0 <= i < |ws| - 1 :: Linked(lens, z, ws[i], ws[i + 1])
  }

  lemma {:induction false} ScanTiles(lens: seq<nat>, z: Sizes, lo: nat, k: nat)
    requires lo <= k <= |lens|
    ensures var ws := Scan(lens, z, lo, k); Tiles(lens, z, ws, lo) && ws[0].hi >= k
    decreases |lens| - k
  {
    if k < |lens| {
      if Full(lens, z, lo, k) {
        var next := DropFront(lens, z, lo, k);
        ScanTiles(lens, z, next, k + 1);
        var rest := Scan(lens, z, next, k + 1);
        var ws := [Window(lo, k)] + rest;
        forall i | 0 <= i < |ws| - 1 ensures Linked(lens, z, ws[i], ws[i + 1]) {
          if i > 0 {
            assert Linked(lens, z, rest[i - 1], rest[i]);
          }
        }
      } else {
        ScanTiles(lens, z, lo, k + 1);
      }
    }
  }

  ghost predicate Within(lens: seq<nat>, z: Sizes, ws: seq<Window>, bound: int) {
    Bounds(lens, ws) && forall i | 0 <= i < |ws| :: Width(lens, ws[i].lo, ws[i].hi, z.sep) <= bound
  }

  /** No document is longer than the chunk size plus one separator. */
  lemma {:induction false} ScanWithin(lens: seq<nat>, z: Sizes, lo: nat, k: nat)
    requires lo <= k <= |lens| && Width(lens, lo, k, z.sep) <= z.chunk + z.sep
    requires forall i | 0 <= i < |lens| :: lens[i] <= z.chunk
    ensures Within(lens, z, Scan(lens, z, lo, k), z.chunk + z.sep)
    decreases |lens| - k
  {
    if k < |lens| {
      var next := if Full(lens, z, lo, k) then DropFront(lens, z, lo, k) else lo;
      ScanWithin(lens, z, next, k + 1);
    }
  }

  // ----- when documents really stay within the chunk size

  ghost predicate Splits(lens: seq<nat>, z: Sizes) {
    forall i | 0 <= i < |lens| :: 1 <= lens[i] <= z.chunk
  }

  /** The documented promise for these sizes, read as "at most": no document longer than the chunk size. */
  ghost predicate KeepsChunkSize(z: Sizes) {
    forall lens: seq<nat> | Splits(lens, z) :: Within(lens, z, Scan(lens, z, 0, 0), z.chunk)
  }

  predicate NoOverrun(z: Sizes) {
    z.sep == 0 || z.overlap == 0 || z.chunk <= 1
  }

  lemma {:induction false} WidthPositive(lens: seq<nat>, lo: nat, hi: nat, sep: nat)
    requires lo < hi <= |lens| && forall i | 0 <= i < |lens| :: 1 <= lens[i]
    ensures Width(lens, lo, hi, sep) >= 1
  {
  }

  lemma {:induction false} ScanKeepsChunkSize(lens: seq<nat>, z: Sizes, lo: nat, k: nat)
    requires NoOverrun(z) && Splits(lens, z)
    requires lo <= k <= |lens| && Width(lens, lo, k, z.sep) <= z.chunk
    ensures Within(lens, z, Scan(lens, z, lo, k), z.chunk)
    decreases |lens| - k
  {
    if k < |lens| {
      var next := if Full(lens, z, lo, k) then DropFront(lens, z, lo, k) else lo;
      if next < k {
        WidthPositive(lens, next, k, z.sep);
      }
      ScanKeepsChunkSize(lens, z, next, k + 1);
    }
  }

  /** With a separator, an overlap and room for two splits, two splits overrun the chunk size. */
  lemma Overruns(z: Sizes)
    requires !NoOverrun(z)
    ensures Splits([1, z.chunk - 1], z)
    ensures Scan([1, z.chunk - 1], z, 0, 0) == [Window(0, 1), Window(0, 2)]
    ensures Width([1, z.chunk - 1], 0, 2, z.sep) == z.chunk + z.sep
  {
    var lens: seq<nat> := [1, z.chunk - 1];
    assert Width(lens, 0, 1, z.sep) == 1;
    assert Full(lens, z, 0, 1) && !MustDrop(lens, z, 0, 1);
    assert Scan(lens, z, 0, 2) == [Window(0, 2)];
    assert Scan(lens, z, 0, 1) == [Window(0, 1)] + Scan(lens, z, 0, 2);
  }

  /** The promise holds for exactly these sizes. */
  lemma ChunkSizeExactly(z: Sizes)
    ensures KeepsChunkSize(z) <==> NoOverrun(z)
  {
    if NoOverrun(z) {
      forall lens: seq<nat> | Splits(lens, z) ensures Within(lens, z, Scan(lens, z, 0, 0), z.chunk) {
        ScanKeepsChunkSize(lens, z, 0, 0);
      }
    } else {
      Overruns(z);
      var lens: seq<nat> := [1, z.chunk - 1];
      var ws := Scan(lens, z, 0, 0);
      assert ws[1] == Window(0, 2);
      assert !Within(lens, z, ws, z.chunk);
    }
  }

  // ----- windows without overlap

  /** The windows follow each other without sharing a split. */
  ghost predicate Adjacent(ws: seq<Window>, from: nat, to: nat) {
    if ws == [] then from == to
    else ws[0].lo == from && from <= ws[0].hi && Adjacent(ws[1..], ws[0].hi, to)
  }

  lemma {:induction false} AdjacentForward(ws: seq<Window>, from: nat, to: nat)
    requires Adjacent(ws, from, to)
    ensures from <= to
    decreases |ws|
  {
    if ws != [] {
      AdjacentForward(ws[1..], ws[0].hi, to);
    }
  }

  /** Without overlap nothing but empty splits survives the trimming loop. */
  lemma DropsAll(lens: seq<nat>, z: Sizes, lo: nat, k: nat)
    requires lo <= k < |lens| && z.overlap == 0 && forall i | 0 <= i < |lens| :: 1 <= lens[i]
    ensures DropFront(lens, z, lo, k) == k
  {
    var next := DropFront(lens, z, lo, k);
    if next < k {
      WidthPositive(lens, next, k, z.sep);
    }
  }

  lemma {:induction false} ScanAdjacent(lens: seq<nat>, z: Sizes, lo: nat, k: nat)
    requires z.overlap == 0 && lo <= k <= |lens| && forall i | 0 <= i < |lens| :: 1 <= lens[i]
    ensures Adjacent(Scan(lens, z, lo, k), lo, |lens|)
    decreases |lens| - k
  {
    if k == |lens| {
      assert Scan(lens, z, lo, k)[1..] == [];
    } else if Full(lens, z, lo, k) {
      DropsAll(lens, z, lo, k);
      ScanAdjacent(lens, z, k, k + 1);
      assert Scan(lens, z, lo, k)[1..] == Scan(lens, z, k, k + 1);
    } else {
      ScanAdjacent(lens, z, lo, k + 1);
    }
  }

  // ----- documents shorter than the chunk size

  /** What the recursive splitter merges: splits shorter than the chunk size, at least one. */
  ghost predicate ShortSplits(lens: seq<nat>, z: Sizes) {
    lens != [] && forall i | 0 <= i < |lens| :: 1 <= lens[i] < z.chunk
  }

  /** The documented promise as it is worded: every document shorter than the chunk size. */
  ghost predicate KeepsBelow(z: Sizes) {
    forall lens: seq<nat> | ShortSplits(lens, z) :: Within(lens, z, Scan(lens, z, 0, 0), z.chunk - 1)
  }

  /** No two splits ever share a document, or there is nothing to merge. */
  predicate NeverTwo(z: Sizes) {
    z.chunk <= 1 || (z.chunk < z.sep + 2 && z.overlap == 0)
  }

  lemma {:induction false} ScanSingles(lens: seq<nat>, z: Sizes, lo: nat, k: nat)
    requires z.chunk < z.sep + 2 && z.overlap == 0 && ShortSplits(lens, z) && lo <= k <= |lens| && k - lo <= 1
    ensures Within(lens, z, Scan(lens, z, lo, k), z.chunk - 1)
    decreases |lens| - k
  {
    assert 1 <= lens[0] < z.chunk;
    if k < |lens| {
      assert lo < k ==> Full(lens, z, lo, k);
      DropsAll(lens, z, lo, k);
      ScanSingles(lens, z, k, k + 1);
    }
  }

  /** Two splits and a separator that fill the chunk size make one document of exactly that size. */
  lemma Fills(z: Sizes)
    requires z.chunk >= z.sep + 2
    ensures Scan([1, z.chunk - z.sep - 1], z, 0, 0) == [Window(0, 2)]
    ensures Width([1, z.chunk - z.sep - 1], 0, 2, z.sep) == z.chunk
  {
    var lens: seq<nat> := [1, z.chunk - z.sep - 1];
    assert Width(lens, 0, 1, z.sep) == 1;
    assert !Full(lens, z, 0, 1) && Scan(lens, z, 0, 1) == Scan(lens, z, 0, 2);
  }

  /** The worded promise holds for exactly these sizes. */
  lemma BelowChunkExactly(z: Sizes)
    ensures KeepsBelow(z) <==> NeverTwo(z)
  {
    if NeverTwo(z) {
      forall lens: seq<nat> | ShortSplits(lens, z) ensures Within(lens, z, Scan(lens, z, 0, 0), z.chunk - 1) {
        assert 1 <= lens[0] < z.chunk;
        ScanSingles(lens, z, 0, 0);
      }
    } else {
      var long := if z.chunk >= z.sep + 2 then z.chunk - z.sep - 1 else z.chunk - 1;
      var lens: seq<nat> := [1, long];
      var ws := Scan(lens, z, 0, 0);
      assert ws[|ws| - 1] == Window(0, 2) && Width(lens, 0, 2, z.sep) >= z.chunk by {
        if z.chunk >= z.sep + 2 {
          Fills(z);
        } else {
          Overruns(z);
        }
      }
      assert ShortSplits(lens, z) && !Within(lens, z, ws, z.chunk - 1);
    }
  }
}

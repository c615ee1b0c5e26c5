/** The places where a pair stands in a list of chunks, and which pair has the most of them. */
module PairPlaces {
  import opened BytePairMerging
  import opened PairStatistics

  datatype Place = Place(chunk: int, index: int)

  /** Chunk after chunk, left to right. */
  predicate Before(a: Place, b: Place) {
    a.chunk < b.chunk || (a.chunk == b.chunk && a.index < b.index)
  }

  predicate Stands(chunks: seq<seq<int>>, p: Pair, at: Place) {
    0 <= at.chunk < |chunks| && At(chunks[at.chunk], p, at.index)
  }

  ghost function PlacesOf(chunks: seq<seq<int>>, p: Pair): set<Place> {
    set c, i | 0 <= c < |chunks| && 0 <= i < |chunks[c]| && Stands(chunks, p, Place(c, i)) :: Place(c, i)
  }

  ghost predicate MostFrequentAt(chunks: seq<seq<int>>, p: Pair, at: Place) {
    && Stands(chunks, p, at)
    && (forall q :: |PlacesOf(chunks, q)| <= |PlacesOf(chunks, p)|)
    && (forall q, b | q != p && Stands(chunks, q, b) ::
          |PlacesOf(chunks, q)| == |PlacesOf(chunks, p)| ==> Before(at, b))
  }

  /** No pair stands in more places, and of the pairs that stand in as many, `p` comes first. */
  ghost predicate MostFrequent(chunks: seq<seq<int>>, p: Pair) {
    exists at :: MostFrequentAt(chunks, p, at)
  }

  /** No chunk is long enough to hold a pair. */
  ghost predicate NoPairs(chunks: seq<seq<int>>) {
    forall c | 0 <= c < |chunks| :: |chunks[c]| < 2
  }

  /** At most one pair is the most frequent one. */
  lemma MostFrequentUnique(chunks: seq<seq<int>>, p: Pair, q: Pair)
    requires MostFrequent(chunks, p) && MostFrequent(chunks, q)
    ensures p == q
  {
    var a :| MostFrequentAt(chunks, p, a);
    var b :| MostFrequentAt(chunks, q, b);
    assert |PlacesOf(chunks, p)| == |PlacesOf(chunks, q)|;
  }

  // ----- the stream of pairs the statistics see

  /** The pairs of all chunks, chunk after chunk. */
  function AllPairs(chunks: seq<seq<int>>): seq<Pair> {
    if chunks == [] then [] else AllPairs(chunks[..|chunks| - 1]) + Pairs(chunks[|chunks| - 1])
  }

  function PlacesIn(c: int, n: nat): (r: seq<Place>)
    ensures |r| == n && forall i | 0 <= i < n :: r[i] == Place(c, i)
  {
    seq(n, i => Place(c, i))
  }

  /** The places of the pairs of the stream. */
  function AllPlaces(chunks: seq<seq<int>>): (r: seq<Place>)
    ensures |r| == |AllPairs(chunks)|
  {
    if chunks == [] then []
    else AllPlaces(chunks[..|chunks| - 1]) + PlacesIn(|chunks| - 1, |Pairs(chunks[|chunks| - 1])|)
  }

  /** The k-th pair of the stream stands at the k-th place. */
  lemma {:induction false} PairStands(chunks: seq<seq<int>>, k: nat)
    requires k < |AllPairs(chunks)|
    ensures Stands(chunks, AllPairs(chunks)[k], AllPlaces(chunks)[k])
  {
    var n := |chunks| - 1;
    if k < |AllPairs(chunks[..n])| {
      PairStands(chunks[..n], k);
    }
  }

  /** Places come in order. */
  lemma {:induction false} PlacesOrdered(chunks: seq<seq<int>>, k: nat, l: nat)
    requires k < l < |AllPairs(chunks)|
    ensures Before(AllPlaces(chunks)[k], AllPlaces(chunks)[l])
  {
    var n := |chunks| - 1;
    if l < |AllPairs(chunks[..n])| {
      PlacesOrdered(chunks[..n], k, l);
    } else if k < |AllPairs(chunks[..n])| {
      PairStands(chunks[..n], k);
    }
  }

  /** Every place is met. */
  lemma {:induction false} PlaceMet(chunks: seq<seq<int>>, p: Pair, at: Place) returns (k: nat)
    requires Stands(chunks, p, at)
    ensures k < |AllPairs(chunks)| && AllPairs(chunks)[k] == p && AllPlaces(chunks)[k] == at
    decreases |chunks|
  {
    var n := |chunks| - 1;
    if at.chunk < n {
      k := PlaceMet(chunks[..n], p, at);
    } else {
      k := |AllPairs(chunks[..n])| + at.index;
      assert Pairs(chunks[n])[at.index] == p;
    }
  }

  // ----- counting places

  /** The places of a pair among the first `m` indexes of one chunk. */
  ghost function PlacesUpTo(c: int, ids: seq<int>, p: Pair, m: int): set<Place> {
    set i | 0 <= i < m && At(ids, p, i) :: Place(c, i)
  }

  lemma CountNext(s: seq<Pair>, p: Pair, m: nat)
    requires 0 < m <= |s|
    ensures multiset(s[..m])[p] == multiset(s[..m - 1])[p] + if s[m - 1] == p then 1 else 0
  {
    assert s[..m] == s[..m - 1] + [s[m - 1]];
  }

  lemma NextPlace(c: int, ids: seq<int>, p: Pair, m: nat)
    requires m > 0
    ensures |PlacesUpTo(c, ids, p, m)| == |PlacesUpTo(c, ids, p, m - 1)| + if At(ids, p, m - 1) then 1 else 0
  {
    var before, last := PlacesUpTo(c, ids, p, m - 1), Place(c, m - 1);
    assert last !in before;
    if At(ids, p, m - 1) {
      assert PlacesUpTo(c, ids, p, m) == before + {last};
    } else {
      assert PlacesUpTo(c, ids, p, m) == before;
    }
  }

  lemma {:induction false} CountUpTo(c: int, ids: seq<int>, p: Pair, m: nat)
    requires m <= |Pairs(ids)|
    ensures |PlacesUpTo(c, ids, p, m)| == multiset(Pairs(ids)[..m])[p]
  {
    if m > 0 {
      CountUpTo(c, ids, p, m - 1);
      CountNext(Pairs(ids), p, m);
      NextPlace(c, ids, p, m);
    }
  }

  /** The stream holds a pair as often as the pair has places. */
  lemma {:induction false} CountPlaces(chunks: seq<seq<int>>, p: Pair)
    ensures |PlacesOf(chunks, p)| == multiset(AllPairs(chunks))[p]
  {
    if chunks != [] {
      var n := |chunks| - 1;
      var ids := chunks[n];
      CountPlaces(chunks[..n], p);
      CountUpTo(n, ids, p, |Pairs(ids)|);
      assert Pairs(ids)[..|Pairs(ids)|] == Pairs(ids);
      LastPlaces(chunks, p);
    }
  }

  lemma LastPlaces(chunks: seq<seq<int>>, p: Pair)
    requires chunks != []
    ensures var n := |chunks| - 1;
      var there := PlacesUpTo(n, chunks[n], p, |Pairs(chunks[n])|);
      PlacesOf(chunks, p) == PlacesOf(chunks[..n], p) + there && PlacesOf(chunks[..n], p) !! there
  {
    var n := |chunks| - 1;
    var there := PlacesUpTo(n, chunks[n], p, |Pairs(chunks[n])|);
    forall at ensures at in PlacesOf(chunks, p) <==> at in PlacesOf(chunks[..n], p) || at in there {
      if at in PlacesOf(chunks, p) && at.chunk < n {
        assert Stands(chunks[..n], p, at) && at == Place(at.chunk, at.index);
      }
      if at in PlacesOf(chunks[..n], p) {
        assert Stands(chunks, p, at) && at == Place(at.chunk, at.index);
      }
      if at in there {
        assert Stands(chunks, p, at) && at == Place(at.chunk, at.index);
      }
    }
  }

  lemma TopHasMost(chunks: seq<seq<int>>, p: Pair, q: Pair)
    requires Top(AllPairs(chunks), p)
    ensures |PlacesOf(chunks, q)| <= |PlacesOf(chunks, p)|
  {
    var s := AllPairs(chunks);
    CountPlaces(chunks, p);
    CountPlaces(chunks, q);
    if q in s {
      var j :| 0 <= j < |s| && s[j] == q;
      assert multiset(s)[s[j]] <= multiset(s)[p];
    }
  }

  lemma TopComesFirst(chunks: seq<seq<int>>, p: Pair, k: nat, q: Pair, b: Place)
    requires TopAt(AllPairs(chunks), p, k) && q != p && Stands(chunks, q, b)
    requires |PlacesOf(chunks, q)| == |PlacesOf(chunks, p)|
    ensures Before(AllPlaces(chunks)[k], b)
  {
    CountPlaces(chunks, p);
    CountPlaces(chunks, q);
    var j := PlaceMet(chunks, q, b);
    PlacesOrdered(chunks, k, j);
  }

  /** The top pair of the stream is the most frequent pair of the chunks. */
  lemma TopIsMostFrequent(chunks: seq<seq<int>>, p: Pair)
    requires Top(AllPairs(chunks), p)
    ensures MostFrequent(chunks, p)
  {
    var k :| TopAt(AllPairs(chunks), p, k);
    var at := AllPlaces(chunks)[k];
    PairStands(chunks, k);
    forall q ensures |PlacesOf(chunks, q)| <= |PlacesOf(chunks, p)| {
      TopHasMost(chunks, p, q);
    }
    forall q, b | q != p && Stands(chunks, q, b) && |PlacesOf(chunks, q)| == |PlacesOf(chunks, p)|
      ensures Before(at, b)
    {
      TopComesFirst(chunks, p, k, q, b);
    }
    assert MostFrequentAt(chunks, p, at);
  }

  lemma NoPairAnywhere(chunks: seq<seq<int>>)
    requires AllPairs(chunks) == []
    ensures NoPairs(chunks)
  {
    forall c | 0 <= c < |chunks| ensures |chunks[c]| < 2 {
      if |chunks[c]| >= 2 {
        var k := PlaceMet(chunks, Pair(chunks[c][0], chunks[c][1]), Place(c, 0));
      }
    }
  }
}

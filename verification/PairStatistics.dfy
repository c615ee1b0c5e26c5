/** Counting adjacent pairs and choosing the next one to merge. */
module PairStatistics {
  import opened BytePairMerging
  import opened OrderedMaps
  import opened Wrappers

  type Stats = OrderedMap<Pair, int>

  /** The adjacent pairs of `ids`, overlapping ones included, left to right. */
  function Pairs(ids: seq<int>): (r: seq<Pair>)
    ensures |r| == if ids == [] then 0 else |ids| - 1
    ensures forall i | 0 <= i < |r| :: At(ids, r[i], i)
  {
    if ids == [] then [] else seq(|ids| - 1, i requires 0 <= i < |ids| - 1 => Pair(ids[i], ids[i + 1]))
  }

  lemma PairsOccur(ids: seq<int>, p: Pair)
    ensures p in Pairs(ids) <==> Occurs(ids, p)
  {
    if i :| At(ids, p, i) {
      assert Pairs(ids)[i] == p;
    }
    if p in Pairs(ids) {
      var i :| 0 <= i < |Pairs(ids)| && Pairs(ids)[i] == p;
      assert At(ids, p, i);
    }
  }

  /** The elements of `s` in the order of their first occurrence. */
  ghost function Distinct(s: seq<Pair>): (r: seq<Pair>)
    ensures forall p :: p in r <==> p in s
  {
    if s == [] then []
    else
      var before, x := s[..|s| - 1], s[|s| - 1];
      assert s == before + [x];
      if x in before then Distinct(before) else Distinct(before) + [x]
  }

  /** `stats` tallies the stream of pairs `s`. */
  ghost predicate StatsOf(stats: Stats, s: seq<Pair>) {
    && stats.Valid()
    && stats.keys == Distinct(s)
    && forall p | p in stats.at :: stats.at[p] == multiset(s)[p]
  }

  /** One round of the counting loop. */
  function Tally(stats: Stats, p: Pair): Stats {
    stats.Put(p, if p in stats.at then stats.at[p] + 1 else 1)
  }

  lemma TallyKeepsStats(stats: Stats, s: seq<Pair>, p: Pair)
    requires StatsOf(stats, s)
    ensures StatsOf(Tally(stats, p), s + [p])
  {
    assert (s + [p])[..|s|] == s;
    assert p in stats.at <==> p in Distinct(s);
    var r := Tally(stats, p);
    assert multiset(s + [p]) == multiset(s) + multiset{p};
    assert p !in s ==> multiset(s)[p] == 0;
    forall q | q in r.at ensures r.at[q] == multiset(s + [p])[q] {
    }
  }

  function TallyAll(stats: Stats, s: seq<Pair>): Stats {
    if s == [] then stats else Tally(TallyAll(stats, s[..|s| - 1]), s[|s| - 1])
  }

  lemma {:induction false} TallyAllKeepsStats(stats: Stats, seen: seq<Pair>, s: seq<Pair>)
    requires StatsOf(stats, seen)
    ensures StatsOf(TallyAll(stats, s), seen + s)
  {
    if s == [] {
      assert seen + s == seen;
    } else {
      var before, p := s[..|s| - 1], s[|s| - 1];
      TallyAllKeepsStats(stats, seen, before);
      TallyKeepsStats(TallyAll(stats, before), seen + before, p);
      assert seen + s == seen + before + [p];
    }
  }

  /** Adds the pairs of `ids` to `stats`; an empty list would read outside the vector. */
  method ComputePairsState(ids: seq<int>, stats: Stats) returns (r: Stats)
    requires ids != []
    ensures r == TallyAll(stats, Pairs(ids))
  {
    r := stats;
    ghost var all := Pairs(ids);
    for i := 0 to |ids| - 1
      invariant r == TallyAll(stats, all[..i])
    {
      var pair := Pair(ids[i], ids[i + 1]);
      assert all[..i + 1][..i] == all[..i];
      if pair in r.at {
        r := r.Put(pair, r.at[pair] + 1);
      } else {
        r := r.Put(pair, 1);
      }
    }
    assert all[..|ids| - 1] == all;
  }

  /** `p` is the most frequent pair of `s`; among equally frequent ones, the earliest seen. */
  ghost predicate TopAt(s: seq<Pair>, p: Pair, i: int) {
    && 0 <= i < |s| && s[i] == p
    && (forall j | 0 <= j < |s| :: multiset(s)[s[j]] <= multiset(s)[p])
    && (forall j | 0 <= j < i :: multiset(s)[s[j]] < multiset(s)[p])
  }

  ghost predicate Top(s: seq<Pair>, p: Pair) {
    exists i :: TopAt(s, p, i)
  }

  lemma {:induction false} DistinctPrefix(s: seq<Pair>, b: nat) returns (i: nat)
    requires b < |Distinct(s)|
    ensures i < |s| && s[i] == Distinct(s)[b]
    ensures forall j | 0 <= j < i :: s[j] in Distinct(s)[..b]
  {
    var before := s[..|s| - 1];
    if b < |Distinct(before)| {
      i := DistinctPrefix(before, b);
      assert Distinct(s)[..b] == Distinct(before)[..b];
    } else {
      i := |s| - 1;
      assert Distinct(s)[..b] == Distinct(before);
      assert forall j | 0 <= j < i :: s[j] == before[j];
    }
  }

  ghost predicate FirstMaximum(stats: Stats, b: int) {
    && stats.Valid() && 0 <= b < |stats.keys|
    && (forall j | 0 <= j < |stats.keys| :: stats.at[stats.keys[j]] <= stats.at[stats.keys[b]])
    && (forall j | 0 <= j < b :: stats.at[stats.keys[j]] < stats.at[stats.keys[b]])
  }

  lemma FirstMaximumIsTop(stats: Stats, s: seq<Pair>, b: nat)
    requires StatsOf(stats, s) && FirstMaximum(stats, b)
    ensures Top(s, stats.keys[b])
  {
    var p := stats.keys[b];
    var i := DistinctPrefix(s, b);
    forall j | 0 <= j < |s| ensures multiset(s)[s[j]] <= multiset(s)[p] {
      assert s[j] in Distinct(s);
    }
    forall j | 0 <= j < i ensures multiset(s)[s[j]] < multiset(s)[p] {
      assert s[j] in Distinct(s)[..b];
    }
    assert TopAt(s, p, i);
  }

  /** Scans the tallies in insertion order with a strict comparison. */
  method MaxIndex(stats: Stats) returns (b: nat)
    requires stats.Valid() && stats.keys != []
    ensures FirstMaximum(stats, b)
  {
    b := 0;
    for k := 1 to |stats.keys|
      invariant 0 <= b < k
      invariant forall j | 0 <= j < k :: stats.at[stats.keys[j]] <= stats.at[stats.keys[b]]
      invariant forall j | 0 <= j < b :: stats.at[stats.keys[j]] < stats.at[stats.keys[b]]
    {
      if stats.at[stats.keys[k]] > stats.at[stats.keys[b]] {
        b := k;
      }
    }
  }

  method GetMaxPair(stats: Stats, ghost s: seq<Pair>) returns (best: Pair)
    requires StatsOf(stats, s) && stats.keys != []
    ensures Top(s, best)
  {
    var b := MaxIndex(stats);
    FirstMaximumIsTop(stats, s, b);
    best := stats.keys[b];
  }

  /** `p` has the lowest rank among the eligible `keys`. */
  ghost predicate LowestAmong(keys: seq<Pair>, m: Merges, p: Pair) {
    p in keys && Eligible(m, p) && forall j | 0 <= j < |keys| && keys[j] in m :: m[p] <= m[keys[j]]
  }

  /** Scans the keys for the entry of lowest rank, starting from INT32_MAX. */
  method PickLowestKey(keys: seq<Pair>, m: Merges) returns (pick: Option<Pair>)
    ensures pick.Some? ==> LowestAmong(keys, m, pick.value)
    ensures pick.None? ==> forall j | 0 <= j < |keys| :: !Eligible(m, keys[j])
  {
    pick := None;
    var min := INT32_MAX;
    for k := 0 to |keys|
      invariant pick.Some? ==> pick.value in keys && Eligible(m, pick.value) && min == m[pick.value]
      invariant pick.None? ==> min == INT32_MAX
      invariant forall j | 0 <= j < k && keys[j] in m :: min <= m[keys[j]]
    {
      if keys[k] in m && m[keys[k]] < min {
        min := m[keys[k]];
        pick := Some(keys[k]);
      }
    }
  }

  method PickLowest(stats: Stats, m: Merges, ids: seq<int>) returns (pick: Option<Pair>)
    requires StatsOf(stats, Pairs(ids))
    ensures pick.Some? ==> LowestPresent(ids, m, pick.value)
    ensures pick.None? ==> forall p | Eligible(m, p) :: !Occurs(ids, p)
  {
    pick := PickLowestKey(stats.keys, m);
    forall p ensures p in stats.keys <==> Occurs(ids, p) {
      PairsOccur(ids, p);
    }
  }
}

/** The pair merge at the heart of byte-pair encoding, and replaying a list of merges. */
module BytePairMerging {
  import opened ByteStrings

  datatype Pair = Pair(first: int, second: int)

  /** `p` stands at position `i` of `ids`. */
  predicate At(ids: seq<int>, p: Pair, i: int) {
    0 <= i < |ids| - 1 && ids[i] == p.first && ids[i + 1] == p.second
  }

  ghost predicate Occurs(ids: seq<int>, p: Pair) {
    exists i :: At(ids, p, i)
  }

  /** Left-to-right replacement of the non-overlapping occurrences of `p` by `idx`. */
  function Merge(ids: seq<int>, p: Pair, idx: int): (r: seq<int>)
    ensures |r| <= |ids|
  {
    if |ids| < 2 then ids
    else if At(ids, p, 0) then [idx] + Merge(ids[2..], p, idx)
    else [ids[0]] + Merge(ids[1..], p, idx)
  }

  /** The in-place loop: erase two ids, insert one, step past it. */
  method MergeInPlace(input: seq<int>, p: Pair, idx: int) returns (ids: seq<int>)
    ensures ids == Merge(input, p, idx)
  {
    ids := input;
    var i := 0;
    ghost var done, rest := [], input;
    while i != |ids|
      invariant ids == done + rest && |done| == i
      invariant done + Merge(rest, p, idx) == Merge(input, p, idx)
      decreases |rest|
    {
      MergeFront(done, rest, p, idx);
      if ids[i] == p.first && i + 1 != |ids| && ids[i + 1] == p.second {
        EraseInsert(done, rest, idx);
        ids := ids[..i] + ids[i + 2..];
        ids := ids[..i] + [idx] + ids[i..];
        done, rest := done + [idx], rest[2..];
      } else {
        done, rest := done + [rest[0]], rest[1..];
      }
      i := i + 1;
    }
  }

  lemma MergeFront(done: seq<int>, rest: seq<int>, p: Pair, idx: int)
    requires rest != []
    ensures if At(rest, p, 0) then done + Merge(rest, p, idx) == done + [idx] + Merge(rest[2..], p, idx)
            else done + Merge(rest, p, idx) == done + [rest[0]] + Merge(rest[1..], p, idx)
  {
    assert |rest| == 1 ==> rest == [rest[0]] + rest[1..];
  }

  lemma EraseInsert(done: seq<int>, rest: seq<int>, idx: int)
    requires |rest| >= 2
    ensures var i, ids := |done|, done + rest;
            var erased := ids[..i] + ids[i + 2..];
            erased[..i] + [idx] + erased[i..] == done + [idx] + rest[2..]
  {
    var i, ids := |done|, done + rest;
    assert ids[..i] == done && ids[i + 2..] == rest[2..];
    assert (done + rest[2..])[..i] == done && (done + rest[2..])[i..] == rest[2..];
  }

  lemma {:induction false} MergeAbsent(ids: seq<int>, p: Pair, idx: int)
    requires !Occurs(ids, p)
    ensures Merge(ids, p, idx) == ids
  {
    if |ids| >= 2 {
      assert !At(ids, p, 0);
      forall i | At(ids[1..], p, i) ensures false {
        assert At(ids, p, i + 1);
      }
      MergeAbsent(ids[1..], p, idx);
    }
  }

  /** The leftmost occurrence is replaced first; merging goes on behind it. */
  lemma {:induction false} MergeLeftmost(ids: seq<int>, p: Pair, idx: int, i: nat)
    requires At(ids, p, i) && forall j | 0 <= j < i :: !At(ids, p, j)
    ensures Merge(ids, p, idx) == ids[..i] + [idx] + Merge(ids[i + 2..], p, idx)
  {
    if i > 0 {
      assert !At(ids, p, 0);
      forall j | 0 <= j < i - 1 ensures !At(ids[1..], p, j) {
        assert !At(ids, p, j + 1);
      }
      assert At(ids[1..], p, i - 1);
      MergeLeftmost(ids[1..], p, idx, i - 1);
      assert ids[1..][i - 1 + 2..] == ids[i + 2..];
      assert [ids[0]] + ids[1..][..i - 1] == ids[..i];
    }
  }

  lemma {:induction false} MergeShortens(ids: seq<int>, p: Pair, idx: int)
    requires Occurs(ids, p)
    ensures |Merge(ids, p, idx)| < |ids|
  {
    if !At(ids, p, 0) {
      var i :| At(ids, p, i);
      assert At(ids[1..], p, i - 1);
      MergeShortens(ids[1..], p, idx);
    }
  }

  lemma MergeHead(ids: seq<int>, p: Pair, idx: int)
    requires ids != []
    ensures var r := Merge(ids, p, idx); r != [] && (r[0] == ids[0] || (At(ids, p, 0) && r[0] == idx))
  {
  }

  /** Every adjacent pair of the result mentions the new id or was adjacent before. */
  lemma {:induction false} MergePairs(ids: seq<int>, p: Pair, idx: int, q: Pair)
    requires Occurs(Merge(ids, p, idx), q)
    requires q.first != idx && q.second != idx
    ensures Occurs(ids, q)
  {
    var r := Merge(ids, p, idx);
    var i :| At(r, q, i);
    if |ids| < 2 {
    } else {
      var k := if At(ids, p, 0) then 2 else 1;
      var rest := ids[k..];
      var tail := Merge(rest, p, idx);
      if i > 0 {
        assert At(tail, q, i - 1);
        MergePairs(rest, p, idx, q);
        var j :| At(rest, q, j);
        assert At(ids, q, j + k);
      } else {
        MergeHead(rest, p, idx);
        assert At(ids, q, 0);
      }
    }
  }

  /** No occurrence of the pair survives when the new id is in neither position. */
  lemma {:induction false} MergeRemoves(ids: seq<int>, p: Pair, idx: int)
    requires idx != p.first && idx != p.second
    ensures !Occurs(Merge(ids, p, idx), p)
  {
    var r := Merge(ids, p, idx);
    if i :| At(r, p, i) {
      if |ids| >= 2 {
        var rest := if At(ids, p, 0) then ids[2..] else ids[1..];
        MergeRemoves(rest, p, idx);
        if i > 0 {
          assert At(Merge(rest, p, idx), p, i - 1);
        } else {
          MergeHead(rest, p, idx);
        }
      }
      assert false;
    }
  }

  ghost predicate Known<T>(vocab: map<int, seq<T>>, ids: seq<int>) {
    forall i | 0 <= i < |ids| :: ids[i] in vocab
  }

  /** Byte expansion of a list of ids under a vocabulary. */
  function Expand<T>(vocab: map<int, seq<T>>, ids: seq<int>): (r: seq<T>)
    requires Known(vocab, ids)
  {
    if ids == [] then [] else vocab[ids[0]] + Expand(vocab, ids[1..])
  }

  lemma {:induction false} ExpandConcat<T>(vocab: map<int, seq<T>>, a: seq<int>, b: seq<int>)
    requires Known(vocab, a) && Known(vocab, b)
    ensures Known(vocab, a + b)
    ensures Expand(vocab, a + b) == Expand(vocab, a) + Expand(vocab, b)
  {
    if a == [] {
      assert a + b == b;
    } else {
      assert (a + b)[1..] == a[1..] + b;
      ExpandConcat(vocab, a[1..], b);
    }
  }

  /** Merging keeps the byte expansion when the new id expands to its two parts. */
  lemma {:induction false} MergeKeepsExpansion<T>(vocab: map<int, seq<T>>, ids: seq<int>, p: Pair, idx: int)
    requires Known(vocab, ids)
    requires Occurs(ids, p) ==> idx in vocab && vocab[idx] == vocab[p.first] + vocab[p.second]
    ensures Known(vocab, Merge(ids, p, idx))
    ensures Expand(vocab, Merge(ids, p, idx)) == Expand(vocab, ids)
  {
    if |ids| >= 2 {
      var k := if At(ids, p, 0) then 2 else 1;
      var rest := ids[k..];
      if i :| At(rest, p, i) {
        assert At(ids, p, i + k);
      }
      MergeKeepsExpansion(vocab, rest, p, idx);
      if k == 2 {
        assert ids[1..][1..] == rest;
        assert Expand(vocab, ids) == vocab[ids[0]] + (vocab[ids[1]] + Expand(vocab, rest));
      }
    }
  }

  // ----- merge tables

  const INT32_MAX := 0x7fff_ffff

  type Merges = map<Pair, int>

  /** What training and rank recovery establish: sources below the target, targets distinct. */
  ghost predicate RankedTable(m: Merges) {
    && (forall p | p in m :: p.first < m[p] && p.second < m[p])
    && (forall p, q | p in m && q in m && m[p] == m[q] :: p == q)
  }

  /** The pairs the encoder can pick: the search starts from INT32_MAX with a strict test. */
  predicate Eligible(m: Merges, p: Pair) {
    p in m && m[p] < INT32_MAX
  }

  /** `order` lists exactly the eligible pairs, by increasing rank. */
  ghost predicate RankOrder(order: seq<Pair>, m: Merges) {
    && (forall i | 0 <= i < |order| :: Eligible(m, order[i]))
    && (forall p | Eligible(m, p) :: p in order)
    && (forall i, j | 0 <= i < j < |order| :: m[order[i]] < m[order[j]])
  }

  /** Applies every merge of `order`, one after the other. */
  function Replay(ids: seq<int>, order: seq<Pair>, m: Merges): seq<int>
    requires forall p | p in order :: p in m
    decreases |order|
  {
    if order == [] then ids else Replay(Merge(ids, order[0], m[order[0]]), order[1..], m)
  }

  lemma {:induction false} ReplaySkip(ids: seq<int>, a: seq<Pair>, b: seq<Pair>, m: Merges)
    requires forall p | p in a + b :: p in m
    requires forall i | 0 <= i < |a| :: !Occurs(ids, a[i])
    ensures forall p | p in b :: p in m
    ensures Replay(ids, a + b, m) == Replay(ids, b, m)
  {
    if a == [] {
      assert a + b == b;
    } else {
      assert a[0] == (a + b)[0];
      MergeAbsent(ids, a[0], m[a[0]]);
      assert (a + b)[1..] == a[1..] + b;
      ReplaySkip(ids, a[1..], b, m);
    }
  }

  lemma {:induction false} ReplayConcat(ids: seq<int>, a: seq<Pair>, b: seq<Pair>, m: Merges)
    requires forall p | p in a + b :: p in m
    ensures (forall p | p in a :: p in m) && (forall p | p in b :: p in m)
    ensures Replay(ids, a + b, m) == Replay(Replay(ids, a, m), b, m)
    decreases |a|
  {
    assert forall p | p in a :: p in a + b;
    assert forall p | p in b :: p in a + b;
    if a == [] {
      assert a + b == b;
    } else {
      assert (a + b)[1..] == a[1..] + b;
      ReplayConcat(Merge(ids, a[0], m[a[0]]), a[1..], b, m);
    }
  }

  /** `p` is the lowest-ranked eligible pair standing in `ids`. */
  ghost predicate LowestPresent(ids: seq<int>, m: Merges, p: Pair) {
    && Eligible(m, p) && Occurs(ids, p)
    && forall q | Eligible(m, q) && Occurs(ids, q) :: m[p] <= m[q]
  }

  lemma LowerRankAbsent(ids: seq<int>, m: Merges, p: Pair, q: Pair)
    requires RankedTable(m) && LowestPresent(ids, m, p) && Eligible(m, q) && m[q] < m[p]
    ensures !Occurs(ids, q) && !Occurs(Merge(ids, p, m[p]), q)
  {
    if Occurs(Merge(ids, p, m[p]), q) {
      MergePairs(ids, p, m[p], q);
    }
  }

  /** One greedy step leaves the result of replaying the whole table unchanged. */
  lemma {:induction false} GreedyStep(ids: seq<int>, m: Merges, p: Pair, order: seq<Pair>)
    requires RankedTable(m) && RankOrder(order, m) && LowestPresent(ids, m, p)
    ensures Replay(Merge(ids, p, m[p]), order, m) == Replay(ids, order, m)
  {
    var k :| 0 <= k < |order| && order[k] == p;
    var merged := Merge(ids, p, m[p]);
    var before, after := order[..k], order[k + 1..];
    forall i | 0 <= i < k ensures !Occurs(ids, before[i]) && !Occurs(merged, before[i]) {
      assert before[i] == order[i];
      LowerRankAbsent(ids, m, p, order[i]);
    }
    MergeRemoves(ids, p, m[p]);
    assert order == before + [p] + after;
    ReplayAround(ids, before, p, after, m);
    ReplayAround(merged, before, p, after, m);
    MergeAbsent(merged, p, m[p]);
  }

  lemma ReplayAround(ids: seq<int>, before: seq<Pair>, p: Pair, after: seq<Pair>, m: Merges)
    requires forall q | q in before + [p] + after :: q in m
    requires forall i | 0 <= i < |before| :: !Occurs(ids, before[i])
    ensures p in m && forall q | q in after :: q in m
    ensures Replay(ids, before + [p] + after, m) == Replay(Merge(ids, p, m[p]), after, m)
  {
    assert before + [p] + after == before + ([p] + after);
    ReplaySkip(ids, before, [p] + after, m);
    assert ([p] + after)[0] == p && ([p] + after)[1..] == after;
  }

  /** The eligible pairs of any ranked table can be listed by increasing rank. */
  lemma {:induction false} RankOrderExists(m: Merges) returns (order: seq<Pair>)
    requires forall p, q | p in m && q in m && m[p] == m[q] :: p == q
    ensures RankOrder(order, m)
    decreases |m|
  {
    if p :| Eligible(m, p) {
      var top := HighestRank(m, p);
      var smaller := m - {top};
      assert |smaller.Keys| < |m.Keys| by { assert smaller.Keys == m.Keys - {top}; }
      order := RankOrderExists(smaller);
      assert forall i | 0 <= i < |order| :: m[order[i]] < m[top];
      order := order + [top];
    } else {
      order := [];
    }
  }

  lemma {:induction false} HighestRank(m: Merges, p: Pair) returns (top: Pair)
    requires Eligible(m, p)
    ensures Eligible(m, top)
    ensures forall q | Eligible(m, q) :: m[q] <= m[top]
    decreases INT32_MAX - m[p]
  {
    if q :| Eligible(m, q) && m[q] > m[p] {
      top := HighestRank(m, q);
    } else {
      top := p;
    }
  }

  lemma {:induction false} LowestOf(m: Merges, among: set<Pair>) returns (low: Pair)
    requires among != {} && forall p | p in among :: p in m
    ensures low in among && forall q | q in among :: m[low] <= m[q]
    decreases |among|
  {
    low :| low in among;
    if among != {low} {
      var rest := LowestOf(m, among - {low});
      if m[rest] < m[low] {
        low := rest;
      }
    } 
  }

  lemma SomeLowest(ids: seq<int>, m: Merges, p: Pair)
    requires Eligible(m, p) && Occurs(ids, p)
    ensures exists low :: LowestPresent(ids, m, low)
  {
    var among := set q | q in m && Eligible(m, q) && Occurs(ids, q);
    assert p in among;
    var low := LowestOf(m, among);
    assert LowestPresent(ids, m, low);
  }

  /** Merging the lowest-ranked pair present until none is left. */
  ghost function Greedy(ids: seq<int>, m: Merges): seq<int>
    decreases |ids|
  {
    if p :| LowestPresent(ids, m, p) then
      MergeShortens(ids, p, m[p]);
      Greedy(Merge(ids, p, m[p]), m)
    else ids
  }

  /** Greedy encoding refines replaying every merge once, in rank order. */
  lemma {:induction false} GreedyIsReplay(ids: seq<int>, m: Merges, order: seq<Pair>)
    requires RankedTable(m) && RankOrder(order, m)
    ensures Greedy(ids, m) == Replay(ids, order, m)
    decreases |ids|
  {
    if p :| LowestPresent(ids, m, p) {
      assert forall q | LowestPresent(ids, m, q) :: q == p;
      MergeShortens(ids, p, m[p]);
      GreedyIsReplay(Merge(ids, p, m[p]), m, order);
      GreedyStep(ids, m, p, order);
    } else {
      forall i | 0 <= i < |order| ensures !Occurs(ids, order[i]) {
        if Occurs(ids, order[i]) {
          SomeLowest(ids, m, order[i]);
        }
      }
      assert order + [] == order;
      ReplaySkip(ids, order, [], m);
    }
  }

  /** Merging goes on behind a prefix without the pair. */
  lemma {:induction false} MergeBehind(a: seq<int>, rest: seq<int>, p: Pair, idx: int)
    requires idx != p.first && idx != p.second && forall j | 0 <= j < |a| :: !At(a + [idx] + rest, p, j)
    ensures Merge(a + [idx] + rest, p, idx) == a + [idx] + Merge(rest, p, idx)
  {
    var ids := a + [idx] + rest;
    if a == [] {
      assert ids == [idx] + rest && ids[1..] == rest && !At(ids, p, 0);
    } else {
      assert ids[1..] == a[1..] + [idx] + rest && !At(ids, p, 0);
      forall j | 0 <= j < |a| - 1 ensures !At(ids[1..], p, j) {
        assert !At(ids, p, j + 1);
      }
      MergeBehind(a[1..], rest, p, idx);
      assert [a[0]] + (a[1..] + [idx] + Merge(rest, p, idx)) == a + [idx] + Merge(rest, p, idx);
    }
  }

  /** A pair left after replacing one occurrence mentions the new id or stood there before. */
  lemma ReplacedPairs(ids: seq<int>, i: nat, idx: int, q: Pair)
    requires i < |ids| - 1 && Occurs(ids[..i] + [idx] + ids[i + 2..], q) && q.first != idx && q.second != idx
    ensures Occurs(ids, q)
  {
    var one := ids[..i] + [idx] + ids[i + 2..];
    var k :| At(one, q, k);
    assert At(ids, q, if k < i then k else k + 1);
  }

  lemma GreedyUnfolds(ids: seq<int>, m: Merges, p: Pair)
    requires RankedTable(m) && LowestPresent(ids, m, p)
    ensures Greedy(ids, m) == Greedy(Merge(ids, p, m[p]), m)
  {
    assert forall q | LowestPresent(ids, m, q) :: q == p;
  }

  lemma StillLowest(ids: seq<int>, m: Merges, p: Pair, i: nat)
    requires RankedTable(m) && LowestPresent(ids, m, p) && At(ids, p, i)
    requires Occurs(ids[..i] + [m[p]] + ids[i + 2..], p)
    ensures LowestPresent(ids[..i] + [m[p]] + ids[i + 2..], m, p)
  {
    var one := ids[..i] + [m[p]] + ids[i + 2..];
    forall q | Eligible(m, q) && Occurs(one, q) ensures m[p] <= m[q] {
      if q.first != m[p] && q.second != m[p] {
        ReplacedPairs(ids, i, m[p], q);
      }
    }
  }

  lemma MergesTheRest(ids: seq<int>, p: Pair, idx: int, i: nat)
    requires At(ids, p, i) && (forall j | 0 <= j < i :: !At(ids, p, j)) && idx != p.first && idx != p.second
    ensures Merge(ids[..i] + [idx] + ids[i + 2..], p, idx) == Merge(ids, p, idx)
  {
    var one := ids[..i] + [idx] + ids[i + 2..];
    forall j | 0 <= j < i ensures !At(one, p, j) {
      assert !At(ids, p, j);
    }
    MergeBehind(ids[..i], ids[i + 2..], p, idx);
    MergeLeftmost(ids, p, idx, i);
  }

  /** Replacing only the leftmost occurrence of the lowest-ranked pair leads to the same ids. */
  lemma GreedyOne(ids: seq<int>, m: Merges, p: Pair, i: nat)
    requires RankedTable(m) && LowestPresent(ids, m, p)
    requires At(ids, p, i) && forall j | 0 <= j < i :: !At(ids, p, j)
    ensures Greedy(ids, m) == Greedy(ids[..i] + [m[p]] + ids[i + 2..], m)
  {
    var one := ids[..i] + [m[p]] + ids[i + 2..];
    GreedyUnfolds(ids, m, p);
    MergesTheRest(ids, p, m[p], i);
    if Occurs(one, p) {
      StillLowest(ids, m, p, i);
      GreedyUnfolds(one, m, p);
    } else {
      MergeAbsent(one, p, m[p]);
    }
  }

  // ----- vocabularies

  type Vocab = map<int, Bytes>

  /** Every byte expands to itself and every merge target to its two sources. */
  ghost predicate Spells(vocab: Vocab, m: Merges) {
    && (forall b: Byte :: b in vocab && vocab[b] == [b])
    && (forall p | p in m && p.first in vocab && p.second in vocab ::
          m[p] in vocab && vocab[m[p]] == vocab[p.first] + vocab[p.second])
  }

  lemma {:induction false} ExpandBytes(vocab: Vocab, text: Bytes)
    requires forall b: Byte :: b in vocab && vocab[b] == [b]
    ensures Known(vocab, text) && Expand(vocab, text) == text
  {
    if text != [] {
      ExpandBytes(vocab, text[1..]);
    }
  }

  /** Greedy encoding never changes what the ids spell. */
  lemma {:induction false} GreedyKeepsExpansion(vocab: Vocab, ids: seq<int>, m: Merges)
    requires Spells(vocab, m) && Known(vocab, ids)
    ensures Known(vocab, Greedy(ids, m)) && Expand(vocab, Greedy(ids, m)) == Expand(vocab, ids)
    decreases |ids|
  {
    if exists p :: LowestPresent(ids, m, p) {
      forall p | LowestPresent(ids, m, p)
        ensures var r := Merge(ids, p, m[p]);
                && Known(vocab, Greedy(r, m)) && Known(vocab, r)
                && Expand(vocab, Greedy(r, m)) == Expand(vocab, ids)
      {
        var i :| At(ids, p, i);
        MergeShortens(ids, p, m[p]);
        MergeKeepsExpansion(vocab, ids, p, m[p]);
        GreedyKeepsExpansion(vocab, Merge(ids, p, m[p]), m);
      }
    }
  }

  /** Greedy encoding stops only when no pair of the table is left. */
  lemma {:induction false} GreedyIsFinal(ids: seq<int>, m: Merges, q: Pair)
    requires Eligible(m, q)
    ensures !Occurs(Greedy(ids, m), q)
    decreases |ids|
  {
    if exists p :: LowestPresent(ids, m, p) {
      forall p | LowestPresent(ids, m, p) ensures !Occurs(Greedy(Merge(ids, p, m[p]), m), q) {
        MergeShortens(ids, p, m[p]);
        GreedyIsFinal(Merge(ids, p, m[p]), m, q);
      }
    } else if Occurs(ids, q) {
      SomeLowest(ids, m, q);
    }
  }
}

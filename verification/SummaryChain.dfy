/** Map-reduce summaries: batching by size and the recursion over rounds. */
module SummaryChain {
  import opened Sequences
  import opened Wrappers

  /** The model behind the chain: a list of texts to one summary. */
  type Chain = seq<string> -> string

  /** How the recursion ends: with a summary, or with a failure because there was nothing to summarise. */
  datatype Ending = Summary(text: string) | NoSource

  function Total(texts: seq<string>): nat {
    if texts == [] then 0 else Total(texts[..|texts| - 1]) + |texts[|texts| - 1]|
  }

  method TotalSize(data: seq<string>) returns (total: nat)
    ensures total == Total(data)
  {
    total := 0;
    for i := 0 to |data|
      invariant total == Total(data[..i])
    {
      assert data[..i + 1][..i] == data[..i];
      total := total + |data[i]|;
    }
    assert data[..|data|] == data;
  }

  /** The size predicate: would adding `delta` reach the limit? */
  predicate Reducible(data: seq<string>, delta: string, limit: nat) {
    Total(data) + |delta| >= limit
  }

  // ----- batching

  /** The batches of `texts` when `buf` is collected already. */
  function Batches(buf: seq<string>, texts: seq<string>, limit: nat): seq<seq<string>>
    decreases |texts|
  {
    if texts == [] then if buf == [] then [] else [buf]
    else if buf != [] && Reducible(buf, texts[0], limit) then [buf] + Batches([texts[0]], texts[1..], limit)
    else Batches(buf + [texts[0]], texts[1..], limit)
  }

  /** The subscriber that fills and emits the buffer. */
  method Collect(texts: seq<string>, limit: nat) returns (batches: seq<seq<string>>)
    ensures batches == Batches([], texts, limit)
  {
    var data: seq<string> := [];
    batches := [];
    ghost var all := Batches([], texts, limit);
    for i := 0 to |texts|
      invariant batches + Batches(data, texts[i..], limit) == all
    {
      assert texts[i..][1..] == texts[i + 1..];
      var total := TotalSize(data);
      if data != [] && total + |texts[i]| >= limit {
        batches := batches + [data];
        data := [];
      }
      data := data + [texts[i]];
    }
    assert texts[|texts|..] == [];
    if data != [] {
      batches := batches + [data];
    }
  }

  /** A batch is not empty, and below the limit when it holds more than one text. */
  ghost predicate GoodBatch(b: seq<string>, limit: nat) {
    b != [] && (|b| > 1 ==> Total(b) < limit)
  }

  lemma TotalSnoc(b: seq<string>, t: string)
    ensures Total(b + [t]) == Total(b) + |t|
  {
    assert (b + [t])[..|b|] == b;
  }

  /** The batches partition the texts in order, and each is good. */
  lemma {:induction false} BatchesPartition(buf: seq<string>, texts: seq<string>, limit: nat)
    requires buf == [] || GoodBatch(buf, limit)
    ensures Flatten(Batches(buf, texts, limit)) == buf + texts
    ensures forall i | 0 <= i < |Batches(buf, texts, limit)| :: GoodBatch(Batches(buf, texts, limit)[i], limit)
    decreases |texts|
  {
    if texts == [] {
      if buf != [] {
        FlattenCons(buf, []);
        assert [buf] + [] == [buf];
      }
    } else {
      var t, rest := texts[0], texts[1..];
      TotalSnoc(buf, t);
      assert texts == [t] + rest;
      if buf != [] && Reducible(buf, t, limit) {
        BatchesPartition([t], rest, limit);
        FlattenCons(buf, Batches([t], rest, limit));
      } else {
        BatchesPartition(buf + [t], rest, limit);
        assert buf + [t] + rest == buf + texts;
      }
    }
  }

  /** No batch could have taken the first text of the next one. */
  ghost predicate Filled(batches: seq<seq<string>>, limit: nat) {
    |batches| > 1 ==>
      batches[1] != [] && Reducible(batches[0], batches[1][0], limit) && Filled(batches[1..], limit)
  }

  /** A batch is closed only when the next text would reach the limit. */
  lemma {:induction false} BatchesFilled(buf: seq<string>, texts: seq<string>, limit: nat)
    ensures Filled(Batches(buf, texts, limit), limit)
    ensures buf != [] ==> var bs := Batches(buf, texts, limit); bs != [] && bs[0] != [] && bs[0][0] == buf[0]
    decreases |texts|
  {
    if texts != [] {
      var t, rest := texts[0], texts[1..];
      if buf != [] && Reducible(buf, t, limit) {
        BatchesFilled([t], rest, limit);
        assert ([buf] + Batches([t], rest, limit))[1..] == Batches([t], rest, limit);
      } else {
        BatchesFilled(buf + [t], rest, limit);
      }
    }
  }

  // ----- rounds

  function Mapped(chain: Chain, texts: seq<string>): (r: seq<string>)
    ensures |r| == |texts| && forall i | 0 <= i < |r| :: r[i] == chain([texts[i]])
  {
    seq(|texts|, i requires 0 <= i < |texts| => chain([texts[i]]))
  }

  function Reduced(chain: Chain, batches: seq<seq<string>>): (r: seq<string>)
    ensures |r| == |batches| && forall i | 0 <= i < |r| :: r[i] == chain(batches[i])
  {
    seq(|batches|, i requires 0 <= i < |batches| => chain(batches[i]))
  }

  /** One round: every text summarised, the results batched, every batch summarised. */
  function Round(chain: Chain, limit: nat, source: seq<string>): seq<string> {
    Reduced(chain, Batches([], Mapped(chain, source), limit))
  }

  /** The summaries left after `n` rounds. */
  function Rounds(chain: Chain, limit: nat, source: seq<string>, n: nat): seq<string>
    decreases n
  {
    if n == 0 then source else Rounds(chain, limit, Round(chain, limit, source), n - 1)
  }

  /** Texts of at most `m` characters, two of which fit into a batch, fill all batches but the last with two. */
  lemma {:induction false} FewBatches(buf: seq<string>, texts: seq<string>, limit: nat, m: nat)
    requires 2 * m < limit && (forall i | 0 <= i < |texts| :: |texts[i]| <= m)
    requires |buf| == 1 ==> Total(buf) <= m
    ensures 2 * |Batches(buf, texts, limit)| <= |buf| + |texts| + 1
    ensures buf + texts != [] ==> |Batches(buf, texts, limit)| >= 1
    decreases |texts|
  {
    if texts != [] {
      TotalSnoc(buf, texts[0]);
      TotalSnoc([], texts[0]);
      assert [] + [texts[0]] == [texts[0]];
      if buf != [] && Reducible(buf, texts[0], limit) {
        FewBatches([texts[0]], texts[1..], limit, m);
      } else {
        FewBatches(buf + [texts[0]], texts[1..], limit, m);
      }
    }
  }

  /** Every summary the chain produces has at most `m` characters. */
  ghost predicate Bounded(chain: Chain, m: nat) {
    forall texts {:trigger chain(texts)} :: |chain(texts)| <= m
  }

  ghost predicate Constant(chain: Chain, m: nat) {
    forall texts {:trigger chain(texts)} :: |chain(texts)| == m
  }

  /** The number of summaries falls from any count above one. */
  lemma RoundShrinks(chain: Chain, limit: nat, m: nat, source: seq<string>)
    requires Bounded(chain, m) && 2 * m < limit && source != []
    ensures 1 <= |Round(chain, limit, source)|
    ensures |source| > 1 ==> |Round(chain, limit, source)| < |source|
    ensures |source| == 1 ==> |Round(chain, limit, source)| == 1
  {
    FewBatches([], Mapped(chain, source), limit, m);
  }

  // ----- the recursion

  /** One round, then again on what it produced unless that is a single summary: nothing when `depth`
      nested calls are too few. */
  function SummaryWithin(depth: nat, chain: Chain, limit: nat, source: seq<string>): Option<Ending>
    decreases depth
  {
    if depth == 0 then None
    else
      var summaries := Round(chain, limit, source);
      if |summaries| == 1 then Some(Summary(summaries[0]))
      else if summaries == [] then Some(NoSource)
      else SummaryWithin(depth - 1, chain, limit, summaries)
  }

  method CreateSummary(depth: nat, chain: Chain, limit: nat, source: seq<string>) returns (r: Option<Ending>)
    ensures r == SummaryWithin(depth, chain, limit, source)
    decreases depth
  {
    if depth == 0 {
      return None;
    }
    var batches := Collect(Mapped(chain, source), limit);
    var summaries := Reduced(chain, batches);
    if |summaries| == 1 {
      return Some(Summary(summaries[0]));
    }
    if |summaries| <= 1 {
      return Some(NoSource);
    }
    r := CreateSummary(depth - 1, chain, limit, summaries);
  }

  ghost predicate Ends(chain: Chain, limit: nat, source: seq<string>) {
    exists depth: nat :: SummaryWithin(depth, chain, limit, source).Some?
  }

  /** The summary is the chain's answer to a batch that was the only one of the last round. */
  ghost predicate LastAnswer(chain: Chain, limit: nat, source: seq<string>, n: nat, text: string) {
    var last := Mapped(chain, Rounds(chain, limit, source, n));
    exists batch :: Batches([], last, limit) == [batch] && batch == last && text == chain(batch)
  }

  lemma OnlyBatch(texts: seq<string>, limit: nat)
    requires |Batches([], texts, limit)| == 1
    ensures Batches([], texts, limit) == [texts]
  {
    var bs := Batches([], texts, limit);
    BatchesPartition([], texts, limit);
    assert bs == [bs[0]] && [] + texts == texts;
    FlattenOne(bs[0]);
  }

  /** Whatever the depth: a summary is what the chain answers to the mapped texts of the last round, all in one
      batch, and no earlier round ended with a single summary. */
  lemma {:induction false} SummaryIsAnswer(depth: nat, chain: Chain, limit: nat, source: seq<string>) returns (n: nat)
    requires var r := SummaryWithin(depth, chain, limit, source); r.Some? && r.value.Summary?
    ensures n < depth
    ensures LastAnswer(chain, limit, source, n, SummaryWithin(depth, chain, limit, source).value.text)
    ensures forall k | 0 < k <= n :: |Rounds(chain, limit, source, k)| > 1
    decreases depth
  {
    var mapped, summaries := Mapped(chain, source), Round(chain, limit, source);
    if |summaries| == 1 {
      n := 0;
      OnlyBatch(mapped, limit);
      assert Batches([], mapped, limit) == [mapped] && summaries[0] == chain(mapped);
    } else {
      n := SummaryIsAnswer(depth - 1, chain, limit, summaries);
      n := n + 1;
      forall k | 0 < k <= n ensures |Rounds(chain, limit, source, k)| > 1 {
        assert Rounds(chain, limit, source, k) == Rounds(chain, limit, summaries, k - 1);
      }
    }
  }

  /** One text is summarised twice: alone, and as the only batch. */
  lemma OneText(depth: nat, chain: Chain, limit: nat, text: string)
    requires depth > 0
    ensures SummaryWithin(depth, chain, limit, [text]) == Some(Summary(chain([chain([text])])))
  {
    var mapped := Mapped(chain, [text]);
    assert mapped == [chain([text])] && mapped[1..] == [] && [] + [mapped[0]] == mapped;
    assert Batches([], mapped, limit) == Batches(mapped, [], limit) == [mapped];
  }

  /** Summaries of which two fit below the limit: the recursion ends, with as many nested calls as texts,
      and fails exactly on an empty source. */
  lemma {:induction false} BoundedEnds(depth: nat, chain: Chain, limit: nat, m: nat, source: seq<string>)
    requires Bounded(chain, m) && 2 * m < limit && |source| <= depth && depth > 0
    ensures var r := SummaryWithin(depth, chain, limit, source); r.Some? && (r.value.NoSource? <==> source == [])
    decreases depth
  {
    if source != [] {
      RoundShrinks(chain, limit, m, source);
      if |Round(chain, limit, source)| > 1 {
        BoundedEnds(depth - 1, chain, limit, m, Round(chain, limit, source));
      }
    }
  }

  // ----- when the recursion ends, for every chain

  /** No two neighbours fit into one batch. */
  ghost predicate KeptApart(texts: seq<string>, limit: nat) {
    forall i | 0 <= i < |texts| - 1 :: |texts[i]| + |texts[i + 1]| >= limit
  }

  lemma {:induction false} BatchCount(buf: seq<string>, texts: seq<string>, limit: nat)
    ensures |Batches(buf, texts, limit)| <= (if buf == [] then 0 else 1) + |texts|
    ensures buf + texts != [] ==> |Batches(buf, texts, limit)| >= 1
    decreases |texts|
  {
    if texts != [] {
      if buf != [] && Reducible(buf, texts[0], limit) {
        BatchCount([texts[0]], texts[1..], limit);
      } else {
        BatchCount(buf + [texts[0]], texts[1..], limit);
      }
    }
  }

  lemma TotalOne(t: string)
    ensures Total([t]) == |t|
  {
    TotalSnoc([], t);
    assert [] + [t] == [t];
  }

  /** With a first text collected, every further text is a batch of its own exactly when neighbours
      are kept apart. */
  lemma {:induction false} SingleBatches(t: string, texts: seq<string>, limit: nat)
    ensures |Batches([t], texts, limit)| == 1 + |texts| <==> KeptApart([t] + texts, limit)
    decreases |texts|
  {
    if texts != [] {
      var all, next, rest := [t] + texts, texts[0], texts[1..];
      TotalOne(t);
      assert all[0] == t && all[1] == next;
      if |t| + |next| >= limit {
        SingleBatches(next, rest, limit);
        assert [next] + rest == texts;
        if KeptApart(texts, limit) {
          forall i | 0 <= i < |all| - 1 ensures |all[i]| + |all[i + 1]| >= limit {
            assert i > 0 ==> all[i] == texts[i - 1] && all[i + 1] == texts[i];
          }
        } else {
          var i :| 0 <= i < |texts| - 1 && |texts[i]| + |texts[i + 1]| < limit;
          assert all[i + 1] == texts[i] && all[i + 2] == texts[i + 1];
        }
      } else {
        BatchCount([t] + [next], rest, limit);
        assert !KeptApart(all, limit);
      }
    }
  }

  /** For every chain: a round never has more summaries than texts, and as many only when no two
      neighbouring mapped texts fit into one batch. */
  lemma RoundCountExactly(chain: Chain, limit: nat, source: seq<string>)
    ensures |Round(chain, limit, source)| <= |source|
    ensures source != [] ==> |Round(chain, limit, source)| >= 1
    ensures |Round(chain, limit, source)| == |source| <==> KeptApart(Mapped(chain, source), limit)
  {
    var mapped := Mapped(chain, source);
    BatchCount([], mapped, limit);
    if mapped != [] {
      SingleBatches(mapped[0], mapped[1..], limit);
      assert [mapped[0]] + mapped[1..] == mapped && [] + [mapped[0]] == [mapped[0]];
    }
  }

  lemma {:induction false} RoundsAdd(chain: Chain, limit: nat, source: seq<string>, j: nat, k: nat)
    ensures Rounds(chain, limit, source, j + k) == Rounds(chain, limit, Rounds(chain, limit, source, j), k)
    decreases j
  {
    if j > 0 {
      RoundsAdd(chain, limit, Round(chain, limit, source), j - 1, k);
    }
  }

  lemma NextRound(chain: Chain, limit: nat, source: seq<string>, k: nat)
    ensures Rounds(chain, limit, source, k + 1) == Round(chain, limit, Rounds(chain, limit, source, k))
  {
    RoundsAdd(chain, limit, source, k, 1);
    var r := Rounds(chain, limit, source, k);
    assert Rounds(chain, limit, r, 1) == Rounds(chain, limit, Round(chain, limit, r), 0);
  }

  lemma {:induction false} CountsFall(chain: Chain, limit: nat, source: seq<string>, j: nat, k: nat)
    requires j <= k
    ensures |Rounds(chain, limit, source, k)| <= |Rounds(chain, limit, source, j)|
    decreases k - j
  {
    if j < k {
      NextRound(chain, limit, source, j);
      RoundCountExactly(chain, limit, Rounds(chain, limit, source, j));
      CountsFall(chain, limit, source, j + 1, k);
    }
  }

  /** The recursion is still going after `depth` calls when each of them left several summaries. */
  lemma {:induction false} WithinIsRounds(depth: nat, chain: Chain, limit: nat, source: seq<string>)
    requires |source| > 1
    ensures SummaryWithin(depth, chain, limit, source).None? <==> |Rounds(chain, limit, source, depth)| > 1
    decreases depth
  {
    if depth > 0 {
      var summaries := Round(chain, limit, source);
      RoundCountExactly(chain, limit, source);
      if |summaries| > 1 {
        WithinIsRounds(depth - 1, chain, limit, summaries);
      } else {
        CountsFall(chain, limit, summaries, 0, depth - 1);
      }
    }
  }

  /** From round `n` on there are several texts and no two neighbours fit into one batch. */
  ghost predicate StalledFrom(chain: Chain, limit: nat, source: seq<string>, n: nat) {
    forall k: nat | k >= n ::
      |Rounds(chain, limit, source, k)| > 1 && KeptApart(Mapped(chain, Rounds(chain, limit, source, k)), limit)
  }

  /** A number of summaries that never reaches one stays the same from some round on. */
  lemma {:induction false} FindStall(chain: Chain, limit: nat, source: seq<string>) returns (n: nat)
    requires forall k: nat :: |Rounds(chain, limit, source, k)| > 1
    ensures StalledFrom(chain, limit, source, n)
    decreases |source|
  {
    if j: nat :| |Rounds(chain, limit, source, j)| < |source| {
      var later := Rounds(chain, limit, source, j);
      forall k: nat ensures |Rounds(chain, limit, later, k)| > 1 {
        RoundsAdd(chain, limit, source, j, k);
      }
      var m := FindStall(chain, limit, later);
      n := j + m;
      forall k: nat | k >= n
        ensures |Rounds(chain, limit, source, k)| > 1
        ensures KeptApart(Mapped(chain, Rounds(chain, limit, source, k)), limit)
      {
        RoundsAdd(chain, limit, source, j, k - j);
        assert k - j >= m && |Rounds(chain, limit, later, k - j)| > 1;
      }
    } else {
      n := 0;
      forall k: nat ensures KeptApart(Mapped(chain, Rounds(chain, limit, source, k)), limit) {
        CountsFall(chain, limit, source, 0, k);
        CountsFall(chain, limit, source, 0, k + 1);
        NextRound(chain, limit, source, k);
        RoundCountExactly(chain, limit, Rounds(chain, limit, source, k));
      }
    }
  }

  lemma StallNeverEnds(chain: Chain, limit: nat, source: seq<string>, n: nat)
    requires StalledFrom(chain, limit, source, n)
    ensures |source| > 1 && !Ends(chain, limit, source)
  {
    assert |Rounds(chain, limit, source, n)| > 1;
    CountsFall(chain, limit, source, 0, n);
    forall depth: nat ensures SummaryWithin(depth, chain, limit, source).None? {
      var far := if depth < n then n else depth;
      assert |Rounds(chain, limit, source, far)| > 1;
      CountsFall(chain, limit, source, depth, far);
      WithinIsRounds(depth, chain, limit, source);
    }
  }

  lemma AtMostOneEnds(chain: Chain, limit: nat, source: seq<string>)
    requires |source| <= 1
    ensures Ends(chain, limit, source)
  {
    RoundCountExactly(chain, limit, source);
    assert SummaryWithin(1, chain, limit, source).Some?;
  }

  /** For every chain and every source: the recursion goes on forever if and only if from some round on
      there are several summaries of which no two neighbours fit into one batch. */
  lemma EndlessExactly(chain: Chain, limit: nat, source: seq<string>)
    ensures !Ends(chain, limit, source) <==> exists n :: StalledFrom(chain, limit, source, n)
  {
    if n :| StalledFrom(chain, limit, source, n) {
      StallNeverEnds(chain, limit, source, n);
    } else if !Ends(chain, limit, source) {
      if |source| <= 1 {
        AtMostOneEnds(chain, limit, source);
      }
      forall k: nat ensures |Rounds(chain, limit, source, k)| > 1 {
        WithinIsRounds(k, chain, limit, source);
        assert SummaryWithin(k, chain, limit, source).None?;
      }
      var n := FindStall(chain, limit, source);
    }
  }

  /** For a chain whose summaries all have size `m` the recursion ends if and only if there is at most
      one text or two summaries fit below the limit. */
  lemma EndsExactly(chain: Chain, limit: nat, m: nat, source: seq<string>)
    requires Constant(chain, m)
    ensures Ends(chain, limit, source) <==> |source| <= 1 || 2 * m < limit
  {
    if |source| <= 1 {
      AtMostOneEnds(chain, limit, source);
    } else if 2 * m < limit {
      BoundedEnds(|source|, chain, limit, m, source);
    } else {
      forall k: nat
        ensures |Rounds(chain, limit, source, k)| > 1
        ensures KeptApart(Mapped(chain, Rounds(chain, limit, source, k)), limit)
      {
        ConstantKeepsCount(chain, limit, m, source, k);
      }
      StallNeverEnds(chain, limit, source, 0);
    }
  }

  lemma {:induction false} ConstantKeepsCount(chain: Chain, limit: nat, m: nat, source: seq<string>, k: nat)
    requires Constant(chain, m) && 2 * m >= limit
    ensures |Rounds(chain, limit, source, k)| == |source|
    ensures KeptApart(Mapped(chain, Rounds(chain, limit, source, k)), limit)
    decreases k
  {
    var mapped := Mapped(chain, source);
    assert KeptApart(mapped, limit) by {
      forall i | 0 <= i < |mapped| - 1 ensures |mapped[i]| + |mapped[i + 1]| >= limit {
        assert mapped[i] == chain([source[i]]) && mapped[i + 1] == chain([source[i + 1]]);
      }
    }
    if k > 0 {
      RoundCountExactly(chain, limit, source);
      ConstantKeepsCount(chain, limit, m, Round(chain, limit, source), k - 1);
    }
  }
}

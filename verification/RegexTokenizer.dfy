/** Training, encoding and decoding over the byte chunks a pattern has cut out. */
module RegexTokenizer {
  import opened BytePairMerging
  import opened ByteStrings
  import opened OrderedMaps
  import opened PairPlaces
  import opened PairStatistics
  import opened Sequences
  import opened Wrappers

  const BYTES := 256

  // ----- what a training run is

  /** The ids of one chunk after the merges of `order`, numbered from 256 on. */
  function Rounds(ids: seq<int>, order: seq<Pair>): seq<int> {
    if order == [] then ids
    else Merge(Rounds(ids, order[..|order| - 1]), order[|order| - 1], BYTES + |order| - 1)
  }

  function MergeEach(chunks: seq<seq<int>>, p: Pair, idx: int): (r: seq<seq<int>>)
    ensures |r| == |chunks|
    ensures forall c | 0 <= c < |r| :: r[c] == Merge(chunks[c], p, idx)
  {
    seq(|chunks|, c requires 0 <= c < |chunks| => Merge(chunks[c], p, idx))
  }

  /** The ids of all chunks after the merges of `order`. */
  function RoundsAll(chunks: seq<seq<int>>, order: seq<Pair>): (r: seq<seq<int>>)
    ensures |r| == |chunks|
  {
    if order == [] then chunks
    else MergeEach(RoundsAll(chunks, order[..|order| - 1]), order[|order| - 1], BYTES + |order| - 1)
  }

  lemma {:induction false} RoundsPerChunk(chunks: seq<seq<int>>, order: seq<Pair>, c: nat)
    requires c < |chunks|
    ensures RoundsAll(chunks, order)[c] == Rounds(chunks[c], order)
    decreases |order|
  {
    if order != [] {
      RoundsPerChunk(chunks, order[..|order| - 1], c);
    }
  }

  /** In every round `order` names the most frequent pair of the ids reached so far. */
  ghost predicate TrainingRun(chunks: seq<seq<int>>, order: seq<Pair>) {
    order == [] ||
    var before := order[..|order| - 1];
    TrainingRun(chunks, before) && MostFrequent(RoundsAll(chunks, before), order[|order| - 1])
  }

  ghost predicate InRange(ids: seq<int>, bound: int) {
    forall i | 0 <= i < |ids| :: 0 <= ids[i] < bound
  }

  lemma {:induction false} MergeInRange(ids: seq<int>, p: Pair, idx: int)
    requires idx >= 0 && InRange(ids, idx)
    ensures InRange(Merge(ids, p, idx), idx + 1)
  {
    if |ids| >= 2 {
      MergeInRange(if At(ids, p, 0) then ids[2..] else ids[1..], p, idx);
    }
  }

  lemma MergeNonEmpty(ids: seq<int>, p: Pair, idx: int)
    requires ids != []
    ensures Merge(ids, p, idx) != []
  {
  }

  /** What holds of one chunk after the merges of `order`. */
  ghost predicate Settled(ids: seq<int>, order: seq<Pair>) {
    && ids != [] && InRange(ids, BYTES + |order|)
    && forall j | 0 <= j < |order| :: !Occurs(ids, order[j])
  }

  /** Both sources of each merge are below its target. */
  ghost predicate Grounded(order: seq<Pair>) {
    forall i | 0 <= i < |order| :: 0 <= order[i].first < BYTES + i && 0 <= order[i].second < BYTES + i
  }

  /** A chunk of bytes: non-empty, every id below 256. */
  ghost predicate ByteChunks(chunks: seq<seq<int>>) {
    forall c | 0 <= c < |chunks| :: chunks[c] != [] && InRange(chunks[c], BYTES)
  }

  lemma SettledStep(ids: seq<int>, order: seq<Pair>, p: Pair)
    requires Settled(ids, order) && Grounded(order + [p])
    ensures Settled(Merge(ids, p, BYTES + |order|), order + [p])
  {
    var idx := BYTES + |order|;
    MergeInRange(ids, p, idx);
    MergeNonEmpty(ids, p, idx);
    assert (order + [p])[|order|] == p;
    MergeRemoves(ids, p, idx);
    forall j | 0 <= j < |order| ensures !Occurs(Merge(ids, p, idx), order[j]) {
      var q := order[j];
      assert q == (order + [p])[j];
      if Occurs(Merge(ids, p, idx), q) {
        MergePairs(ids, p, idx, q);
      }
    }
  }

  ghost predicate AllSettled(chunks: seq<seq<int>>, order: seq<Pair>) {
    forall c | 0 <= c < |chunks| :: Settled(chunks[c], order)
  }

  /** The most frequent pair of settled chunks is new and made of known ids. */
  lemma MostFrequentIsFresh(ids: seq<seq<int>>, order: seq<Pair>, p: Pair)
    requires AllSettled(ids, order) && MostFrequent(ids, p)
    ensures 0 <= p.first < BYTES + |order| && 0 <= p.second < BYTES + |order|
    ensures p !in order
  {
    var at :| MostFrequentAt(ids, p, at);
    assert At(ids[at.chunk], p, at.index);
    assert Settled(ids[at.chunk], order);
  }

  lemma RoundsStep(chunks: seq<seq<int>>, order: seq<Pair>, p: Pair)
    ensures RoundsAll(chunks, order + [p]) == MergeEach(RoundsAll(chunks, order), p, BYTES + |order|)
  {
    assert (order + [p])[..|order|] == order;
  }

  ghost predicate NoRepeats(order: seq<Pair>) {
    forall i, j | 0 <= i < j < |order| :: order[i] != order[j]
  }

  lemma GroundedStep(order: seq<Pair>, p: Pair)
    requires Grounded(order) && NoRepeats(order) && p !in order
    requires 0 <= p.first < BYTES + |order| && 0 <= p.second < BYTES + |order|
    ensures Grounded(order + [p]) && NoRepeats(order + [p])
  {
  }

  lemma AllSettledStep(chunks: seq<seq<int>>, order: seq<Pair>, p: Pair)
    requires AllSettled(chunks, order) && Grounded(order + [p])
    ensures AllSettled(MergeEach(chunks, p, BYTES + |order|), order + [p])
  {
    forall c | 0 <= c < |chunks| ensures Settled(Merge(chunks[c], p, BYTES + |order|), order + [p]) {
      SettledStep(chunks[c], order, p);
    }
  }

  lemma RunStart(chunks: seq<seq<int>>)
    requires ByteChunks(chunks)
    ensures AllSettled(RoundsAll(chunks, []), [])
  {
  }

  lemma RunStep(chunks: seq<seq<int>>, order: seq<Pair>, p: Pair)
    requires Grounded(order) && NoRepeats(order)
    requires AllSettled(RoundsAll(chunks, order), order)
    requires MostFrequent(RoundsAll(chunks, order), p)
    ensures Grounded(order + [p]) && NoRepeats(order + [p])
    ensures AllSettled(RoundsAll(chunks, order + [p]), order + [p])
  {
    MostFrequentIsFresh(RoundsAll(chunks, order), order, p);
    GroundedStep(order, p);
    AllSettledStep(RoundsAll(chunks, order), order, p);
    RoundsStep(chunks, order, p);
  }

  /** A training run never selects a pair again, and its sources precede its target. */
  lemma {:induction false} RunInvariant(chunks: seq<seq<int>>, order: seq<Pair>)
    requires ByteChunks(chunks) && TrainingRun(chunks, order)
    ensures Grounded(order) && NoRepeats(order)
    ensures AllSettled(RoundsAll(chunks, order), order)
    decreases |order|
  {
    if order == [] {
      RunStart(chunks);
    } else {
      var n := |order| - 1;
      RunInvariant(chunks, order[..n]);
      RunStep(chunks, order[..n], order[n]);
      assert order == order[..n] + [order[n]];
    }
  }

  /** The table of a run: the i-th pair gets id 256 + i. */
  ghost predicate TableOf(merges: OrderedMap<Pair, int>, order: seq<Pair>) {
    && merges.Valid() && merges.keys == order
    && forall i | 0 <= i < |order| :: merges.at[order[i]] == BYTES + i
  }

  lemma TableIsRanked(merges: OrderedMap<Pair, int>, order: seq<Pair>)
    requires TableOf(merges, order) && Grounded(order) && BYTES + |order| <= INT32_MAX
    ensures RankedTable(merges.at) && RankOrder(order, merges.at)
  {
    forall p | p in merges.at ensures exists i :: 0 <= i < |order| && order[i] == p {
      assert p in merges.keys;
    }
  }

  lemma {:induction false} RoundsAreReplay(ids: seq<int>, merges: OrderedMap<Pair, int>, order: seq<Pair>, n: nat)
    requires TableOf(merges, order) && n <= |order|
    ensures forall p | p in order[..n] :: p in merges.at
    ensures Rounds(ids, order[..n]) == Replay(ids, order[..n], merges.at)
  {
    if n > 0 {
      var before, p := order[..n - 1], order[n - 1];
      assert order[..n] == before + [p];
      assert order[..n][..n - 1] == before;
      RoundsAreReplay(ids, merges, order, n - 1);
      ReplayConcat(ids, before, [p], merges.at);
      assert [p][1..] == [];
    }
  }

  /** Encoding a training chunk with the trained table gives the ids training ended with. */
  lemma EncodingReproducesTraining(chunks: seq<seq<int>>, merges: OrderedMap<Pair, int>, order: seq<Pair>, c: nat)
    requires ByteChunks(chunks) && TrainingRun(chunks, order) && TableOf(merges, order)
    requires BYTES + |order| <= INT32_MAX && c < |chunks|
    ensures Greedy(chunks[c], merges.at) == Rounds(chunks[c], order)
  {
    assert RankedTable(merges.at) && RankOrder(order, merges.at) by {
      RunInvariant(chunks, order);
      TableIsRanked(merges, order);
    }
    GreedyIsReplay(chunks[c], merges.at, order);
    assert order[..|order|] == order;
    RoundsAreReplay(chunks[c], merges, order, |order|);
  }

  /** The vocabulary of a run: 256 bytes, then one entry per merge. */
  ghost predicate VocabOf(vocab: Vocab, order: seq<Pair>) {
    && Grounded(order)
    && (forall id :: id in vocab <==> 0 <= id < BYTES + |order|)
    && (forall b: Byte :: vocab[b] == [b])
    && (forall i | 0 <= i < |order| :: vocab[BYTES + i] == vocab[order[i].first] + vocab[order[i].second])
  }

  lemma VocabSpells(vocab: Vocab, merges: OrderedMap<Pair, int>, order: seq<Pair>)
    requires VocabOf(vocab, order) && TableOf(merges, order)
    ensures Spells(vocab, merges.at)
  {
    forall p | p in merges.at ensures exists i :: 0 <= i < |order| && order[i] == p {
      assert p in merges.keys;
    }
  }

  // ----- decoding

  /** The bytes of one id: the vocabulary first, then the special tokens. */
  function TokenText(vocab: Vocab, specials: Vocab, id: int): Result<Bytes> {
    if id in vocab then Ok(vocab[id]) else if id in specials then Ok(specials[id]) else Err
  }

  function DecodeText(vocab: Vocab, specials: Vocab, ids: seq<int>): Result<Bytes> {
    if ids == [] then Ok([])
    else
      var before := DecodeText(vocab, specials, ids[..|ids| - 1]);
      var last := TokenText(vocab, specials, ids[|ids| - 1]);
      if before.Ok? && last.Ok? then Ok(before.value + last.value) else Err
  }

  lemma {:induction false} DecodeIsExpand(vocab: Vocab, specials: Vocab, ids: seq<int>)
    requires Known(vocab, ids)
    ensures DecodeText(vocab, specials, ids) == Ok(Expand(vocab, ids))
  {
    if ids != [] {
      var n := |ids| - 1;
      DecodeIsExpand(vocab, specials, ids[..n]);
      assert ids == ids[..n] + [ids[n]];
      ExpandConcat(vocab, ids[..n], [ids[n]]);
      assert Expand(vocab, [ids[n]]) == vocab[ids[n]] + Expand(vocab, [ids[n]][1..]);
      assert Expand(vocab, [ids[n]]) == vocab[ids[n]];
    }
  }

  lemma {:induction false} DecodeFails(vocab: Vocab, specials: Vocab, ids: seq<int>)
    ensures DecodeText(vocab, specials, ids).Err? <==>
            exists i :: 0 <= i < |ids| && ids[i] !in vocab && ids[i] !in specials
  {
    if ids != [] {
      DecodeFails(vocab, specials, ids[..|ids| - 1]);
    }
  }

  /** Decoding concatenates the words of the ids; a word of the vocabulary goes before a special token. */
  lemma {:induction false} DecodeConcatenates(vocab: Vocab, specials: Vocab, ids: seq<int>, words: seq<Bytes>)
    requires |words| == |ids|
    requires forall i | 0 <= i < |ids| :: (ids[i] in vocab && words[i] == vocab[ids[i]]) ||
               (ids[i] !in vocab && ids[i] in specials && words[i] == specials[ids[i]])
    ensures DecodeText(vocab, specials, ids) == Ok(Flatten(words))
  {
    if ids != [] {
      var n := |ids| - 1;
      DecodeConcatenates(vocab, specials, ids[..n], words[..n]);
      assert words == words[..n] + [words[n]];
      FlattenSnoc(words[..n], words[n]);
    }
  }

  /** The ids of a list of chunks, encoded one by one. */
  ghost function EncodeAll(chunks: seq<Bytes>, m: Merges): seq<int> {
    if chunks == [] then [] else EncodeAll(chunks[..|chunks| - 1], m) + Greedy(chunks[|chunks| - 1], m)
  }

  /** The ids of any chunks spell their bytes. */
  lemma {:induction false} EncodeAllSpells(vocab: Vocab, m: Merges, chunks: seq<Bytes>)
    requires Spells(vocab, m)
    ensures Known(vocab, EncodeAll(chunks, m)) && Expand(vocab, EncodeAll(chunks, m)) == Flatten(chunks)
  {
    if chunks != [] {
      var n := |chunks| - 1;
      var ids, more := EncodeAll(chunks[..n], m), Greedy(chunks[n], m);
      EncodeAllSpells(vocab, m, chunks[..n]);
      assert Known(vocab, more) && Expand(vocab, more) == chunks[n] by {
        ExpandBytes(vocab, chunks[n]);
        GreedyKeepsExpansion(vocab, chunks[n], m);
      }
      assert Known(vocab, ids + more) && Expand(vocab, ids + more) == Flatten(chunks[..n]) + chunks[n] by {
        ExpandConcat(vocab, ids, more);
      }
      assert Flatten(chunks) == Flatten(chunks[..n]) + chunks[n] by {
        assert chunks == chunks[..n] + [chunks[n]];
        FlattenSnoc(chunks[..n], chunks[n]);
      }
    }
  }

  /** Decoding the encoding of any chunks gives back their bytes. */
  lemma RoundTrip(vocab: Vocab, specials: Vocab, m: Merges, chunks: seq<Bytes>)
    requires Spells(vocab, m)
    ensures Known(vocab, EncodeAll(chunks, m))
    ensures DecodeText(vocab, specials, EncodeAll(chunks, m)) == Ok(Flatten(chunks))
  {
    EncodeAllSpells(vocab, m, chunks);
    DecodeIsExpand(vocab, specials, EncodeAll(chunks, m));
  }

  /** The encoding loop shared by the tokenizers. */
  method EncodeIds(text: Bytes, m: Merges) returns (ids: seq<int>)
    ensures forall p | Eligible(m, p) :: !Occurs(ids, p)
    ensures RankedTable(m) ==> ids == Greedy(text, m)
    ensures forall vocab: Vocab | Spells(vocab, m) :: Known(vocab, ids) && Expand(vocab, ids) == text
  {
    ids := text;
    forall vocab: Vocab | Spells(vocab, m) ensures Known(vocab, ids) && Expand(vocab, ids) == text {
      ExpandBytes(vocab, text);
    }
    while |ids| >= 2
      invariant RankedTable(m) ==> Greedy(ids, m) == Greedy(text, m)
      invariant forall vocab: Vocab | Spells(vocab, m) :: Known(vocab, ids) && Expand(vocab, ids) == text
      decreases |ids|
    {
      var stats := ComputePairsState(ids, Empty());
      TallyAllKeepsStats(Empty(), [], Pairs(ids));
      assert [] + Pairs(ids) == Pairs(ids);
      var pick := PickLowest(stats, m, ids);
      if pick.None? {
        return;
      }
      ghost var previous := ids;
      MergeShortens(ids, pick.value, m[pick.value]);
      forall vocab: Vocab | Spells(vocab, m)
        ensures var r := Merge(ids, pick.value, m[pick.value]); Known(vocab, r) && Expand(vocab, r) == text
      {
        var i :| At(ids, pick.value, i);
        MergeKeepsExpansion(vocab, ids, pick.value, m[pick.value]);
      }
      assert RankedTable(m) ==> forall q | LowestPresent(ids, m, q) :: q == pick.value;
      ids := MergeInPlace(ids, pick.value, m[pick.value]);
    }
  }

  // ----- the tokenizer

  datatype TrainOutcome =
    | Rejected                       // vocabulary size below 256: an exception
    | NoPairLeft(done: seq<Pair>)    // the next round would dereference an end iterator
    | Trained

  /** One statistics pass over all chunks. */
  method CountAll(ids: seq<seq<int>>) returns (stats: Stats)
    requires forall c | 0 <= c < |ids| :: ids[c] != []
    ensures StatsOf(stats, AllPairs(ids))
  {
    stats := Empty();
    ghost var counted: seq<Pair> := [];
    for c := 0 to |ids|
      invariant counted == AllPairs(ids[..c])
      invariant StatsOf(stats, counted)
    {
      TallyAllKeepsStats(stats, counted, Pairs(ids[c]));
      stats := ComputePairsState(ids[c], stats);
      assert ids[..c + 1][..c] == ids[..c];
      counted := counted + Pairs(ids[c]);
    }
    assert ids[..|ids|] == ids;
  }

  /** Merges `p` in every chunk. */
  method MergeAll(input: seq<seq<int>>, p: Pair, idx: int) returns (ids: seq<seq<int>>)
    ensures ids == MergeEach(input, p, idx)
  {
    ids := input;
    for c := 0 to |ids|
      invariant |ids| == |input|
      invariant forall d | 0 <= d < c :: ids[d] == Merge(input[d], p, idx)
      invariant forall d | c <= d < |ids| :: ids[d] == input[d]
    {
      var merged := MergeInPlace(ids[c], p, idx);
      ids := ids[c := merged];
    }
  }

  lemma RoundsNonEmpty(chunks: seq<seq<int>>, order: seq<Pair>)
    requires ByteChunks(chunks) && TrainingRun(chunks, order)
    ensures forall c | 0 <= c < |chunks| :: RoundsAll(chunks, order)[c] != []
  {
    RunInvariant(chunks, order);
    forall c | 0 <= c < |chunks| ensures RoundsAll(chunks, order)[c] != [] {
      assert Settled(RoundsAll(chunks, order)[c], order);
    }
  }

  /** The pair to merge next, or none where the source has no pair to pick. */
  method PickTop(ids: seq<seq<int>>) returns (pick: Option<Pair>)
    requires forall c | 0 <= c < |ids| :: ids[c] != []
    ensures pick.Some? ==> MostFrequent(ids, pick.value)
    ensures pick.None? ==> NoPairs(ids)
  {
    var stats := CountAll(ids);
    if stats.keys == [] {
      assert forall p :: p !in AllPairs(ids);
      NoPairAnywhere(ids);
      return None;
    }
    var best := GetMaxPair(stats, AllPairs(ids));
    TopIsMostFrequent(ids, best);
    pick := Some(best);
  }

  lemma TableStep(merges: OrderedMap<Pair, int>, order: seq<Pair>, p: Pair)
    requires TableOf(merges, order) && p !in order
    ensures TableOf(merges.Put(p, BYTES + |order|), order + [p])
  {
    assert p !in merges.at;
  }

  lemma VocabStep(vocab: Vocab, order: seq<Pair>, p: Pair)
    requires VocabOf(vocab, order) && Grounded(order + [p])
    requires p.first in vocab && p.second in vocab
    ensures VocabOf(vocab[BYTES + |order| := vocab[p.first] + vocab[p.second]], order + [p])
  {
    var r := vocab[BYTES + |order| := vocab[p.first] + vocab[p.second]];
    forall i | 0 <= i < |order| + 1
      ensures var q := (order + [p])[i]; r[BYTES + i] == r[q.first] + r[q.second]
    {
      assert Grounded(order);
    }
  }

  /** A table and a vocabulary that come from a training run over `chunks`. */
  ghost predicate Learned(chunks: seq<seq<int>>, table: OrderedMap<Pair, int>, words: Vocab) {
    TableOf(table, table.keys) && VocabOf(words, table.keys) && TrainingRun(chunks, table.keys)
  }

  lemma FreshInRun(chunks: seq<seq<int>>, order: seq<Pair>, p: Pair)
    requires ByteChunks(chunks) && TrainingRun(chunks, order) && MostFrequent(RoundsAll(chunks, order), p)
    ensures p !in order && Grounded(order + [p])
    ensures 0 <= p.first < BYTES + |order| && 0 <= p.second < BYTES + |order|
  {
    RunInvariant(chunks, order);
    MostFrequentIsFresh(RoundsAll(chunks, order), order, p);
    GroundedStep(order, p);
  }

  lemma RunExtends(chunks: seq<seq<int>>, order: seq<Pair>, p: Pair)
    requires TrainingRun(chunks, order) && MostFrequent(RoundsAll(chunks, order), p)
    ensures TrainingRun(chunks, order + [p])
  {
    assert (order + [p])[..|order|] == order;
  }

  lemma LearnedStep(chunks: seq<seq<int>>, table: OrderedMap<Pair, int>, words: Vocab, p: Pair)
    requires ByteChunks(chunks) && Learned(chunks, table, words)
    requires MostFrequent(RoundsAll(chunks, table.keys), p)
    ensures p !in table.at && p.first in words && p.second in words
    ensures var idx := BYTES + |table.keys|;
            Learned(chunks, table.Put(p, idx), words[idx := words[p.first] + words[p.second]])
  {
    FreshInRun(chunks, table.keys, p);
    TableStep(table, table.keys, p);
    VocabStep(words, table.keys, p);
    RunExtends(chunks, table.keys, p);
  }

  /** A trained tokenizer is lossless, on the training chunks and on any other text. */
  lemma TrainedIsLossless(
    training: seq<Bytes>, table: OrderedMap<Pair, int>, words: Vocab, specials: Vocab, text: seq<Bytes>
  )
    requires ByteChunks(training) && Learned(training, table, words) && BYTES + |table.keys| <= INT32_MAX
    ensures forall c | 0 <= c < |training| ::
      var ids := Rounds(training[c], table.keys);
      Known(words, ids) && Expand(words, ids) == training[c]
    ensures DecodeText(words, specials, EncodeAll(text, table.at)) == Ok(Flatten(text))
  {
    VocabSpells(words, table, table.keys);
    forall c | 0 <= c < |training|
      ensures var ids := Rounds(training[c], table.keys);
              Known(words, ids) && Expand(words, ids) == training[c]
    {
      EncodingReproducesTraining(training, table, table.keys, c);
      ExpandBytes(words, training[c]);
      GreedyKeepsExpansion(words, training[c], table.at);
    }
    RoundTrip(words, specials, table.at, text);
  }

  /** The training loop: stops early only where the source has no pair to pick. */
  method LearnMerges(chunks: seq<seq<int>>, rounds: nat) returns (table: OrderedMap<Pair, int>, words: Vocab)
    requires ByteChunks(chunks)
    ensures |table.keys| <= rounds && Learned(chunks, table, words)
    ensures |table.keys| < rounds ==> NoPairs(RoundsAll(chunks, table.keys))
  {
    var ids := chunks;
    table := Empty();
    words := map b: Byte | 0 <= b < 256 :: b := [b];
    assert ids == RoundsAll(chunks, []);
    for i := 0 to rounds
      invariant |table.keys| == i && Learned(chunks, table, words)
      invariant ids == RoundsAll(chunks, table.keys)
    {
      RoundsNonEmpty(chunks, table.keys);
      var pick := PickTop(ids);
      if pick.None? {
        return;
      }
      var pair, idx := pick.value, BYTES + i;
      LearnedStep(chunks, table, words, pair);
      ids := MergeAll(ids, pair, idx);
      RoundsStep(chunks, table.keys, pair);
      table := table.Put(pair, idx);
      words := words[idx := words[pair.first] + words[pair.second]];
    }
  }

  class Tokenizer {
    var merges: OrderedMap<Pair, int>
    var vocab: Vocab
    var specials: Vocab  // id to text of the special tokens

    constructor (ranks: OrderedMap<Pair, int>, words: Vocab, specialTokens: Vocab)
      ensures merges == ranks && vocab == words && specials == specialTokens
    {
      merges, vocab, specials := ranks, words, specialTokens;
    }

    /** Learns `vocabSize - 256` merges from the chunks. */
    method Train(chunks: seq<Bytes>, vocabSize: int) returns (outcome: TrainOutcome)
      requires vocabSize <= INT32_MAX
      requires forall c | 0 <= c < |chunks| :: chunks[c] != []
      modifies `merges, `vocab
      ensures outcome.Rejected? <==> vocabSize < BYTES
      ensures !outcome.Trained? ==> merges == old(merges) && vocab == old(vocab)
      ensures outcome.Trained? ==>
        |merges.keys| == vocabSize - BYTES && Learned(chunks, merges, vocab)
      ensures outcome.NoPairLeft? ==>
        && |outcome.done| < vocabSize - BYTES && TrainingRun(chunks, outcome.done)
        && NoPairs(RoundsAll(chunks, outcome.done))
    {
      if vocabSize < BYTES {
        return Rejected;
      }
      var table, words := LearnMerges(chunks, vocabSize - BYTES);
      if |table.keys| < vocabSize - BYTES {
        return NoPairLeft(table.keys);
      }
      merges, vocab := table, words;
      outcome := Trained;
    }

    /** Encodes each chunk and concatenates the ids. */
    method EncodeOrdinary(chunks: seq<Bytes>) returns (ids: seq<int>)
      ensures RankedTable(merges.at) ==> ids == EncodeAll(chunks, merges.at)
      ensures Spells(vocab, merges.at) ==> Known(vocab, ids) && Expand(vocab, ids) == Flatten(chunks)
    {
      ids := [];
      for c := 0 to |chunks|
        invariant RankedTable(merges.at) ==> ids == EncodeAll(chunks[..c], merges.at)
        invariant Spells(vocab, merges.at) ==> Known(vocab, ids) && Expand(vocab, ids) == Flatten(chunks[..c])
      {
        var parts := EncodeIds(chunks[c], merges.at);
        assert chunks[..c + 1][..c] == chunks[..c];
        FlattenNext(chunks, c);
        if Spells(vocab, merges.at) {
          ExpandConcat(vocab, ids, parts);
        }
        ids := ids + parts;
      }
      assert chunks[..|chunks|] == chunks;
    }

    /** Appends the text of each id; an unknown id is an exception. */
    method Decode(ids: seq<int>) returns (text: Result<Bytes>)
      ensures text == DecodeText(vocab, specials, ids)
    {
      var bytes: Bytes := [];
      for i := 0 to |ids|
        invariant DecodeText(vocab, specials, ids[..i]) == Ok(bytes)
      {
        assert ids[..i + 1][..i] == ids[..i];
        if ids[i] in vocab {
          bytes := bytes + vocab[ids[i]];
        } else if ids[i] in specials {
          bytes := bytes + specials[ids[i]];
        } else {
          DecodeFails(vocab, specials, ids);
          return Err;
        }
      }
      assert ids[..|ids|] == ids;
      text := Ok(bytes);
    }
  }
}

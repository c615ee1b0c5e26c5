/** Encoding with recovered merges is joining by rank: the merge table loses nothing of the rank table. */
module TiktokenEncoding {
  import opened BytePairMerging
  import opened ByteStrings
  import opened OrderedMaps
  import opened RegexTokenizer
  import opened Sequences
  import opened TiktokenTokenizer

  // ----- a stretch of the parts is what joining the bytes of that stretch gives

  lemma FlattenSingles(s: Bytes, a: nat, b: nat)
    requires a <= b <= |s|
    ensures Singles(s)[a..b] == Singles(s[a..b]) && Flatten(Singles(s)[a..b]) == s[a..b]
  {
    assert Singles(s)[a..b] == Singles(s[a..b]);
    ConcatSingles(s[a..b]);
  }

  /** The best join of a list is the best of every stretch that contains it. */
  lemma BestInside(ranks: map<Bytes, int>, parts: seq<Bytes>, i: int, a: nat, b: nat)
    requires Best(ranks, parts, i) && a <= i && i + 1 < b <= |parts|
    ensures Best(ranks, parts[a..b], i - a) && JoinRank(ranks, parts[a..b], i - a) == JoinRank(ranks, parts, i)
  {
    var sub := parts[a..b];
    forall j | Joinable(ranks, sub, j)
      ensures Joinable(ranks, parts, j + a) && JoinRank(ranks, sub, j) == JoinRank(ranks, parts, j + a)
    {
      assert sub[j] == parts[j + a] && sub[j + 1] == parts[j + 1 + a];
    }
    assert sub[i - a] == parts[i] && sub[i - a + 1] == parts[i + 1];
  }

  lemma JoinInside(parts: seq<Bytes>, i: int, a: nat, b: nat)
    requires a <= i < |parts| - 1 && i < b < |parts|
    ensures Join(parts, i)[a..b] == Join(parts[a..b + 1], i - a)
  {
    var joined, sub := Join(parts, i), parts[a..b + 1];
    var x, y := joined[a..b], Join(sub, i - a);
    forall k | 0 <= k < b - a ensures x[k] == y[k] {
      if k < i - a {
        assert joined[a + k] == parts[a + k] && y[k] == sub[k];
      } else if k == i - a {
        assert joined[a + k] == parts[i] + parts[i + 1] && y[k] == sub[k] + sub[k + 1];
      } else {
        assert joined[a + k] == parts[a + k + 1] && y[k] == sub[k + 1];
      }
    }
  }

  lemma JoinOutside(parts: seq<Bytes>, i: int, a: nat, b: nat)
    requires 0 <= i < |parts| - 1 && a <= b < |parts|
    ensures b <= i ==> Join(parts, i)[a..b] == parts[a..b]
    ensures a > i ==> Join(parts, i)[a..b] == parts[a + 1..b + 1]
  {
    var joined := Join(parts, i);
    assert forall k | 0 <= k < i :: joined[k] == parts[k];
    assert forall k | i < k < |joined| :: joined[k] == parts[k + 1];
  }

  /** A chain for a stretch of the last list of a chain from single bytes. */
  lemma {:induction false} StretchChain(
    ranks: map<Bytes, int>, maxRank: int, s: Bytes, c: seq<seq<Bytes>>, a: nat, b: nat
  ) returns (d: seq<seq<Bytes>>)
    requires Chain(ranks, maxRank, c) && c[0] == Singles(s) && a <= b <= |c[|c| - 1]|
    ensures var stretch := c[|c| - 1][a..b]; Leads(ranks, maxRank, Singles(Flatten(stretch)), d, stretch)
    decreases |c|
  {
    var n := |c| - 1;
    if n == 0 {
      d := [c[0][a..b]];
      FlattenSingles(s, a, b);
    } else {
      var mid := c[n - 1];
      ChainAt(ranks, maxRank, c, n - 1);
      JoinsOnce(ranks, maxRank, mid, c[n], c[n]);
      var i :| Best(ranks, mid, i) && JoinRank(ranks, mid, i) < maxRank && c[n] == Join(mid, i);
      var lo, hi := if a > i then a + 1 else a, if b <= i then b else b + 1;
      assert Chain(ranks, maxRank, c[..n]) by { ChainPrefix(ranks, maxRank, c); }
      d := StretchChain(ranks, maxRank, s, c[..n], lo, hi);
      if a <= i < b {
        StretchJoins(ranks, maxRank, mid, i, a, b);
        ChainNext(ranks, maxRank, d, c[n][a..b]);
        d := d + [c[n][a..b]];
      } else {
        JoinOutside(mid, i, a, b);
      }
    }
  }

  lemma ChainPrefix(ranks: map<Bytes, int>, maxRank: int, c: seq<seq<Bytes>>)
    requires Chain(ranks, maxRank, c) && |c| > 1
    ensures Chain(ranks, maxRank, c[..|c| - 1])
  {
    var d := c[..|c| - 1];
    forall k | 0 <= k < |d| - 1 ensures Joins(ranks, maxRank, d[k], d[k + 1]) {
      assert Joins(ranks, maxRank, c[k], c[k + 1]);
    }
  }

  lemma StretchJoins(ranks: map<Bytes, int>, maxRank: int, mid: seq<Bytes>, i: int, a: nat, b: nat)
    requires Best(ranks, mid, i) && JoinRank(ranks, mid, i) < maxRank && a <= i < b < |mid|
    ensures Joins(ranks, maxRank, mid[a..b + 1], Join(mid, i)[a..b])
    ensures Flatten(mid[a..b + 1]) == Flatten(Join(mid, i)[a..b])
  {
    BestInside(ranks, mid, i, a, b + 1);
    JoinInside(mid, i, a, b);
    ConcatJoin(mid[a..b + 1], i - a);
  }

  lemma MoreRankJoins(ranks: map<Bytes, int>, low: int, high: int, before: seq<Bytes>, after: seq<Bytes>)
    requires Joins(ranks, low, before, after) && low <= high
    ensures Joins(ranks, high, before, after)
  {
    var i :| Best(ranks, before, i) && JoinRank(ranks, before, i) < low && after == Join(before, i);
  }

  lemma MoreRank(ranks: map<Bytes, int>, low: int, high: int, c: seq<seq<Bytes>>)
    requires Chain(ranks, low, c) && low <= high
    ensures Chain(ranks, high, c)
  {
    forall k | 0 <= k < |c| - 1 ensures Joins(ranks, high, c[k], c[k + 1]) {
      assert Joins(ranks, low, c[k], c[k + 1]);
      MoreRankJoins(ranks, low, high, c[k], c[k + 1]);
    }
  }

  /** Chains from the same start to lists of the same length end alike. */
  lemma SameLength(ranks: map<Bytes, int>, maxRank: int, c: seq<seq<Bytes>>, d: seq<seq<Bytes>>)
    requires Chain(ranks, maxRank, c) && Chain(ranks, maxRank, d) && c[0] == d[0]
    requires |c[|c| - 1]| == |d[|d| - 1]|
    ensures c[|c| - 1] == d[|d| - 1]
  {
    ChainLength(ranks, maxRank, c, |c| - 1);
    ChainLength(ranks, maxRank, d, |d| - 1);
    ChainUnique(ranks, maxRank, c, d, |c| - 1);
  }

  /** The best join on the way joins exactly the two parts that recovery finds for the joined token. */
  lemma BestIsRecovered(ranks: map<Bytes, int>, s: Bytes, c: seq<seq<Bytes>>, parts: seq<Bytes>, i: int)
    requires Leads(ranks, INT32_MAX, Singles(s), c, parts) && Best(ranks, parts, i)
    requires Splits(ranks, parts[i] + parts[i + 1])
    ensures var t := parts[i] + parts[i + 1];
      Bpe(ranks, Singles(t), ranks[t]) == [parts[i], parts[i + 1]]
  {
    var t := parts[i] + parts[i + 1];
    var two := parts[i..i + 2];
    assert two == [parts[i], parts[i + 1]];
    assert Flatten(two) == t by { ConcatTwo(two); }
    var d := StretchChain(ranks, INT32_MAX, s, c, i, i + 2);
    var e := BpeEnds(ranks, Singles(t), ranks[t]);
    MoreRank(ranks, ranks[t], INT32_MAX, e);
    SameLength(ranks, INT32_MAX, d, e);
  }

  // ----- the recovered table holds exactly the recovered pairs

  /** `p` was recovered from the `i`-th token and carries its rank. */
  ghost predicate RecoveredFrom(table: TokenRanks, ranks: OrderedMap<Pair, int>, p: Pair, i: int) {
    && 0 <= i < |table.keys| && |table.keys[i]| != 1 && Splits(table.at, table.keys[i])
    && p == PairOf(table.at, table.keys[i]) && p in ranks.at && ranks.at[p] == table.at[table.keys[i]]
  }

  lemma {:induction false} EntryRecovered(table: TokenRanks, n: nat, p: Pair) returns (i: int)
    requires n <= |table.keys| && p in Recovered(table, n).at
    ensures i < n && RecoveredFrom(table, Recovered(table, n), p, i)
  {
    var before, t := Recovered(table, n - 1), table.keys[n - 1];
    if p in before.at {
      i := EntryRecovered(table, n - 1, p);
    } else {
      i := n - 1;
    }
  }

  lemma {:induction false} TokenRecovered(table: TokenRanks, n: nat, i: nat)
    requires i < n <= |table.keys| && |table.keys[i]| != 1 && Splits(table.at, table.keys[i])
    ensures PairOf(table.at, table.keys[i]) in Recovered(table, n).at
  {
    if i < n - 1 {
      TokenRecovered(table, n - 1, i);
    }
  }

  /** A recovered pair belongs to one token. */
  lemma PairDeterminesToken(table: TokenRanks, s: Bytes, t: Bytes)
    requires RankTable(table) && |s| > 1 && |t| > 1 && Splits(table.at, s) && Splits(table.at, t)
    requires PairOf(table.at, s) == PairOf(table.at, t)
    ensures s == t
  {
    var c := SplitIsCut(table, s);
    var d := SplitIsCut(table, t);
    SamePairSameToken(table, s, c, t, d);
  }

  /** Every longer token has its recovered pair in the table, with its rank. */
  lemma TokenInTable(table: TokenRanks, t: Bytes)
    requires RankTable(table) && Recoverable(table, |table.keys|) && t in table.at && |t| > 1
    ensures Splits(table.at, t)
    ensures var m, p := Recovered(table, |table.keys|).at, PairOf(table.at, t); p in m && m[p] == table.at[t]
  {
    assert t in table.keys;
    var i :| 0 <= i < |table.keys| && table.keys[i] == t;
    assert Splits(table.at, table.keys[i]);
    TokenRecovered(table, |table.keys|, i);
    var p := PairOf(table.at, t);
    var j := EntryRecovered(table, |table.keys|, p);
    PairDeterminesToken(table, t, table.keys[j]);
  }

  // ----- merging ids follows joining parts

  ghost predicate Tokens(at: map<Bytes, int>, parts: seq<Bytes>) {
    forall i | 0 <= i < |parts| :: parts[i] in at && parts[i] != []
  }

  /** The ranks of the parts. */
  function Ids(at: map<Bytes, int>, parts: seq<Bytes>): (r: seq<int>)
    ensures |r| == |parts| && forall i | 0 <= i < |r| && parts[i] in at :: r[i] == at[parts[i]]
  {
    seq(|parts|, i requires 0 <= i < |parts| => if parts[i] in at then at[parts[i]] else 0)
  }

  /** The two parts of a recovered pair, and how the pair stands among the ids. */
  lemma PairParts(table: TokenRanks, t: Bytes, x: Bytes, y: Bytes)
    requires Splits(table.at, t) && Bpe(table.at, Singles(t), table.at[t]) == [x, y]
    ensures x in table.at && y in table.at && PairOf(table.at, t) == Pair(table.at[x], table.at[y])
  {
  }

  /** A recovered pair standing in the ids is a join of the parts, of the same rank. */
  lemma PairIsJoin(table: TokenRanks, parts: seq<Bytes>, q: Pair, j: int)
    requires RankTable(table) && Recoverable(table, |table.keys|) && Tokens(table.at, parts)
    requires var m := Recovered(table, |table.keys|).at; Eligible(m, q) && At(Ids(table.at, parts), q, j)
    ensures Joinable(table.at, parts, j)
    ensures JoinRank(table.at, parts, j) == Recovered(table, |table.keys|).at[q]
  {
    var k := EntryRecovered(table, |table.keys|, q);
    var t := table.keys[k];
    var split := Bpe(table.at, Singles(t), table.at[t]);
    assert split == [split[0], split[1]];
    PairParts(table, t, split[0], split[1]);
    BpeTiles(table.at, Singles(t), table.at[t]);
    ConcatSingles(t);
    ConcatTwo(split);
    RanksDistinct(table, parts[j], split[0]);
    RanksDistinct(table, parts[j + 1], split[1]);
  }

  /** The ids after a join. */
  lemma JoinedIds(at: map<Bytes, int>, parts: seq<Bytes>, i: int)
    requires Joinable(at, parts, i) && Tokens(at, parts)
    ensures Tokens(at, Join(parts, i))
    ensures Ids(at, Join(parts, i)) == Ids(at, parts)[..i] + [JoinRank(at, parts, i)] + Ids(at, parts)[i + 2..]
  {
  }

  lemma BestStands(table: TokenRanks, s: Bytes, c: seq<seq<Bytes>>, parts: seq<Bytes>, i: int)
    returns (p: Pair)
    requires RankTable(table) && Recoverable(table, |table.keys|) && Tokens(table.at, parts)
    requires Leads(table.at, INT32_MAX, Singles(s), c, parts) && Best(table.at, parts, i)
    ensures var m := Recovered(table, |table.keys|).at;
      p in m && m[p] == JoinRank(table.at, parts, i) && At(Ids(table.at, parts), p, i)
  {
    var t := parts[i] + parts[i + 1];
    assert parts[i] != [] && parts[i + 1] != [];
    TokenInTable(table, t);
    BestIsRecovered(table.at, s, c, parts, i);
    PairParts(table, t, parts[i], parts[i + 1]);
    p := PairOf(table.at, t);
  }

  /** The best join is the lowest-ranked pair of the ids, at its leftmost place. */
  lemma BestIsLowest(table: TokenRanks, parts: seq<Bytes>, i: int, p: Pair)
    requires RankTable(table) && Recoverable(table, |table.keys|) && Tokens(table.at, parts)
    requires Best(table.at, parts, i)
    requires var m := Recovered(table, |table.keys|).at;
      p in m && m[p] == JoinRank(table.at, parts, i) && At(Ids(table.at, parts), p, i)
    ensures LowestPresent(Ids(table.at, parts), Recovered(table, |table.keys|).at, p)
    ensures forall j | 0 <= j < i :: !At(Ids(table.at, parts), p, j)
  {
    var m, ids := Recovered(table, |table.keys|).at, Ids(table.at, parts);
    forall q | Eligible(m, q) && Occurs(ids, q) ensures m[p] <= m[q] {
      var j :| At(ids, q, j);
      PairIsJoin(table, parts, q, j);
    }
    forall j | 0 <= j < i ensures !At(ids, p, j) {
      if At(ids, p, j) {
        PairIsJoin(table, parts, p, j);
      }
    }
  }

  lemma MergeFollowsJoin(table: TokenRanks, s: Bytes, c: seq<seq<Bytes>>, parts: seq<Bytes>, i: int)
    requires RankTable(table) && Recoverable(table, |table.keys|) && Tokens(table.at, parts)
    requires Leads(table.at, INT32_MAX, Singles(s), c, parts) && Best(table.at, parts, i)
    ensures Tokens(table.at, Join(parts, i))
    ensures var m := Recovered(table, |table.keys|).at;
      Greedy(Ids(table.at, parts), m) == Greedy(Ids(table.at, Join(parts, i)), m)
  {
    var at, m := table.at, Recovered(table, |table.keys|).at;
    var p := BestStands(table, s, c, parts, i);
    BestIsLowest(table, parts, i, p);
    assert RankedTable(m) by { RebuiltTokenizer(table); }
    GreedyOne(Ids(at, parts), m, p, i);
    JoinedIds(at, parts, i);
  }

  lemma BestJoins(ranks: map<Bytes, int>, parts: seq<Bytes>, i: int)
    requires Best(ranks, parts, i)
    ensures Joins(ranks, INT32_MAX, parts, Join(parts, i))
  {
  }

  /** Greedy merging of the ids of the parts gives the ids of the parts joined to the end. */
  lemma {:induction false} MergingFollowsJoining(table: TokenRanks, s: Bytes, c: seq<seq<Bytes>>, parts: seq<Bytes>)
    requires RankTable(table) && Recoverable(table, |table.keys|) && Tokens(table.at, parts)
    requires Leads(table.at, INT32_MAX, Singles(s), c, parts)
    ensures Greedy(Ids(table.at, parts), Recovered(table, |table.keys|).at) ==
            Ids(table.at, Bpe(table.at, parts, INT32_MAX))
    decreases |parts|
  {
    var at := table.at;
    if i :| Best(at, parts, i) {
      var next := Join(parts, i);
      MergeFollowsJoin(table, s, c, parts, i);
      assert Bpe(at, parts, INT32_MAX) == Bpe(at, next, INT32_MAX) by { BpeUnfolds(at, parts, INT32_MAX, i); }
      assert Chain(at, INT32_MAX, c + [next]) by {
        BestJoins(at, parts, i);
        ChainNext(at, INT32_MAX, c, next);
      }
      MergingFollowsJoining(table, s, c + [next], next);
    } else {
      NothingToMerge(table, parts);
    }
  }

  lemma NothingToMerge(table: TokenRanks, parts: seq<Bytes>)
    requires RankTable(table) && Recoverable(table, |table.keys|) && Tokens(table.at, parts)
    requires forall i :: !Best(table.at, parts, i)
    ensures Greedy(Ids(table.at, parts), Recovered(table, |table.keys|).at) == Ids(table.at, parts)
    ensures Bpe(table.at, parts, INT32_MAX) == parts
  {
    var m, ids := Recovered(table, |table.keys|).at, Ids(table.at, parts);
    forall q | Eligible(m, q) ensures !Occurs(ids, q) {
      if j :| At(ids, q, j) {
        PairIsJoin(table, parts, q, j);
        var i := BestExists(table.at, parts, j);
      }
    }
    assert forall p :: !LowestPresent(ids, m, p);
  }

  // ----- encoding

  /** The shuffled bytes of a text are the ranks of its single bytes. */
  lemma ShuffledIsIds(table: TokenRanks, text: Bytes)
    requires RankTable(table)
    ensures Tokens(table.at, Singles(text)) && Shuffled(table.at, text) == Ids(table.at, Singles(text))
  {
    forall i | 0 <= i < |text|
      ensures Singles(text)[i] in table.at && Shuffle(table.at, text[i]) == table.at[[text[i]]]
    {
      var b: Byte := text[i];
      assert [b] in table.at;
    }
  }

  /** For every text: greedy encoding of the shuffled bytes with the recovered merges gives the ranks of
      the parts that joining by lowest rank leaves of the text. */
  lemma EncodingIsJoining(table: TokenRanks, text: Bytes)
    requires RankTable(table) && Recoverable(table, |table.keys|)
    ensures Greedy(Shuffled(table.at, text), Recovered(table, |table.keys|).at) ==
            Ids(table.at, Bpe(table.at, Singles(text), INT32_MAX))
  {
    ShuffledIsIds(table, text);
    MergingFollowsJoining(table, text, [Singles(text)], Singles(text));
  }

  lemma {:induction false} BpeGoesOn(ranks: map<Bytes, int>, parts: seq<Bytes>, maxRank: int)
    requires maxRank <= INT32_MAX
    ensures Bpe(ranks, parts, INT32_MAX) == Bpe(ranks, Bpe(ranks, parts, maxRank), INT32_MAX)
    decreases |parts|
  {
    if i :| Best(ranks, parts, i) && JoinRank(ranks, parts, i) < maxRank {
      BpeUnfolds(ranks, parts, maxRank, i);
      BpeUnfolds(ranks, parts, INT32_MAX, i);
      BpeGoesOn(ranks, Join(parts, i), maxRank);
    }
  }

  lemma TokenJoins(table: TokenRanks, t: Bytes)
    requires RankTable(table) && Recoverable(table, |table.keys|) && t in table.at && table.at[t] < INT32_MAX
    ensures Bpe(table.at, Singles(t), INT32_MAX) == [t]
  {
    var at := table.at;
    assert t in table.keys && t != [];
    if |t| == 1 {
      assert t == [t[0]] && Singles(t) == [[t[0]]];
    } else {
      TokenInTable(table, t);
      var two := Bpe(at, Singles(t), at[t]);
      BpeTiles(at, Singles(t), at[t]);
      ConcatSingles(t);
      ConcatTwo(two);
      BpeGoesOn(at, Singles(t), at[t]);
      assert Best(at, two, 0);
      BpeUnfolds(at, two, INT32_MAX, 0);
      assert Join(two, 0) == [t];
    }
  }

  /** Encoding a token of the rank file gives exactly its rank. */
  lemma TokenEncodesToRank(table: TokenRanks, t: Bytes)
    requires RankTable(table) && Recoverable(table, |table.keys|) && t in table.at && table.at[t] < INT32_MAX
    ensures Greedy(Shuffled(table.at, t), Recovered(table, |table.keys|).at) == [table.at[t]]
  {
    EncodingIsJoining(table, t);
    TokenJoins(table, t);
  }

  /** A tokenizer loaded from a rank file encodes every text to the ranks of the parts joined by lowest rank,
      and every token to its rank. */
  lemma LoadedEncodes(tokenizer: TiktokenTokenizer.Tokenizer, table: TokenRanks, text: Bytes)
    requires RankTable(table) && tokenizer.LoadedFrom(table)
    ensures Translate(tokenizer.shuffle, text).Ok?
    ensures var ids := Greedy(Translate(tokenizer.shuffle, text).value, tokenizer.merges.at);
      && ids == Ids(table.at, Bpe(table.at, Singles(text), INT32_MAX))
      && (text in table.at && table.at[text] < INT32_MAX ==> ids == [table.at[text]])
  {
    assert Translate(tokenizer.shuffle, text).value == Shuffled(table.at, text);
    EncodingIsJoining(table, text);
    if text in table.at && table.at[text] < INT32_MAX {
      TokenEncodesToRank(table, text);
    }
  }
}

/** Rebuilding a byte-pair tokenizer from a flat table of token ranks. */
module TiktokenTokenizer {
  import opened BytePairMerging
  import opened ByteStrings
  import opened OrderedMaps
  import opened RegexTokenizer
  import opened Sequences
  import opened Wrappers

  type TokenRanks = OrderedMap<Bytes, int>

  // ----- splitting a token into the two parts it was merged from

  predicate Joinable(ranks: map<Bytes, int>, parts: seq<Bytes>, i: int) {
    0 <= i < |parts| - 1 && parts[i] + parts[i + 1] in ranks && ranks[parts[i] + parts[i + 1]] < INT32_MAX
  }

  function JoinRank(ranks: map<Bytes, int>, parts: seq<Bytes>, i: int): int
    requires Joinable(ranks, parts, i)
  {
    ranks[parts[i] + parts[i + 1]]
  }

  /** The leftmost join of lowest rank. */
  ghost predicate Best(ranks: map<Bytes, int>, parts: seq<Bytes>, i: int) {
    && Joinable(ranks, parts, i)
    && (forall j | Joinable(ranks, parts, j) :: JoinRank(ranks, parts, i) <= JoinRank(ranks, parts, j))
    && (forall j | Joinable(ranks, parts, j) && j < i :: JoinRank(ranks, parts, i) < JoinRank(ranks, parts, j))
  }

  function Join(parts: seq<Bytes>, i: int): (r: seq<Bytes>)
    requires 0 <= i < |parts| - 1
    ensures |r| == |parts| - 1
  {
    parts[..i] + [parts[i] + parts[i + 1]] + parts[i + 2..]
  }

  /** Joins of rank below `maxRank`, lowest rank first, until none is left. */
  ghost function Bpe(ranks: map<Bytes, int>, parts: seq<Bytes>, maxRank: int): seq<Bytes>
    decreases |parts|
  {
    if i :| Best(ranks, parts, i) && JoinRank(ranks, parts, i) < maxRank
    then Bpe(ranks, Join(parts, i), maxRank)
    else parts
  }

  function Singles(token: Bytes): (r: seq<Bytes>)
    ensures |r| == |token| && forall i | 0 <= i < |r| :: r[i] == [token[i]]
  {
    seq(|token|, i requires 0 <= i < |token| => [token[i]])
  }

  /** The search for the next join. */
  method FindBest(ranks: map<Bytes, int>, parts: seq<Bytes>) returns (best: int)
    requires parts != []
    ensures best == -1 ==> forall j :: !Joinable(ranks, parts, j)
    ensures best != -1 ==> Best(ranks, parts, best)
  {
    var minRank := INT32_MAX;
    best := -1;
    for i := 0 to |parts| - 1
      invariant best == -1 ==> minRank == INT32_MAX
      invariant best != -1 ==> best < i && Joinable(ranks, parts, best) && minRank == JoinRank(ranks, parts, best)
      invariant forall j | 0 <= j < i && Joinable(ranks, parts, j) ::
        minRank <= JoinRank(ranks, parts, j) && (j < best ==> minRank < JoinRank(ranks, parts, j))
    {
      var key := parts[i] + parts[i + 1];
      if key in ranks && ranks[key] < minRank {
        minRank := ranks[key];
        best := i;
      }
    }
  }

  // ----- the joins one after the other, without naming the function above

  /** The leftmost join of lowest rank is made, and that rank is below `maxRank`. */
  ghost predicate Joins(ranks: map<Bytes, int>, maxRank: int, before: seq<Bytes>, after: seq<Bytes>) {
    exists i :: Best(ranks, before, i) && JoinRank(ranks, before, i) < maxRank && after == Join(before, i)
  }

  /** A chain of such joins. */
  ghost predicate Chain(ranks: map<Bytes, int>, maxRank: int, c: seq<seq<Bytes>>) {
    && c != []
    && forall k {:trigger Joins(ranks, maxRank, c[k], c[k + 1])} | 0 <= k < |c| - 1 ::
         Joins(ranks, maxRank, c[k], c[k + 1])
  }

  /** The chain leads from `from` to `to`. */
  ghost predicate Leads(ranks: map<Bytes, int>, maxRank: int, from: seq<Bytes>, c: seq<seq<Bytes>>, to: seq<Bytes>) {
    Chain(ranks, maxRank, c) && c[0] == from && c[|c| - 1] == to
  }

  /** No join of rank below `maxRank` is left. */
  ghost predicate Exhausted(ranks: map<Bytes, int>, maxRank: int, parts: seq<Bytes>) {
    forall j | Joinable(ranks, parts, j) :: JoinRank(ranks, parts, j) >= maxRank
  }

  lemma JoinsOnce(ranks: map<Bytes, int>, maxRank: int, before: seq<Bytes>, a: seq<Bytes>, b: seq<Bytes>)
    requires Joins(ranks, maxRank, before, a) && Joins(ranks, maxRank, before, b)
    ensures a == b && |a| == |before| - 1
  {
    var i :| Best(ranks, before, i) && JoinRank(ranks, before, i) < maxRank && a == Join(before, i);
    var j :| Best(ranks, before, j) && JoinRank(ranks, before, j) < maxRank && b == Join(before, j);
    assert |Join(before, i)| == |before| - 1;
  }

  lemma ChainAt(ranks: map<Bytes, int>, maxRank: int, c: seq<seq<Bytes>>, k: nat)
    requires Chain(ranks, maxRank, c) && k < |c| - 1
    ensures Joins(ranks, maxRank, c[k], c[k + 1])
  {
  }

  lemma ChainNext(ranks: map<Bytes, int>, maxRank: int, c: seq<seq<Bytes>>, next: seq<Bytes>)
    requires Chain(ranks, maxRank, c) && Joins(ranks, maxRank, c[|c| - 1], next)
    ensures Chain(ranks, maxRank, c + [next])
  {
    var d := c + [next];
    forall k | 0 <= k < |d| - 1 ensures Joins(ranks, maxRank, d[k], d[k + 1]) {
      if k < |c| - 1 {
        assert Joins(ranks, maxRank, c[k], c[k + 1]);
      }
    }
  }

  lemma ChainFront(ranks: map<Bytes, int>, maxRank: int, first: seq<Bytes>, c: seq<seq<Bytes>>)
    requires Chain(ranks, maxRank, c) && Joins(ranks, maxRank, first, c[0])
    ensures Chain(ranks, maxRank, [first] + c)
  {
    var d := [first] + c;
    forall k | 0 <= k < |d| - 1 ensures Joins(ranks, maxRank, d[k], d[k + 1]) {
      assert d[k + 1] == c[k];
      if k > 0 {
        assert d[k] == c[k - 1];
        ChainAt(ranks, maxRank, c, k - 1);
      } else {
        assert d[0] == first;
      }
    }
  }

  lemma {:induction false} ChainLength(ranks: map<Bytes, int>, maxRank: int, c: seq<seq<Bytes>>, k: nat)
    requires Chain(ranks, maxRank, c) && k < |c|
    ensures |c[k]| == |c[0]| - k
  {
    if k > 0 {
      ChainLength(ranks, maxRank, c, k - 1);
      ChainAt(ranks, maxRank, c, k - 1);
      JoinsOnce(ranks, maxRank, c[k - 1], c[k], c[k]);
    }
  }

  /** The joins are determined step by step. */
  lemma {:induction false} ChainUnique(
    ranks: map<Bytes, int>, maxRank: int, c: seq<seq<Bytes>>, d: seq<seq<Bytes>>, k: nat
  )
    requires Chain(ranks, maxRank, c) && Chain(ranks, maxRank, d) && c[0] == d[0] && k < |c| && k < |d|
    ensures c[k] == d[k]
  {
    if k > 0 {
      ChainUnique(ranks, maxRank, c, d, k - 1);
      ChainAt(ranks, maxRank, c, k - 1);
      ChainAt(ranks, maxRank, d, k - 1);
      JoinsOnce(ranks, maxRank, c[k - 1], c[k], d[k]);
    }
  }

  lemma JoinsNotExhausted(ranks: map<Bytes, int>, maxRank: int, before: seq<Bytes>, after: seq<Bytes>)
    requires Joins(ranks, maxRank, before, after)
    ensures !Exhausted(ranks, maxRank, before)
  {
    var i :| Best(ranks, before, i) && JoinRank(ranks, before, i) < maxRank;
    assert Joinable(ranks, before, i);
  }

  lemma NotLonger(ranks: map<Bytes, int>, maxRank: int, c: seq<seq<Bytes>>, d: seq<seq<Bytes>>)
    requires Chain(ranks, maxRank, c) && Chain(ranks, maxRank, d) && c[0] == d[0]
    requires Exhausted(ranks, maxRank, c[|c| - 1])
    ensures |d| <= |c|
  {
    if |c| < |d| {
      var k := |c| - 1;
      ChainUnique(ranks, maxRank, c, d, k);
      assert Joins(ranks, maxRank, d[k], d[k + 1]);
      JoinsNotExhausted(ranks, maxRank, d[k], d[k + 1]);
    }
  }

  /** Only one list ends a chain and is exhausted. */
  lemma ExhaustedUnique(ranks: map<Bytes, int>, maxRank: int, c: seq<seq<Bytes>>, d: seq<seq<Bytes>>)
    requires Chain(ranks, maxRank, c) && Chain(ranks, maxRank, d) && c[0] == d[0]
    requires Exhausted(ranks, maxRank, c[|c| - 1]) && Exhausted(ranks, maxRank, d[|d| - 1])
    ensures c == d
  {
    NotLonger(ranks, maxRank, c, d);
    NotLonger(ranks, maxRank, d, c);
    forall k | 0 <= k < |c| ensures c[k] == d[k] {
      ChainUnique(ranks, maxRank, c, d, k);
    }
  }

  lemma BpeUnfolds(ranks: map<Bytes, int>, parts: seq<Bytes>, maxRank: int, i: int)
    requires Best(ranks, parts, i) && JoinRank(ranks, parts, i) < maxRank
    ensures Bpe(ranks, parts, maxRank) == Bpe(ranks, Join(parts, i), maxRank)
  {
    assert forall j | Best(ranks, parts, j) :: j == i;
  }

  lemma BpeStops(ranks: map<Bytes, int>, parts: seq<Bytes>, maxRank: int)
    requires Exhausted(ranks, maxRank, parts)
    ensures Bpe(ranks, parts, maxRank) == parts
  {
  }

  /** The best of the joins before index `m`. */
  ghost predicate BestBefore(ranks: map<Bytes, int>, parts: seq<Bytes>, m: int, i: int) {
    && Joinable(ranks, parts, i) && i < m
    && (forall j | Joinable(ranks, parts, j) && j < m :: JoinRank(ranks, parts, i) <= JoinRank(ranks, parts, j))
    && (forall j | Joinable(ranks, parts, j) && j < i :: JoinRank(ranks, parts, i) < JoinRank(ranks, parts, j))
  }

  lemma {:induction false} FirstBest(ranks: map<Bytes, int>, parts: seq<Bytes>, m: nat, j: int) returns (i: int)
    requires Joinable(ranks, parts, j) && j < m
    ensures BestBefore(ranks, parts, m, i)
  {
    if exists k :: Joinable(ranks, parts, k) && k < m - 1 {
      var k :| Joinable(ranks, parts, k) && k < m - 1;
      i := FirstBest(ranks, parts, m - 1, k);
      if Joinable(ranks, parts, m - 1) && JoinRank(ranks, parts, m - 1) < JoinRank(ranks, parts, i) {
        i := m - 1;
      }
    } else {
      i := j;
    }
  }

  /** Where something can be joined there is a best join. */
  lemma BestExists(ranks: map<Bytes, int>, parts: seq<Bytes>, j: int) returns (i: int)
    requires Joinable(ranks, parts, j)
    ensures Best(ranks, parts, i)
  {
    i := FirstBest(ranks, parts, |parts|, j);
  }

  lemma {:induction false} BpeEnds(ranks: map<Bytes, int>, parts: seq<Bytes>, maxRank: int)
    returns (c: seq<seq<Bytes>>)
    ensures Leads(ranks, maxRank, parts, c, Bpe(ranks, parts, maxRank))
    ensures Exhausted(ranks, maxRank, Bpe(ranks, parts, maxRank))
    decreases |parts|
  {
    if i :| Best(ranks, parts, i) && JoinRank(ranks, parts, i) < maxRank {
      BpeUnfolds(ranks, parts, maxRank, i);
      c := BpeEnds(ranks, Join(parts, i), maxRank);
      ChainFront(ranks, maxRank, parts, c);
      c := [parts] + c;
    } else {
      c := [parts];
      if j :| Joinable(ranks, parts, j) && JoinRank(ranks, parts, j) < maxRank {
        var i := BestExists(ranks, parts, j);
      }
    }
  }

  lemma ChainIsBpe(ranks: map<Bytes, int>, maxRank: int, c: seq<seq<Bytes>>)
    requires Chain(ranks, maxRank, c) && Exhausted(ranks, maxRank, c[|c| - 1])
    ensures c[|c| - 1] == Bpe(ranks, c[0], maxRank)
  {
    var d := BpeEnds(ranks, c[0], maxRank);
    ExhaustedUnique(ranks, maxRank, c, d);
  }

  /** One round of the splitting loop; none when no join is left. */
  method JoinNext(ranks: map<Bytes, int>, parts: seq<Bytes>, maxRank: int) returns (r: Option<seq<Bytes>>)
    requires parts != []
    ensures r.None? ==> Exhausted(ranks, maxRank, parts)
    ensures r.Some? ==> Joins(ranks, maxRank, parts, r.value)
  {
    var i := FindBest(ranks, parts);
    if i == -1 || JoinRank(ranks, parts, i) >= maxRank {
      return None;
    }
    r := Some(Join(parts, i));
  }

  /** Splits a token: joins from its single bytes on until no join below `maxRank` is left. */
  method SplitToken(ranks: map<Bytes, int>, token: Bytes, maxRank: int) returns (parts: seq<Bytes>)
    requires token != []
    ensures parts == Bpe(ranks, Singles(token), maxRank)
    ensures (exists c :: Leads(ranks, maxRank, Singles(token), c, parts)) && Exhausted(ranks, maxRank, parts)
  {
    parts := Singles(token);
    ghost var chain := [parts];
    while true
      invariant parts != [] && Leads(ranks, maxRank, Singles(token), chain, parts)
      decreases |parts|
    {
      var next := JoinNext(ranks, parts, maxRank);
      if next.None? {
        ChainIsBpe(ranks, maxRank, chain);
        return;
      }
      JoinsOnce(ranks, maxRank, parts, next.value, next.value);
      ChainNext(ranks, maxRank, chain, next.value);
      parts, chain := next.value, chain + [next.value];
    }
  }

  lemma {:induction false} ConcatJoin(parts: seq<Bytes>, i: nat)
    requires i < |parts| - 1
    ensures Flatten(Join(parts, i)) == Flatten(parts)
  {
    if i == 0 {
      assert Join(parts, 0)[1..] == parts[2..] == parts[1..][1..];
      assert Flatten(parts) == parts[0] + (parts[1] + Flatten(parts[2..]));
    } else {
      assert Join(parts, i)[1..] == Join(parts[1..], i - 1);
      ConcatJoin(parts[1..], i - 1);
    }
  }

  lemma ConcatTwo(parts: seq<Bytes>)
    requires |parts| == 2
    ensures Flatten(parts) == parts[0] + parts[1]
  {
    assert Flatten(parts[1..]) == parts[1] + Flatten(parts[1..][1..]);
  }

  lemma {:induction false} ConcatSingles(token: Bytes)
    ensures Flatten(Singles(token)) == token
  {
    if token != [] {
      assert Singles(token)[1..] == Singles(token[1..]);
      ConcatSingles(token[1..]);
    }
  }

  /** A part is a single byte or a token of lower rank. */
  ghost predicate Part(ranks: map<Bytes, int>, part: Bytes, maxRank: int) {
    |part| == 1 || (|part| > 1 && part in ranks && ranks[part] < maxRank)
  }

  ghost predicate Parts(ranks: map<Bytes, int>, parts: seq<Bytes>, maxRank: int) {
    forall i | 0 <= i < |parts| :: Part(ranks, parts[i], maxRank)
  }

  lemma {:induction false} BpeTiles(ranks: map<Bytes, int>, parts: seq<Bytes>, maxRank: int)
    requires Parts(ranks, parts, maxRank)
    ensures Flatten(Bpe(ranks, parts, maxRank)) == Flatten(parts)
    ensures Parts(ranks, Bpe(ranks, parts, maxRank), maxRank)
    decreases |parts|
  {
    forall i | Best(ranks, parts, i) && JoinRank(ranks, parts, i) < maxRank
      ensures var r := Bpe(ranks, Join(parts, i), maxRank); Flatten(r) == Flatten(parts) && Parts(ranks, r, maxRank)
    {
      ConcatJoin(parts, i);
      BpeTiles(ranks, Join(parts, i), maxRank);
    }
  }

  // ----- recovering the merge table

  /** The token splits into two parts of the table. */
  ghost predicate Splits(ranks: map<Bytes, int>, token: Bytes) {
    token in ranks &&
    var parts := Bpe(ranks, Singles(token), ranks[token]);
    |parts| == 2 && parts[0] in ranks && parts[1] in ranks
  }

  /** The ranks of the two parts. */
  ghost function PairOf(ranks: map<Bytes, int>, token: Bytes): Pair
    requires Splits(ranks, token)
  {
    var parts := Bpe(ranks, Singles(token), ranks[token]);
    Pair(ranks[parts[0]], ranks[parts[1]])
  }

  /** Every longer token among the first `n` splits. */
  ghost predicate Recoverable(table: TokenRanks, n: nat)
    requires n <= |table.keys|
  {
    forall i {:trigger Splits(table.at, table.keys[i])} | 0 <= i < n && |table.keys[i]| != 1 ::
      Splits(table.at, table.keys[i])
  }

  /** The pairs of the first `n` tokens, in table order. */
  ghost function Recovered(table: TokenRanks, n: nat): OrderedMap<Pair, int>
    requires n <= |table.keys|
  {
    if n == 0 then Empty()
    else
      var token, before := table.keys[n - 1], Recovered(table, n - 1);
      if |token| != 1 && Splits(table.at, token) then before.Insert(PairOf(table.at, token), table.at[token])
      else before
  }

  /** Splitting an empty token would read outside the list of parts. */
  ghost predicate NoEmptyToken(table: TokenRanks) {
    forall i | 0 <= i < |table.keys| :: |table.keys[i]| > 0
  }

  method RecoverPair(at: map<Bytes, int>, token: Bytes) returns (pair: Result<Pair>)
    requires token != [] && token in at
    ensures pair.Ok? <==> Splits(at, token)
    ensures pair.Ok? ==> pair.value == PairOf(at, token)
  {
    var parts := SplitToken(at, token, at[token]);
    if |parts| != 2 || parts[0] !in at || parts[1] !in at {
      return Err;
    }
    pair := Ok(Pair(at[parts[0]], at[parts[1]]));
  }

  lemma {:induction false} RecoveredValid(table: TokenRanks, n: nat)
    requires n <= |table.keys|
    ensures Recovered(table, n).Valid()
  {
    if n > 0 {
      RecoveredValid(table, n - 1);
    }
  }

  lemma RecoverableNext(table: TokenRanks, n: nat)
    requires n < |table.keys| && Recoverable(table, n)
    ensures Recoverable(table, n + 1) <==> |table.keys[n]| == 1 || Splits(table.at, table.keys[n])
    ensures |table.keys[n]| != 1 && !Splits(table.at, table.keys[n]) ==> !Recoverable(table, |table.keys|)
  {
    assert Recoverable(table, n + 1) ==> |table.keys[n]| == 1 || Splits(table.at, table.keys[n]);
  }

  /** One round of the recovery loop. */
  method RecoverNext(table: TokenRanks, n: nat, ranks: OrderedMap<Pair, int>) returns (r: Result<OrderedMap<Pair, int>>)
    requires n < |table.keys| && table.keys[n] in table.at && table.keys[n] != []
    requires ranks == Recovered(table, n)
    ensures r.Ok? <==> |table.keys[n]| == 1 || Splits(table.at, table.keys[n])
    ensures r.Ok? ==> r.value == Recovered(table, n + 1)
  {
    var token := table.keys[n];
    if |token| == 1 {
      return Ok(ranks);
    }
    var pair := RecoverPair(table.at, token);
    if pair.Err? {
      return Err;
    }
    r := Ok(ranks.Insert(pair.value, table.at[token]));
  }

  method RecoverRanks(table: TokenRanks) returns (r: Result<OrderedMap<Pair, int>>)
    requires table.Valid() && NoEmptyToken(table)
    ensures r.Ok? <==> Recoverable(table, |table.keys|)
    ensures r.Ok? ==> r.value == Recovered(table, |table.keys|)
  {
    var ranks: OrderedMap<Pair, int> := Empty();
    for n := 0 to |table.keys|
      invariant Recoverable(table, n) && ranks == Recovered(table, n)
    {
      RecoverableNext(table, n);
      var next := RecoverNext(table, n, ranks);
      if next.Err? {
        return Err;
      }
      ranks := next.value;
    }
    r := Ok(ranks);
  }

  // ----- rebuilding the vocabulary

  function Entries(m: OrderedMap<Pair, int>): (r: seq<(Pair, int)>)
    ensures |r| == |m.keys|
    ensures forall i | 0 <= i < |r| && m.keys[i] in m.at :: r[i] == (m.keys[i], m.at[m.keys[i]])
  {
    seq(|m.keys|, i requires 0 <= i < |m.keys| => (m.keys[i], if m.keys[i] in m.at then m.at[m.keys[i]] else 0))
  }

  /** `vocab[id]` on a map: a missing id is inserted with empty bytes. */
  function Touch(vocab: Vocab, id: int): (r: Vocab)
    ensures id in r && forall k | k in vocab :: k in r && r[k] == vocab[k]
  {
    if id in vocab then vocab else vocab[id := []]
  }

  function AddWord(vocab: Vocab, p: Pair, id: int): (r: Vocab)
    ensures forall k | k in vocab && k != id :: k in r && r[k] == vocab[k]
    ensures p.first in vocab && p.second in vocab ==> id in r && r[id] == vocab[p.first] + vocab[p.second]
  {
    var v := Touch(Touch(vocab, p.first), p.second);
    v[id := v[p.first] + v[p.second]]
  }

  function ByteWords(): (r: Vocab)
    ensures forall id :: id in r <==> 0 <= id < BYTES
    ensures forall b: Byte :: r[b] == [b]
  {
    map b: Byte | 0 <= b < 256 :: b := [b]
  }

  function Rebuild(entries: seq<(Pair, int)>): Vocab {
    if entries == [] then ByteWords()
    else
      var n := |entries| - 1;
      AddWord(Rebuild(entries[..n]), entries[n].0, entries[n].1)
  }

  lemma RebuildNext(entries: seq<(Pair, int)>, n: nat)
    requires n < |entries|
    ensures Rebuild(entries[..n + 1]) == AddWord(Rebuild(entries[..n]), entries[n].0, entries[n].1)
  {
    assert entries[..n + 1][..n] == entries[..n];
  }

  method RebuildVocab(ranks: OrderedMap<Pair, int>) returns (vocab: Vocab)
    requires ranks.Valid()
    ensures vocab == Rebuild(Entries(ranks))
  {
    vocab := map b: Byte | 0 <= b < 256 :: b := [b];
    ghost var entries := Entries(ranks);
    assert vocab == ByteWords() && entries[..0] == [];
    for n := 0 to |ranks.keys|
      invariant vocab == Rebuild(entries[..n])
    {
      assert entries[n] == (ranks.keys[n], ranks.at[ranks.keys[n]]);
      RebuildNext(entries, n);
      vocab := AddWord(vocab, ranks.keys[n], ranks.at[ranks.keys[n]]);
    }
    assert entries[..|ranks.keys|] == entries;
  }

  function RankAt(table: TokenRanks, i: int): int
    requires 0 <= i < |table.keys| && table.keys[i] in table.at
  {
    table.at[table.keys[i]]
  }

  /** A table as the rank files hold it: ascending, all single bytes below 256, no empty token. */
  ghost predicate RankTable(table: TokenRanks) {
    && table.Valid() && NoEmptyToken(table)
    && (forall i, j | 0 <= i < j < |table.keys| :: RankAt(table, i) < RankAt(table, j))
    && (forall t | t in table.at :: 0 <= table.at[t])
    && (forall b: Byte :: [b] in table.at && table.at[[b]] < BYTES)
  }

  /** The rank of a single byte, cut to eight bits; 0 stands in for a byte without a rank. */
  function Shuffle(at: map<Bytes, int>, b: Byte): Byte {
    if [b] in at then at[[b]] % 256 else 0
  }

  function Shuffled(at: map<Bytes, int>, text: Bytes): (r: Bytes)
    ensures |r| == |text| && forall i | 0 <= i < |r| :: r[i] == Shuffle(at, text[i])
  {
    seq(|text|, i requires 0 <= i < |text| => Shuffle(at, text[i]))
  }

  lemma RanksDistinct(table: TokenRanks, s: Bytes, t: Bytes)
    requires RankTable(table) && s in table.at && t in table.at && table.at[s] == table.at[t]
    ensures s == t
  {
    assert s in table.keys && t in table.keys;
    var i :| 0 <= i < |table.keys| && table.keys[i] == s;
    var j :| 0 <= j < |table.keys| && table.keys[j] == t;
    assert RankAt(table, i) == RankAt(table, j);
  }

  lemma SameTokenSameIndex(table: TokenRanks, i: nat, j: nat)
    requires RankTable(table) && i < |table.keys| && j < |table.keys| && table.keys[i] == table.keys[j]
    ensures i == j
  {
    assert RankAt(table, i) == RankAt(table, j);
  }

  /** At most `top` distinct values lie below `top`. */
  lemma {:induction false} Pigeonhole(s: seq<int>, top: nat)
    requires forall i | 0 <= i < |s| :: 0 <= s[i] < top
    requires forall i, j | 0 <= i < j < |s| :: s[i] != s[j]
    ensures |s| <= top
  {
    if s != [] {
      assert 0 <= s[0] < top;
      if i :| 0 <= i < |s| && s[i] == top - 1 {
        Pigeonhole(s[..i] + s[i + 1..], top - 1);
      } else {
        Pigeonhole(s, top - 1);
      }
    }
  }

  /** The single bytes use up the ranks below 256, so longer tokens rank higher. */
  lemma LongTokensRankHigh(table: TokenRanks, token: Bytes)
    requires RankTable(table) && token in table.at && |token| > 1
    ensures table.at[token] >= BYTES
  {
    var ranks := seq(BYTES, i requires 0 <= i < BYTES => var b: Byte := i; table.at[[b]]);
    if table.at[token] < BYTES {
      var all := ranks + [table.at[token]];
      forall i, j | 0 <= i < j < |all| ensures all[i] != all[j] {
        var x: Byte := i;
        var t: Bytes := if j < BYTES then var y: Byte := j; [y] else token;
        if all[i] == all[j] {
          RanksDistinct(table, [x], t);
        }
      }
      Pigeonhole(all, BYTES);
    }
  }

  // ----- the rebuilt tokenizer

  /** `t` is cut at `c` into two tokens of lower rank. */
  predicate ValidCut(at: map<Bytes, int>, t: Bytes, c: nat) {
    && 0 < c < |t| && t in at && t[..c] in at && t[c..] in at
    && at[t[..c]] < at[t] && at[t[c..]] < at[t]
  }

  function CutPair(at: map<Bytes, int>, t: Bytes, c: nat): Pair
    requires ValidCut(at, t, c)
  {
    Pair(at[t[..c]], at[t[c..]])
  }

  /** Recovery cuts every longer token into two tokens of lower rank. */
  lemma SplitIsCut(table: TokenRanks, token: Bytes) returns (c: nat)
    requires RankTable(table) && Splits(table.at, token) && |token| > 1
    ensures ValidCut(table.at, token, c) && PairOf(table.at, token) == CutPair(table.at, token, c)
  {
    var at := table.at;
    var parts := Bpe(at, Singles(token), at[token]);
    BpeTiles(at, Singles(token), at[token]);
    ConcatSingles(token);
    ConcatTwo(parts);
    var left, right := parts[0], parts[1];
    c := |left|;
    LongTokensRankHigh(table, token);
    assert Part(at, left, at[token]) && Part(at, right, at[token]);
    assert |left| == 1 ==> left == [left[0]];
    assert |right| == 1 ==> right == [right[0]];
    assert token[..c] == left && token[c..] == right;
  }

  /** One cut for every longer token. */
  ghost predicate Cuts(table: TokenRanks, cuts: seq<nat>, n: nat) {
    && n <= |table.keys| && n <= |cuts|
    && forall i {:trigger ValidCut(table.at, table.keys[i], cuts[i])} | 0 <= i < n && |table.keys[i]| != 1 ::
         ValidCut(table.at, table.keys[i], cuts[i])
  }

  ghost function RecoveredBy(table: TokenRanks, cuts: seq<nat>, n: nat): OrderedMap<Pair, int>
    requires n <= |table.keys| && n <= |cuts|
  {
    if n == 0 then Empty()
    else
      var token, before := table.keys[n - 1], RecoveredBy(table, cuts, n - 1);
      if |token| != 1 && ValidCut(table.at, token, cuts[n - 1])
      then before.Insert(CutPair(table.at, token, cuts[n - 1]), table.at[token])
      else before
  }

  lemma RecoveryCutsStep(table: TokenRanks, n: nat, cuts: seq<nat>, c: nat)
    requires n < |table.keys| && |cuts| == n && Cuts(table, cuts, n)
    requires Recovered(table, n) == RecoveredBy(table, cuts, n)
    requires var t := table.keys[n];
      |t| == 1 || (Splits(table.at, t) && ValidCut(table.at, t, c) && PairOf(table.at, t) == CutPair(table.at, t, c))
    ensures Cuts(table, cuts + [c], n + 1)
    ensures Recovered(table, n + 1) == RecoveredBy(table, cuts + [c], n + 1)
  {
    RecoveredByPrefix(table, cuts, [c], n);
    assert (cuts + [c])[n] == c;
  }

  lemma {:induction false} RecoveryCuts(table: TokenRanks, n: nat) returns (cuts: seq<nat>)
    requires RankTable(table) && n <= |table.keys| && Recoverable(table, n)
    ensures |cuts| == n && Cuts(table, cuts, n) && Recovered(table, n) == RecoveredBy(table, cuts, n)
  {
    if n == 0 {
      cuts := [];
    } else {
      var before := RecoveryCuts(table, n - 1);
      var c := 0;
      if |table.keys[n - 1]| != 1 {
        c := SplitIsCut(table, table.keys[n - 1]);
      }
      cuts := before + [c];
      RecoveryCutsStep(table, n - 1, before, c);
    }
  }

  lemma {:induction false} RecoveredByPrefix(table: TokenRanks, cuts: seq<nat>, more: seq<nat>, n: nat)
    requires Cuts(table, cuts, n)
    ensures Cuts(table, cuts + more, n) && RecoveredBy(table, cuts + more, n) == RecoveredBy(table, cuts, n)
  {
    if n > 0 {
      RecoveredByPrefix(table, cuts, more, n - 1);
    }
  }

  lemma SamePairSameToken(table: TokenRanks, s: Bytes, c: nat, t: Bytes, d: nat)
    requires RankTable(table) && ValidCut(table.at, s, c) && ValidCut(table.at, t, d)
    requires CutPair(table.at, s, c) == CutPair(table.at, t, d)
    ensures s == t
  {
    RanksDistinct(table, s[..c], t[..d]);
    RanksDistinct(table, s[c..], t[d..]);
    assert s == s[..c] + s[c..];
    assert t == t[..d] + t[d..];
  }

  /** `p` stands for the `i`-th token. */
  ghost predicate PairFor(table: TokenRanks, cuts: seq<nat>, p: Pair, i: int) {
    && 0 <= i < |table.keys| && i < |cuts| && |table.keys[i]| != 1
    && ValidCut(table.at, table.keys[i], cuts[i]) && p == CutPair(table.at, table.keys[i], cuts[i])
  }

  /** Each entry stands for a longer token among the first `n` and carries its rank. */
  ghost predicate HoldsPairs(table: TokenRanks, cuts: seq<nat>, n: nat, ranks: OrderedMap<Pair, int>) {
    && ranks.Valid()
    && forall p | p in ranks.at ::
         exists i :: 0 <= i < n && PairFor(table, cuts, p, i) && ranks.at[p] == table.at[table.keys[i]]
  }

  lemma PairIsNew(table: TokenRanks, cuts: seq<nat>, n: nat, ranks: OrderedMap<Pair, int>, p: Pair)
    requires RankTable(table) && HoldsPairs(table, cuts, n, ranks) && PairFor(table, cuts, p, n)
    ensures p !in ranks.at
  {
    if p in ranks.at {
      var i :| 0 <= i < n && PairFor(table, cuts, p, i) && ranks.at[p] == table.at[table.keys[i]];
      SamePairSameToken(table, table.keys[i], cuts[i], table.keys[n], cuts[n]);
      SameTokenSameIndex(table, i, n);
      assert false;
    }
  }

  lemma InsertHoldsPairs(table: TokenRanks, cuts: seq<nat>, n: nat, ranks: OrderedMap<Pair, int>, p: Pair)
    requires HoldsPairs(table, cuts, n, ranks) && PairFor(table, cuts, p, n) && p !in ranks.at
    requires table.keys[n] in table.at
    ensures HoldsPairs(table, cuts, n + 1, ranks.Insert(p, table.at[table.keys[n]]))
  {
    var r := ranks.Insert(p, table.at[table.keys[n]]);
    forall q | q in r.at
      ensures exists i :: 0 <= i < n + 1 && PairFor(table, cuts, q, i) && r.at[q] == table.at[table.keys[i]]
    {
      if q != p {
        var i :| 0 <= i < n && PairFor(table, cuts, q, i) && ranks.at[q] == table.at[table.keys[i]];
      }
    }
  }

  lemma MoreHoldsPairs(table: TokenRanks, cuts: seq<nat>, n: nat, ranks: OrderedMap<Pair, int>)
    requires HoldsPairs(table, cuts, n, ranks)
    ensures HoldsPairs(table, cuts, n + 1, ranks)
  {
    forall q | q in ranks.at
      ensures exists i :: 0 <= i < n + 1 && PairFor(table, cuts, q, i) && ranks.at[q] == table.at[table.keys[i]]
    {
      var i :| 0 <= i < n && PairFor(table, cuts, q, i) && ranks.at[q] == table.at[table.keys[i]];
    }
  }

  lemma HoldsPairsStep(table: TokenRanks, cuts: seq<nat>, n: nat)
    requires RankTable(table) && Cuts(table, cuts, n + 1) && HoldsPairs(table, cuts, n, RecoveredBy(table, cuts, n))
    requires |table.keys[n]| != 1
    ensures HoldsPairs(table, cuts, n + 1, RecoveredBy(table, cuts, n + 1))
  {
    var token, before := table.keys[n], RecoveredBy(table, cuts, n);
    assert ValidCut(table.at, table.keys[n], cuts[n]);
    var p := CutPair(table.at, token, cuts[n]);
    PairIsNew(table, cuts, n, before, p);
    InsertHoldsPairs(table, cuts, n, before, p);
  }

  lemma {:induction false} RecoveredHoldsPairs(table: TokenRanks, cuts: seq<nat>, n: nat)
    requires RankTable(table) && Cuts(table, cuts, n)
    ensures HoldsPairs(table, cuts, n, RecoveredBy(table, cuts, n))
  {
    if n > 0 {
      RecoveredHoldsPairs(table, cuts, n - 1);
      if |table.keys[n - 1]| != 1 {
        HoldsPairsStep(table, cuts, n - 1);
      } else {
        MoreHoldsPairs(table, cuts, n - 1, RecoveredBy(table, cuts, n - 1));
      }
    }
  }

  /** The merge table recovered from a rank table has sources below targets and distinct targets. */
  lemma RecoveredIsRanked(table: TokenRanks, cuts: seq<nat>, n: nat)
    requires RankTable(table) && Cuts(table, cuts, n)
    ensures RankedTable(RecoveredBy(table, cuts, n).at)
  {
    var ranks := RecoveredBy(table, cuts, n);
    RecoveredHoldsPairs(table, cuts, n);
    forall p, q | p in ranks.at && q in ranks.at && ranks.at[p] == ranks.at[q] ensures p == q {
      var i :| 0 <= i < n && PairFor(table, cuts, p, i) && ranks.at[p] == table.at[table.keys[i]];
      var j :| 0 <= j < n && PairFor(table, cuts, q, j) && ranks.at[q] == table.at[table.keys[j]];
      RanksDistinct(table, table.keys[i], table.keys[j]);
      SameTokenSameIndex(table, i, j);
    }
  }

  ghost predicate Spelled(at: map<Bytes, int>, vocab: Vocab, t: Bytes) {
    t in at && at[t] in vocab && vocab[at[t]] == Shuffled(at, t)
  }

  /** The vocabulary spells the shuffled bytes of every token seen, and every byte. */
  ghost predicate SpellsTokens(table: TokenRanks, n: nat, vocab: Vocab) {
    && n <= |table.keys|
    && (forall b: Byte :: b in vocab && vocab[b] == [b])
    && (forall i {:trigger Spelled(table.at, vocab, table.keys[i])} | 0 <= i < n ::
          Spelled(table.at, vocab, table.keys[i]))
  }

  /** A token of lower rank than the `n`-th is spelled already. */
  lemma EarlierToken(table: TokenRanks, n: nat, vocab: Vocab, t: Bytes)
    requires RankTable(table) && n < |table.keys| && SpellsTokens(table, n, vocab)
    requires t in table.at && table.at[t] < table.at[table.keys[n]]
    ensures Spelled(table.at, vocab, t)
  {
    assert t in table.keys;
    var i :| 0 <= i < |table.keys| && table.keys[i] == t;
    assert RankAt(table, i) < RankAt(table, n);
    assert Spelled(table.at, vocab, table.keys[i]);
  }

  lemma SpelledJoin(at: map<Bytes, int>, vocab: Vocab, t: Bytes, c: nat)
    requires ValidCut(at, t, c) && Spelled(at, vocab, t[..c]) && Spelled(at, vocab, t[c..])
    ensures Spelled(at, AddWord(vocab, CutPair(at, t, c), at[t]), t)
  {
    assert Shuffled(at, t) == Shuffled(at, t[..c]) + Shuffled(at, t[c..]);
  }

  lemma SpellsNext(table: TokenRanks, n: nat, vocab: Vocab, c: nat)
    requires RankTable(table) && n < |table.keys| && SpellsTokens(table, n, vocab)
    requires |table.keys[n]| != 1 && ValidCut(table.at, table.keys[n], c)
    ensures SpellsTokens(table, n + 1, AddWord(vocab, CutPair(table.at, table.keys[n], c), table.at[table.keys[n]]))
  {
    var token := table.keys[n];
    var r := AddWord(vocab, CutPair(table.at, token, c), table.at[token]);
    EarlierToken(table, n, vocab, token[..c]);
    EarlierToken(table, n, vocab, token[c..]);
    SpelledJoin(table.at, vocab, token, c);
    LongTokensRankHigh(table, token);
    forall i | 0 <= i < n ensures Spelled(table.at, r, table.keys[i]) {
      assert Spelled(table.at, vocab, table.keys[i]);
      assert RankAt(table, i) < RankAt(table, n);
    }
  }

  lemma SpellsSingle(table: TokenRanks, n: nat, vocab: Vocab)
    requires RankTable(table) && n < |table.keys| && SpellsTokens(table, n, vocab) && |table.keys[n]| == 1
    ensures SpellsTokens(table, n + 1, vocab)
  {
    var token := table.keys[n];
    assert token == [token[0]];
    var rank: Byte := table.at[token];
    assert Shuffled(table.at, token) == [rank];
    assert Spelled(table.at, vocab, token);
    forall i | 0 <= i <= n ensures Spelled(table.at, vocab, table.keys[i]) {
    }
  }

  lemma RebuildInsert(m: OrderedMap<Pair, int>, p: Pair, v: int)
    requires m.Valid() && p !in m.at
    ensures Rebuild(Entries(m.Insert(p, v))) == AddWord(Rebuild(Entries(m)), p, v)
  {
    var entries := Entries(m.Insert(p, v));
    assert entries == Entries(m) + [(p, v)];
    assert entries[..|entries| - 1] == Entries(m);
  }

  /** The vocabulary after the first `n` tokens. */
  ghost function VocabUpTo(table: TokenRanks, cuts: seq<nat>, n: nat): Vocab
    requires n <= |table.keys| && n <= |cuts|
  {
    Rebuild(Entries(RecoveredBy(table, cuts, n)))
  }

  lemma InsertRebuilds(table: TokenRanks, cuts: seq<nat>, n: nat)
    requires RankTable(table) && Cuts(table, cuts, n) && n < |table.keys| && n < |cuts|
    requires |table.keys[n]| != 1 && ValidCut(table.at, table.keys[n], cuts[n])
    ensures VocabUpTo(table, cuts, n + 1) ==
            AddWord(VocabUpTo(table, cuts, n), CutPair(table.at, table.keys[n], cuts[n]), table.at[table.keys[n]])
  {
    var before, p := RecoveredBy(table, cuts, n), CutPair(table.at, table.keys[n], cuts[n]);
    RecoveredHoldsPairs(table, cuts, n);
    assert PairFor(table, cuts, p, n);
    PairIsNew(table, cuts, n, before, p);
    RebuildInsert(before, p, table.at[table.keys[n]]);
  }

  lemma SpellsStep(table: TokenRanks, cuts: seq<nat>, n: nat)
    requires RankTable(table) && Cuts(table, cuts, n + 1) && Cuts(table, cuts, n)
    requires SpellsTokens(table, n, VocabUpTo(table, cuts, n))
    ensures SpellsTokens(table, n + 1, VocabUpTo(table, cuts, n + 1))
  {
    if |table.keys[n]| == 1 {
      SpellsSingle(table, n, VocabUpTo(table, cuts, n));
    } else {
      assert ValidCut(table.at, table.keys[n], cuts[n]);
      SpellsNext(table, n, VocabUpTo(table, cuts, n), cuts[n]);
      InsertRebuilds(table, cuts, n);
    }
  }

  lemma FewerCuts(table: TokenRanks, cuts: seq<nat>, n: nat)
    requires Cuts(table, cuts, n + 1)
    ensures Cuts(table, cuts, n)
  {
  }

  /** The rebuilt vocabulary maps the rank of every token to the token's shuffled bytes. */
  lemma {:induction false} VocabIsShuffled(table: TokenRanks, cuts: seq<nat>, n: nat)
    requires RankTable(table) && Cuts(table, cuts, n)
    ensures SpellsTokens(table, n, VocabUpTo(table, cuts, n))
  {
    if n == 0 {
      assert Entries(RecoveredBy(table, cuts, 0)) == [];
    } else {
      assert Cuts(table, cuts, n - 1) by { FewerCuts(table, cuts, n - 1); }
      assert SpellsTokens(table, n - 1, VocabUpTo(table, cuts, n - 1)) by { VocabIsShuffled(table, cuts, n - 1); }
      SpellsStep(table, cuts, n - 1);
    }
  }

  /** The rebuilt vocabulary spells every merge of the recovered table. */
  lemma RebuiltSpells(table: TokenRanks, cuts: seq<nat>, vocab: Vocab)
    requires RankTable(table) && Cuts(table, cuts, |table.keys|) && SpellsTokens(table, |table.keys|, vocab)
    ensures Spells(vocab, RecoveredBy(table, cuts, |table.keys|).at)
  {
    var n := |table.keys|;
    var ranks := RecoveredBy(table, cuts, n);
    RecoveredHoldsPairs(table, cuts, n);
    forall p | p in ranks.at
      ensures p.first in vocab && p.second in vocab && ranks.at[p] in vocab
      ensures vocab[ranks.at[p]] == vocab[p.first] + vocab[p.second]
    {
      var i :| 0 <= i < n && PairFor(table, cuts, p, i) && ranks.at[p] == table.at[table.keys[i]];
      CutSpelled(table, vocab, i, cuts[i]);
    }
  }

  lemma CutSpelled(table: TokenRanks, vocab: Vocab, i: nat, c: nat)
    requires table.Valid() && i < |table.keys| && SpellsTokens(table, |table.keys|, vocab)
    requires ValidCut(table.at, table.keys[i], c)
    ensures var t, p := table.keys[i], CutPair(table.at, table.keys[i], c);
            && p.first in vocab && p.second in vocab && table.at[t] in vocab
            && vocab[table.at[t]] == vocab[p.first] + vocab[p.second]
  {
    var t := table.keys[i];
    var left, right := t[..c], t[c..];
    assert left in table.keys && right in table.keys;
    var j :| 0 <= j < |table.keys| && table.keys[j] == left;
    var k :| 0 <= k < |table.keys| && table.keys[k] == right;
    assert Spelled(table.at, vocab, table.keys[i]) && Spelled(table.at, vocab, table.keys[j]);
    assert Spelled(table.at, vocab, table.keys[k]);
    assert Shuffled(table.at, t) == Shuffled(table.at, left) + Shuffled(table.at, right);
  }

  /** What loading a rank file establishes: a lossless vocabulary and a ranked merge table. */
  lemma RebuiltTokenizer(table: TokenRanks)
    requires RankTable(table) && Recoverable(table, |table.keys|)
    ensures var ranks := Recovered(table, |table.keys|);
            && ranks.Valid() && RankedTable(ranks.at)
            && SpellsTokens(table, |table.keys|, Rebuild(Entries(ranks)))
            && Spells(Rebuild(Entries(ranks)), ranks.at)
  {
    var cuts := RecoveryCuts(table, |table.keys|);
    VocabIsShuffled(table, cuts, |table.keys|);
    RecoveredIsRanked(table, cuts, |table.keys|);
    RecoveredValid(table, |table.keys|);
    RebuiltSpells(table, cuts, Rebuild(Entries(RecoveredBy(table, cuts, |table.keys|))));
  }

  // ----- the byte shuffle

  type ByteMap = map<Byte, Byte>

  ghost predicate Inverse(forward: ByteMap, back: ByteMap) {
    forall b: Byte :: b in forward && forward[b] in back && back[forward[b]] == b
  }

  /** `back` has an entry for every value of `forward`, leading to some byte with that value. */
  ghost predicate PointsBack(forward: ByteMap, back: ByteMap) {
    && (forall b | b in forward :: forward[b] in back)
    && (forall v | v in back :: back[v] in forward && forward[back[v]] == v)
  }

  function Translate(m: ByteMap, text: Bytes): (r: Result<Bytes>)
    ensures r.Ok? <==> forall i | 0 <= i < |text| :: text[i] in m
    ensures r.Ok? ==> |r.value| == |text| && forall i | 0 <= i < |text| :: r.value[i] == m[text[i]]
  {
    if forall i | 0 <= i < |text| :: text[i] in m
    then Ok(seq(|text|, i requires 0 <= i < |text| => m[text[i]]))
    else Err
  }

  /** Byte-by-byte translation; a missing byte is an exception. */
  method TranslateBytes(m: ByteMap, text: Bytes) returns (r: Result<Bytes>)
    ensures r == Translate(m, text)
  {
    var out: Bytes := [];
    for i := 0 to |text|
      invariant |out| == i
      invariant forall j | 0 <= j < i :: text[j] in m && out[j] == m[text[j]]
    {
      if text[i] !in m {
        return Err;
      }
      out := out + [m[text[i]]];
    }
    assert out == Translate(m, text).value;
    r := Ok(out);
  }

  /** Concatenates the words of the ids; a missing id is an exception. */
  method ConcatWords(vocab: Vocab, ids: seq<int>) returns (r: Result<Bytes>)
    ensures r == DecodeText(vocab, map[], ids)
  {
    var text: Bytes := [];
    for i := 0 to |ids|
      invariant DecodeText(vocab, map[], ids[..i]) == Ok(text)
    {
      assert ids[..i + 1][..i] == ids[..i];
      if ids[i] !in vocab {
        DecodeFails(vocab, map[], ids);
        return Err;
      }
      text := text + vocab[ids[i]];
    }
    assert ids[..|ids|] == ids;
    r := Ok(text);
  }

  lemma ShuffleInjective(table: TokenRanks, b: Byte, c: Byte)
    requires RankTable(table) && Shuffle(table.at, b) == Shuffle(table.at, c)
    ensures b == c
  {
    RanksDistinct(table, [b], [c]);
    assert [b][0] == [c][0];
  }

  lemma TranslateBack(forward: ByteMap, back: ByteMap, text: Bytes)
    requires Inverse(forward, back)
    ensures Translate(forward, text).Ok? && Translate(back, Translate(forward, text).value) == Ok(text)
  {
    var r := Translate(back, Translate(forward, text).value);
    assert r.Ok? && r.value == text;
  }

  /** Greedy ids decode to the bytes they were made from. */
  lemma DecodeGreedy(table: TokenRanks, bytes: Bytes)
    requires RankTable(table) && Recoverable(table, |table.keys|) && Recovered(table, |table.keys|).Valid()
    ensures var ranks := Recovered(table, |table.keys|);
            DecodeText(Rebuild(Entries(ranks)), map[], Greedy(bytes, ranks.at)) == Ok(bytes)
  {
    var ranks := Recovered(table, |table.keys|);
    var vocab := Rebuild(Entries(ranks));
    assert Spells(vocab, ranks.at) by { RebuiltTokenizer(table); }
    ExpandBytes(vocab, bytes);
    GreedyKeepsExpansion(vocab, bytes, ranks.at);
    DecodeIsExpand(vocab, map[], Greedy(bytes, ranks.at));
  }

  class Tokenizer {
    const merges: OrderedMap<Pair, int>
    const vocab: Vocab
    const shuffle: ByteMap
    const unshuffle: ByteMap

    constructor (ranks: OrderedMap<Pair, int>, words: Vocab, forward: ByteMap)
      ensures merges == ranks && vocab == words && shuffle == forward
      ensures PointsBack(forward, unshuffle)
    {
      var back: ByteMap := map[];
      var todo := forward.Keys;
      while todo != {}
        invariant todo <= forward.Keys
        invariant forall b | b in forward.Keys - todo :: forward[b] in back
        invariant forall v | v in back :: back[v] in forward && forward[back[v]] == v
        decreases |todo|
      {
        var b :| b in todo;
        assert forward.Keys - (todo - {b}) == (forward.Keys - todo) + {b};
        back := back[forward[b] := b];
        todo := todo - {b};
      }
      merges, vocab, shuffle, unshuffle := ranks, words, forward, back;
    }

    /** A tokenizer loaded from `table`. */
    ghost predicate LoadedFrom(table: TokenRanks) {
      && Recoverable(table, |table.keys|)
      && merges == Recovered(table, |table.keys|) && merges.Valid()
      && vocab == Rebuild(Entries(merges))
      && (forall b: Byte :: b in shuffle && shuffle[b] == Shuffle(table.at, b))
      && PointsBack(shuffle, unshuffle)
    }

    lemma ShuffleInverts(table: TokenRanks)
      requires RankTable(table) && LoadedFrom(table)
      ensures Inverse(shuffle, unshuffle)
    {
      forall b: Byte ensures shuffle[b] in unshuffle && unshuffle[shuffle[b]] == b {
        ShuffleInjective(table, b, unshuffle[shuffle[b]]);
      }
    }

    method EncodeChunk(text: Bytes) returns (ids: Result<seq<int>>)
      ensures ids.Ok? <==> forall i | 0 <= i < |text| :: text[i] in shuffle
      ensures ids.Ok? && RankedTable(merges.at) ==> ids.value == Greedy(Translate(shuffle, text).value, merges.at)
    {
      var shuffled := TranslateBytes(shuffle, text);
      if shuffled.Err? {
        return Err;
      }
      var r := EncodeIds(shuffled.value, merges.at);
      ids := Ok(r);
    }

    method Decode(ids: seq<int>) returns (text: Result<Bytes>)
      ensures text == DecodeShuffled(vocab, unshuffle, ids)
    {
      var bytes := ConcatWords(vocab, ids);
      if bytes.Err? {
        return Err;
      }
      text := TranslateBytes(unshuffle, bytes.value);
    }

    /** Decoding the encoding of any bytes gives them back. */
    lemma LosslessOn(table: TokenRanks, text: Bytes)
      requires RankTable(table) && LoadedFrom(table)
      ensures Translate(shuffle, text).Ok?
      ensures DecodeShuffled(vocab, unshuffle, Greedy(Translate(shuffle, text).value, merges.at)) == Ok(text)
    {
      ShuffleInverts(table);
      TranslateBack(shuffle, unshuffle, text);
      DecodeGreedy(table, Translate(shuffle, text).value);
    }
  }

  function DecodeShuffled(vocab: Vocab, back: ByteMap, ids: seq<int>): Result<Bytes> {
    var bytes := DecodeText(vocab, map[], ids);
    if bytes.Err? then Err else Translate(back, bytes.value)
  }

  /** The rank of every single byte; a missing byte is an exception. */
  method ByteShuffle(at: map<Bytes, int>) returns (r: Result<ByteMap>)
    ensures r.Ok? <==> forall b: Byte :: [b] in at
    ensures r.Ok? ==> forall b: Byte :: b in r.value && r.value[b] == Shuffle(at, b)
  {
    var shuffle: ByteMap := map[];
    for i := 0 to 256
      invariant forall b: Byte | b < i :: [b] in at && b in shuffle && shuffle[b] == Shuffle(at, b)
    {
      var b: Byte := i;
      if [b] !in at {
        return Err;
      }
      shuffle := shuffle[b := Shuffle(at, b)];
    }
    r := Ok(shuffle);
  }

  /** Builds the tokenizer from a rank table; fails where recovery or a byte lookup throws. */
  method FromTiktokenConfig(table: TokenRanks) returns (r: Result<Tokenizer>)
    requires table.Valid() && NoEmptyToken(table)
    ensures r.Ok? <==> Recoverable(table, |table.keys|) && forall b: Byte :: [b] in table.at
    ensures r.Ok? ==> r.value.LoadedFrom(table)
  {
    var ranks := RecoverRanks(table);
    if ranks.Err? {
      return Err;
    }
    RecoveredValid(table, |table.keys|);
    var vocab := RebuildVocab(ranks.value);
    var shuffle := ByteShuffle(table.at);
    if shuffle.Err? {
      return Err;
    }
    var tokenizer := new Tokenizer(ranks.value, vocab, shuffle.value);
    r := Ok(tokenizer);
  }
}

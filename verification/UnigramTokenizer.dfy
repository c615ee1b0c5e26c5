/** The unigram tokenizer: a Viterbi search over segmentations of a text. */
module UnigramTokenizer {
  import opened ByteStrings
  import opened Wrappers

  /** The least finite value of a `float`, where the search for a maximum starts. */
  const FLOAT_LOWEST: real := -340282346638528859811704183484516925440.0

  datatype TokenScore = TokenScore(tok: Bytes, score: real)

  datatype Vocab = Vocab(tokenToId: map<Bytes, int>, idToToken: seq<TokenScore>) {
    /** Every token maps to an id that holds that token. */
    ghost predicate Valid() {
      forall t | t in tokenToId :: 0 <= tokenToId[t] < |idToToken| && idToToken[tokenToId[t]].tok == t
    }

    /** No token is longer than `max` bytes. */
    ghost predicate WithinLength(max: int) {
      forall t | t in tokenToId :: |t| <= max
    }
  }

  datatype Best = Best(prev: int, score: real, tokId: int)

  // ----- characters

  /** Bytes of the character that starts with `b`, by its four high bits. */
  function Utf8Len(b: Byte): (n: nat)
    ensures 1 <= n <= 4
  {
    var high := b / 16;
    if high < 12 then 1 else if high < 14 then 2 else if high == 14 then 3 else 4
  }

  /** The offset after the character at `offs`; a character cut short ends with the text. */
  function NextEnd(text: Bytes, offs: nat): (next: nat)
    requires offs < |text|
    ensures offs < next <= |text|
  {
    offs + if Utf8Len(text[offs]) < |text| - offs then Utf8Len(text[offs]) else |text| - offs
  }

  ghost predicate CutAt(text: Bytes, ends: seq<nat>, i: int) {
    0 < i < |ends| && ends[i - 1] < |text| && ends[i] == NextEnd(text, ends[i - 1])
  }

  /** `ends[k]` is the byte offset after the first `k` characters. */
  ghost predicate Cut(text: Bytes, ends: seq<nat>) {
    && |ends| > 0 && ends[0] == 0 && ends[|ends| - 1] == |text|
    && forall i | 0 < i < |ends| :: CutAt(text, ends, i)
  }

  lemma {:induction false} CutSpan(text: Bytes, ends: seq<nat>, i: nat, j: nat)
    requires Cut(text, ends) && i <= j < |ends|
    ensures ends[i] + (j - i) <= ends[j] <= |text|
  {
    if i < j {
      CutSpan(text, ends, i, j - 1);
      assert CutAt(text, ends, j);
    } else if i > 0 {
      assert CutAt(text, ends, i);
    }
  }

  method CutCharacters(text: Bytes) returns (ends: seq<nat>)
    ensures Cut(text, ends)
  {
    var offs := 0;
    ends := [0];
    while offs < |text|
      invariant |ends| > 0 && ends[0] == 0 && offs == ends[|ends| - 1] <= |text|
      invariant forall i | 0 < i < |ends| :: CutAt(text, ends, i)
    {
      ghost var before := ends;
      offs := NextEnd(text, offs);
      ends := ends + [offs];
      forall i | 0 < i < |ends| ensures CutAt(text, ends, i) {
        assert i < |before| ==> CutAt(text, before, i);
      }
    }
  }

  // ----- segmentations

  /** What is searched: a text cut into characters, a vocabulary and the unknown id. */
  datatype Problem = Problem(vocab: Vocab, text: Bytes, ends: seq<nat>, unk: int) {
    ghost predicate Valid() {
      vocab.Valid() && Cut(text, ends) && 0 <= unk < |vocab.idToToken|
    }

    predicate Inside(i: int, j: int) {
      0 <= i < j < |ends| && ends[i] <= ends[j] <= |text|
    }

    /** The bytes of characters `i` to `j`. */
    function Piece(i: int, j: int): Bytes
      requires Inside(i, j)
    {
      text[ends[i]..ends[j]]
    }

    predicate IsToken(i: int, j: int) {
      Inside(i, j) && Piece(i, j) in vocab.tokenToId
    }

    /** No vocabulary token ends after character `j`. */
    ghost predicate NoTokenEnds(j: int) {
      forall i :: !IsToken(i, j)
    }

    /** An admissible piece: a token, or one unknown character where no token ends. */
    ghost predicate Edge(i: int, j: int, id: int) {
      || (IsToken(i, j) && id == vocab.tokenToId[Piece(i, j)])
      || (Inside(i, j) && i == j - 1 && id == unk && NoTokenEnds(j))
    }

    function Score(id: int): real {
      if 0 <= id < |vocab.idToToken| then vocab.idToToken[id].score else 0.0
    }

    function Word(id: int): Bytes {
      if 0 <= id < |vocab.idToToken| then vocab.idToToken[id].tok else []
    }

    /** `path` is a segmentation of the first `pos` characters. */
    ghost predicate Segments(path: seq<Step>, pos: int)
      decreases |path|
    {
      if path == [] then pos == 0
      else
        var last := path[|path| - 1];
        last.to == pos && Edge(last.from, last.to, last.id) && Segments(path[..|path| - 1], last.from)
    }

    function PathScore(path: seq<Step>): real {
      if path == [] then 0.0 else PathScore(path[..|path| - 1]) + Score(path[|path| - 1].id)
    }

    /** The score of `trace[pos]` is the best over the last pieces, the leftmost start winning ties. */
    ghost predicate Locally(trace: seq<Best>, pos: int) {
      && 0 < pos < |trace|
      && var best := trace[pos];
      && 0 <= best.prev < pos && Edge(best.prev, pos, best.tokId)
      && best.score == trace[best.prev].score + Score(best.tokId)
      && (forall i, id | 0 <= i < pos && Edge(i, pos, id) ::
            && trace[i].score + Score(id) <= best.score
            && (i < best.prev ==> trace[i].score + Score(id) < best.score))
    }

    ghost predicate Solved(trace: seq<Best>) {
      && |trace| > 0 && trace[0].score == 0.0
      && forall pos {:trigger Locally(trace, pos)} | 0 < pos < |trace| :: Locally(trace, pos)
    }
  }

  datatype Step = Step(from: int, to: int, id: int)

  lemma EdgeInside(q: Problem, i: int, j: int, id: int)
    requires q.Edge(i, j, id)
    ensures q.Inside(i, j)
  {
  }

  /** No segmentation of the first `pos` characters scores above `trace[pos]`. */
  lemma {:induction false} TraceBounds(q: Problem, trace: seq<Best>, pos: int, path: seq<Step>)
    requires q.Solved(trace) && 0 <= pos < |trace| && q.Segments(path, pos)
    ensures q.PathScore(path) <= trace[pos].score
    decreases |path|
  {
    if path != [] {
      var last := path[|path| - 1];
      EdgeInside(q, last.from, last.to, last.id);
      TraceBounds(q, trace, last.from, path[..|path| - 1]);
      assert q.Locally(trace, pos);
    }
  }

  /** Every back-pointer leads strictly to the left. */
  ghost predicate BackPointers(trace: seq<Best>) {
    forall pos | 0 < pos < |trace| :: 0 <= trace[pos].prev < pos
  }

  /** The steps the back-pointers spell. */
  function BackPath(trace: seq<Best>, pos: int): seq<Step>
    requires 0 <= pos < |trace|
  {
    if pos == 0 || !(0 <= trace[pos].prev < pos) then []
    else BackPath(trace, trace[pos].prev) + [Step(trace[pos].prev, pos, trace[pos].tokId)]
  }

  /** Following the back-pointers gives a segmentation that reaches the recorded score. */
  lemma {:induction false} BackPathReaches(q: Problem, trace: seq<Best>, pos: int)
    requires q.Solved(trace) && 0 <= pos < |trace|
    ensures q.Segments(BackPath(trace, pos), pos)
    ensures q.PathScore(BackPath(trace, pos)) == trace[pos].score
  {
    if pos != 0 {
      assert q.Locally(trace, pos);
      var prev := trace[pos].prev;
      BackPathReaches(q, trace, prev);
      var path := BackPath(trace, pos);
      assert path[..|path| - 1] == BackPath(trace, prev);
    }
  }

  lemma EdgeIds(q: Problem, i: int, j: int, a: int, b: int)
    requires q.Edge(i, j, a) && q.Edge(i, j, b)
    ensures a == b
  {
  }

  /** Scores and back-pointers are determined: of several best pieces the one that starts leftmost is taken. */
  lemma {:induction false} SolvedUnique(q: Problem, a: seq<Best>, b: seq<Best>, pos: int)
    requires q.Solved(a) && q.Solved(b) && 0 <= pos < |a| && pos < |b|
    ensures a[pos].score == b[pos].score && (pos > 0 ==> a[pos] == b[pos])
    decreases pos
  {
    if pos > 0 {
      assert q.Locally(a, pos) && q.Locally(b, pos);
      var x, y := a[pos], b[pos];
      SolvedUnique(q, a, b, x.prev);
      SolvedUnique(q, a, b, y.prev);
      if x.prev == y.prev {
        EdgeIds(q, x.prev, pos, x.tokId, y.tokId);
      }
    }
  }

  /** A best segmentation of the whole text. */
  ghost predicate Optimal(q: Problem, path: seq<Step>) {
    && q.Segments(path, |q.ends| - 1)
    && forall other | q.Segments(other, |q.ends| - 1) :: q.PathScore(other) <= q.PathScore(path)
  }

  /** The path is the one that the back-pointers of a solved trace spell. */
  ghost predicate Spelled(q: Problem, trace: seq<Best>, path: seq<Step>) {
    |trace| == |q.ends| && q.Solved(trace) && path == BackPath(trace, |trace| - 1)
  }

  lemma SolvedStart(q: Problem)
    ensures q.Solved([Best(0, 0.0, 0)]) && BackPath([Best(0, 0.0, 0)], 0) == []
  {
  }

  lemma BackPathOptimal(q: Problem, trace: seq<Best>)
    requires q.Solved(trace) && |trace| == |q.ends|
    ensures Optimal(q, BackPath(trace, |trace| - 1))
  {
    var n := |trace| - 1;
    BackPathReaches(q, trace, n);
    forall other | q.Segments(other, n) ensures q.PathScore(other) <= q.PathScore(BackPath(trace, n)) {
      TraceBounds(q, trace, n, other);
    }
  }

  function Ids(path: seq<Step>): (r: seq<int>)
    ensures |r| == |path| && forall i | 0 <= i < |r| :: r[i] == path[i].id
  {
    seq(|path|, i requires 0 <= i < |path| => path[i].id)
  }

  /** The words of the ids of a segmentation, an unknown piece kept as it stands in the text. */
  function Spelling(q: Problem, path: seq<Step>): Bytes {
    if path == [] then []
    else
      var last := path[|path| - 1];
      Spelling(q, path[..|path| - 1]) +
      if q.IsToken(last.from, last.to) then q.Word(last.id)
      else if q.Inside(last.from, last.to) then q.Piece(last.from, last.to)
      else []
  }

  /** The word of a token piece is the piece. */
  lemma EdgeSpells(q: Problem, i: int, j: int, id: int)
    requires q.Valid() && q.Edge(i, j, id) && q.IsToken(i, j)
    ensures q.Word(id) == q.Piece(i, j)
  {
    assert !q.NoTokenEnds(j);
  }

  /** The pieces of a segmentation tile the text. */
  lemma {:induction false} SegmentsTile(q: Problem, path: seq<Step>, pos: int)
    requires q.Valid() && q.Segments(path, pos)
    ensures 0 <= pos < |q.ends| && q.ends[pos] <= |q.text|
    ensures Spelling(q, path) == q.text[..q.ends[pos]]
    decreases |path|
  {
    if path != [] {
      var last := path[|path| - 1];
      SegmentsTile(q, path[..|path| - 1], last.from);
      EdgeInside(q, last.from, last.to, last.id);
      if q.IsToken(last.from, last.to) {
        EdgeSpells(q, last.from, last.to, last.id);
      }
      assert q.text[..q.ends[pos]] == q.text[..q.ends[last.from]] + q.Piece(last.from, pos);
    }
  }

  // ----- the search window and the range of scores

  /** A token never spans more characters than the longest token has bytes. */
  lemma WindowHoldsTokens(q: Problem, i: int, j: int, maxLen: int)
    requires q.Valid() && q.vocab.WithinLength(maxLen) && q.IsToken(i, j)
    ensures j - maxLen <= i
  {
    CutSpan(q.text, q.ends, i, j);
    assert |q.Piece(i, j)| <= maxLen;
  }

  function Scaled(n: nat, floor: real): real {
    if n == 0 then 0.0 else Scaled(n - 1, floor) + floor
  }

  lemma {:induction false} ScaledFalls(m: nat, n: nat, floor: real)
    requires m <= n && floor < 0.0
    ensures Scaled(n, floor) <= Scaled(m, floor)
  {
    if m < n {
      ScaledFalls(m, n - 1, floor);
    }
  }

  /** Every score exceeds `floor`, and as many times `floor` as there are characters is a finite `float`. */
  ghost predicate Floor(q: Problem, floor: real) {
    && floor < 0.0 && |q.ends| > 0 && FLOAT_LOWEST <= Scaled(|q.ends| - 1, floor)
    && forall id :: floor < q.Score(id)
  }

  ghost predicate ScoresInRange(q: Problem) {
    exists floor :: Floor(q, floor)
  }

  lemma {:induction false} SolvedAboveFloor(q: Problem, trace: seq<Best>, pos: int, floor: real)
    requires q.Solved(trace) && 0 <= pos < |trace| && Floor(q, floor)
    ensures Scaled(pos, floor) <= trace[pos].score
  {
    if pos > 0 {
      assert q.Locally(trace, pos);
      var best := trace[pos];
      SolvedAboveFloor(q, trace, best.prev, floor);
      assert floor < q.Score(best.tokId);
      ScaledFalls(best.prev + 1, pos, floor);
    }
  }

  /** Every candidate beats the value the search for a maximum starts from. */
  lemma CandidateAboveLowest(q: Problem, trace: seq<Best>, i: int, id: int)
    requires q.Solved(trace) && 0 <= i < |trace| && i < |q.ends| - 1 && ScoresInRange(q)
    ensures FLOAT_LOWEST < trace[i].score + q.Score(id)
  {
    var floor :| Floor(q, floor);
    SolvedAboveFloor(q, trace, i, floor);
    assert floor < q.Score(id);
    ScaledFalls(i + 1, |q.ends| - 1, floor);
  }

  // ----- the search

  /** The candidates of one position seen so far, and the best of them. */
  ghost predicate BestSoFar(q: Problem, trace: seq<Best>, pos: int, start: int, k: int, b: Best) {
    && 0 <= start <= k <= pos <= |trace| && pos < |q.ends|
    && (b.prev < 0 ==> b.prev == -1 && b.score == FLOAT_LOWEST)
    && (b.prev >= 0 ==>
          && start <= b.prev < k && q.IsToken(b.prev, pos) && b.tokId == q.vocab.tokenToId[q.Piece(b.prev, pos)]
          && b.score == trace[b.prev].score + q.Score(b.tokId))
    && forall i | start <= i < k && q.IsToken(i, pos) ::
         var s := trace[i].score + q.Score(q.vocab.tokenToId[q.Piece(i, pos)]);
         s <= b.score && (i < b.prev ==> s < b.score)
  }

  /** The scan over the window, one start after the other. */
  method ScanWindow(q: Problem, trace: seq<Best>, pos: int, start: int) returns (b: Best)
    requires q.Valid() && 0 <= start <= pos == |trace| < |q.ends|
    ensures BestSoFar(q, trace, pos, start, pos, b)
  {
    b := Best(-1, FLOAT_LOWEST, -1);
    for i := start to pos
      invariant BestSoFar(q, trace, pos, start, i, b)
    {
      CutSpan(q.text, q.ends, i, pos);
      var piece := q.text[q.ends[i]..q.ends[pos]];
      if piece in q.vocab.tokenToId {
        var id := q.vocab.tokenToId[piece];
        var score := trace[i].score + q.vocab.idToToken[id].score;
        if score > b.score {
          b := Best(i, score, id);
        }
      }
    }
  }

  /** The scan settles its position when scores stay in range. */
  lemma ScanSettles(q: Problem, trace: seq<Best>, pos: int, start: int, b: Best)
    requires q.Valid() && q.Solved(trace) && ScoresInRange(q) && pos == |trace|
    requires BestSoFar(q, trace, pos, start, pos, b)
    requires forall i | q.IsToken(i, pos) :: start <= i
    ensures b.prev < 0 <==> q.NoTokenEnds(pos)
    ensures b.prev >= 0 ==> q.Locally(trace + [b], pos)
    ensures b.prev < 0 ==> q.Locally(trace + [Best(pos - 1, trace[pos - 1].score + q.Score(q.unk), q.unk)], pos)
  {
    if b.prev < 0 {
      forall i ensures !q.IsToken(i, pos) {
        if q.IsToken(i, pos) {
          CandidateAboveLowest(q, trace, i, q.vocab.tokenToId[q.Piece(i, pos)]);
        }
      }
      CutSpan(q.text, q.ends, pos - 1, pos);
    }
  }

  function Reversed(s: seq<int>): (r: seq<int>)
    ensures |r| == |s| && forall i | 0 <= i < |s| :: r[i] == s[|s| - 1 - i]
  {
    seq(|s|, i requires 0 <= i < |s| => s[|s| - 1 - i])
  }

  /** Follows the back-pointers from the end and reverses what it collected. */
  method Backtrace(trace: seq<Best>, output: seq<int>) returns (r: seq<int>)
    requires trace != [] && BackPointers(trace)
    ensures r == output + Ids(BackPath(trace, |trace| - 1))
  {
    var prev, temp := |trace| - 1, [];
    while prev != 0
      invariant 0 <= prev < |trace|
      invariant Ids(BackPath(trace, |trace| - 1)) == Ids(BackPath(trace, prev)) + Reversed(temp)
    {
      var b := trace[prev];
      assert Ids(BackPath(trace, prev)) == Ids(BackPath(trace, b.prev)) + [b.tokId];
      assert Reversed(temp + [b.tokId]) == [b.tokId] + Reversed(temp);
      temp, prev := temp + [b.tokId], b.prev;
    }
    r := output;
    for i := |temp| downto 0
      invariant r == output + Reversed(temp)[..|temp| - i]
    {
      r := r + [temp[i]];
    }
  }

  lemma SolvedExtends(q: Problem, trace: seq<Best>, b: Best)
    requires q.Solved(trace) && q.Locally(trace + [b], |trace|)
    ensures q.Solved(trace + [b])
  {
    forall pos | 0 < pos < |trace| + 1 ensures q.Locally(trace + [b], pos) {
      if pos < |trace| {
        assert q.Locally(trace, pos);
      }
    }
  }

  /** One tokenizer object serves one text: both lists only grow. */
  class Tokenizer {
    const vocab: Vocab
    const tokMaxLen: nat
    const unk: int
    var ends: seq<nat>
    var trace: seq<Best>

    constructor (v: Vocab, maxLen: nat, unknown: int)
      ensures vocab == v && tokMaxLen == maxLen && unk == unknown && ends == [] && trace == []
    {
      vocab, tokMaxLen, unk, ends, trace := v, maxLen, unknown, [], [];
    }

    function ProblemFor(text: Bytes): Problem
      reads this
    {
      Problem(vocab, text, ends, unk)
    }

    /** Appends the entry of position `pos` to the trace. */
    method FindBest(text: Bytes, pos: int)
      requires ProblemFor(text).Valid() && 0 < pos == |trace| < |ends| && BackPointers(trace)
      modifies `trace
      ensures |trace| == pos + 1 && trace[..pos] == old(trace) && BackPointers(trace)
      ensures vocab.WithinLength(tokMaxLen) && ScoresInRange(ProblemFor(text)) ==>
                ProblemFor(text).Solved(old(trace)) ==> ProblemFor(text).Solved(trace)
    {
      var q := ProblemFor(text);
      var start := pos - tokMaxLen;
      if start < 0 {
        start := 0;
      }
      var best := ScanWindow(q, trace, pos, start);
      var found := best;
      if best.prev < 0 {
        var i := pos - 1;
        best := Best(i, trace[i].score + vocab.idToToken[unk].score, unk);
      }
      if vocab.WithinLength(tokMaxLen) && ScoresInRange(q) && q.Solved(trace) {
        forall i | q.IsToken(i, pos) ensures start <= i {
          WindowHoldsTokens(q, i, pos, tokMaxLen);
        }
        ScanSettles(q, trace, pos, start, found);
        SolvedExtends(q, trace, best);
      }
      trace := trace + [best];
    }

    /** Appends the ids of a best segmentation of `text` to `output`. */
    method Tokenize(text: Bytes, output: seq<int>) returns (r: seq<int>, ghost path: seq<Step>)
      requires ends == [] && trace == [] && vocab.Valid() && 0 <= unk < |vocab.idToToken|
      modifies this
      ensures Cut(text, ends) && r == output + Ids(path)
      ensures vocab.WithinLength(tokMaxLen) && ScoresInRange(ProblemFor(text)) ==>
              Optimal(ProblemFor(text), path) && Spelled(ProblemFor(text), trace, path)
    {
      ends := CutCharacters(text);
      trace := [Best(0, 0.0, 0)];
      r, path := output, [];
      var q := ProblemFor(text);
      if |ends| <= 1 {
        SolvedStart(q);
        BackPathOptimal(q, trace);
        return;
      }
      SolvedStart(q);
      ghost var inRange := vocab.WithinLength(tokMaxLen) && ScoresInRange(q);
      for i := 1 to |ends|
        invariant |trace| == i && ends == q.ends && BackPointers(trace)
        invariant inRange ==> q.Solved(trace)
      {
        FindBest(text, i);
      }
      r := Backtrace(trace, output);
      path := BackPath(trace, |trace| - 1);
      if inRange {
        BackPathOptimal(q, trace);
      }
    }
  }

  // ----- loading and encoding

  /** The last of the first `n` records wins a word that occurs twice. */
  ghost predicate Indexes(m: map<Bytes, int>, records: seq<TokenScore>, n: nat) {
    && n <= |records|
    && (forall t | t in m :: 0 <= m[t] < n && records[m[t]].tok == t)
    && (forall i | 0 <= i < n :: records[i].tok in m && i <= m[records[i].tok])
  }

  lemma IndexesNext(m: map<Bytes, int>, records: seq<TokenScore>, t: TokenScore)
    requires Indexes(m, records, |records|)
    ensures Indexes(m[t.tok := |records|], records + [t], |records| + 1)
  {
  }

  /** The greatest token length, starting from `seed`. */
  function MaxLength(records: seq<TokenScore>, seed: nat): (max: nat)
    ensures seed <= max && forall i | 0 <= i < |records| :: |records[i].tok| <= max
    ensures max == seed || exists i :: 0 <= i < |records| && |records[i].tok| == max
  {
    if records == [] then seed
    else
      var before := MaxLength(records[..|records| - 1], seed);
      var len := |records[|records| - 1].tok|;
      if len > before then len else before
  }

  // ----- vocabulary records in a buffer

  datatype Records = Records(records: seq<TokenScore>, end: nat)

  /** What stands at an offset: a record and what follows it, the end of the list, or less than a record. */
  datatype Next = Record(t: TokenScore, after: nat) | Last(end: nat) | CutOff

  /** A length, that many bytes and four bytes of score; a negative length ends the list. */
  function NextRecord(f: File, offs: nat, float: Bytes -> real): (r: Next)
    ensures r.Record? ==> offs < r.after <= f.size
  {
    if offs + 4 > f.size then CutOff
    else
      var len := f.ints(offs);
      if len < 0 then Last(offs + 4)
      else if offs + 8 + len > f.size then CutOff
      else Record(TokenScore(f.text(offs + 4, len), float(f.text(offs + 4 + len, 4))), offs + 8 + len)
  }

  /** The records from an offset on; nothing where one reaches outside the buffer. */
  function ReadRecords(f: File, offs: nat, float: Bytes -> real): Option<Records>
    decreases f.size - offs
  {
    match NextRecord(f, offs, float)
    case CutOff => None
    case Last(end) => Some(Records([], end))
    case Record(t, after) => Joined([t], ReadRecords(f, after, float))
  }

  function Joined(before: seq<TokenScore>, r: Option<Records>): Option<Records> {
    if r.None? then None else Some(Records(before + r.value.records, r.value.end))
  }

  lemma JoinedEmpty(r: Option<Records>)
    ensures Joined([], r) == r
  {
    assert r.Some? ==> [] + r.value.records == r.value.records;
  }

  lemma JoinedNext(before: seq<TokenScore>, t: TokenScore, r: Option<Records>)
    ensures Joined(before, Joined([t], r)) == Joined(before + [t], r)
  {
    assert r.Some? ==> before + ([t] + r.value.records) == before + [t] + r.value.records;
  }

  /** A record as it is written: the bytes of a token and of its score. */
  datatype RawRecord = RawRecord(tok: Bytes, score: Bytes)

  predicate Writable(r: RawRecord) {
    IsInt32(|r.tok|) && |r.score| == 4
  }

  ghost function WriteRecord(r: RawRecord): Bytes
    requires Writable(r)
  {
    Int32Bytes(|r.tok|) + r.tok + r.score
  }

  predicate AllWritable(rs: seq<RawRecord>) {
    rs != [] ==> Writable(rs[0]) && AllWritable(rs[1..])
  }

  /** The records and a closing negative length. */
  ghost function WriteRecords(rs: seq<RawRecord>): Bytes
    requires AllWritable(rs)
  {
    if rs == [] then Int32Bytes(-1) else WriteRecord(rs[0]) + WriteRecords(rs[1..])
  }

  function Decoded(rs: seq<RawRecord>, float: Bytes -> real): seq<TokenScore> {
    if rs == [] then [] else [TokenScore(rs[0].tok, float(rs[0].score))] + Decoded(rs[1..], float)
  }

  /** The records stand one after the other, a negative length behind them. */
  ghost predicate RecordsHeld(f: File, pos: nat, rs: seq<RawRecord>)
    decreases |rs|
  {
    if rs == [] then pos + 4 <= f.size && f.ints(pos) == -1
    else
      var len := |rs[0].tok|;
      && pos + 8 + len <= f.size && f.ints(pos) == len
      && f.text(pos + 4, len) == rs[0].tok && f.text(pos + 4 + len, 4) == rs[0].score
      && RecordsHeld(f, pos + 8 + len, rs[1..])
  }

  lemma RecordStands(data: Bytes, pos: nat, r: RawRecord)
    requires Writable(r) && Stands(data, pos, WriteRecord(r))
    ensures var f, len := FileOf(data), |r.tok|;
      && pos + 8 + len <= f.size && f.ints(pos) == len
      && f.text(pos + 4, len) == r.tok && f.text(pos + 4 + len, 4) == r.score
  {
    var len := Int32Bytes(|r.tok|);
    StandsSplit(data, pos, len + r.tok, r.score);
    StandsSplit(data, pos, len, r.tok);
    IntStands(data, pos, |r.tok|);
    TextStands(data, pos + 4, r.tok);
    TextStands(data, pos + 4 + |r.tok|, r.score);
  }

  lemma HeldCons(f: File, pos: nat, rs: seq<RawRecord>)
    requires rs != [] && var len := |rs[0].tok|;
      && pos + 8 + len <= f.size && f.ints(pos) == len
      && f.text(pos + 4, len) == rs[0].tok && f.text(pos + 4 + len, 4) == rs[0].score
      && RecordsHeld(f, pos + 8 + len, rs[1..])
    ensures RecordsHeld(f, pos, rs)
  {
  }

  lemma {:induction false} RecordsStand(data: Bytes, pos: nat, rs: seq<RawRecord>)
    requires AllWritable(rs)
    requires Stands(data, pos, WriteRecords(rs))
    ensures RecordsHeld(FileOf(data), pos, rs)
    decreases |rs|
  {
    if rs == [] {
      IntStands(data, pos, -1);
    } else {
      var first := WriteRecord(rs[0]);
      assert RecordsHeld(FileOf(data), pos + |first|, rs[1..]) by {
        StandsSplit(data, pos, first, WriteRecords(rs[1..]));
        RecordsStand(data, pos + |first|, rs[1..]);
      }
      assert Stands(data, pos, first) by { StandsSplit(data, pos, first, WriteRecords(rs[1..])); }
      RecordStands(data, pos, rs[0]);
      HeldCons(FileOf(data), pos, rs);
    }
  }

  lemma {:induction false} HeldRead(f: File, pos: nat, rs: seq<RawRecord>, float: Bytes -> real)
    requires RecordsHeld(f, pos, rs) && AllWritable(rs)
    ensures ReadRecords(f, pos, float) == Some(Records(Decoded(rs, float), pos + |WriteRecords(rs)|))
    decreases |rs|
  {
    if rs != [] {
      HeldRead(f, pos + 8 + |rs[0].tok|, rs[1..], float);
    }
  }

  /** Written records read back, wherever they stand in the buffer. */
  lemma RecordsRoundTrip(data: Bytes, pos: nat, rs: seq<RawRecord>, float: Bytes -> real)
    requires AllWritable(rs)
    requires Stands(data, pos, WriteRecords(rs))
    ensures ReadRecords(FileOf(data), pos, float) == Some(Records(Decoded(rs, float), pos + |WriteRecords(rs)|))
  {
    RecordsStand(data, pos, rs);
    HeldRead(FileOf(data), pos, rs, float);
  }

  /** Reads records up to a negative length, at most `limit` of them, and indexes their words. */
  method LoadVocabList(f: File, limit: nat, float: Bytes -> real) returns (r: Option<Records>, ids: map<Bytes, int>)
    ensures var read := ReadRecords(f, 0, float);
      r == if read.Some? && |read.value.records| <= limit then read else None
    ensures r.Some? ==> Indexes(ids, r.value.records, |r.value.records|)
  {
    var records: seq<TokenScore>, offs: nat := [], 0;
    ids := map[];
    ghost var all := ReadRecords(f, 0, float);
    JoinedEmpty(all);
    while true
      invariant Indexes(ids, records, |records|) && |records| <= limit
      invariant Joined(records, ReadRecords(f, offs, float)) == all
      decreases f.size - offs
    {
      match NextRecord(f, offs, float)
      case CutOff => return None, ids;
      case Last(end) =>
        assert records + [] == records;
        return Some(Records(records, end)), ids;
      case Record(t, after) =>
        if |records| >= limit {
          return None, ids;
        }
        JoinedNext(records, t, ReadRecords(f, after, float));
        IndexesNext(ids, records, t);
        ids, records, offs := ids[t.tok := |records|], records + [t], after;
    }
  }

  class Processor {
    var vocab: Vocab
    var tokMaxLen: nat  // never reset by a later load
    const unk: int

    constructor (unknown: int)
      ensures unk == unknown && tokMaxLen == 0 && vocab == Vocab(map[], [])
    {
      unk, tokMaxLen, vocab := unknown, 0, Vocab(map[], []);
    }

    /** Reads the vocabulary records from a buffer and returns how many bytes they took. Reading outside
        the buffer, or more than `nVocab + 100` records, ends without a result. */
    method Load(f: File, nVocab: nat, float: Bytes -> real) returns (size: Option<nat>)
      modifies this
      ensures var read := ReadRecords(f, 0, float);
        size == if read.Some? && |read.value.records| <= nVocab + 100 then Some(read.value.end) else None
      ensures size.Some? ==>
        var records := ReadRecords(f, 0, float).value.records;
        && vocab.idToToken == records && Indexes(vocab.tokenToId, records, |records|)
        && tokMaxLen == MaxLength(records, old(tokMaxLen))
      ensures size.Some? ==> vocab.Valid() && vocab.WithinLength(tokMaxLen)
    {
      var read, ids := LoadVocabList(f, nVocab + 100, float);
      if read.None? {
        return None;
      }
      vocab := Vocab(ids, read.value.records);
      LongestSoFar(read.value.records);
      size := Some(read.value.end);
    }

    /** Raises the recorded maximal length to that of the longest token. */
    method LongestSoFar(records: seq<TokenScore>)
      modifies `tokMaxLen
      ensures tokMaxLen == MaxLength(records, old(tokMaxLen))
    {
      for i := 0 to |records|
        invariant tokMaxLen == MaxLength(records[..i], old(tokMaxLen))
      {
        assert records[..i + 1][..i] == records[..i];
        if |records[i].tok| > tokMaxLen {
          tokMaxLen := |records[i].tok|;
        }
      }
      assert records[..|records|] == records;
    }

    /** Encodes one text with a fresh tokenizer. */
    method DoEncode(text: Bytes, ids: seq<int>) returns (r: seq<int>, ghost q: Problem, ghost path: seq<Step>)
      requires vocab.Valid() && vocab.WithinLength(tokMaxLen) && 0 <= unk < |vocab.idToToken|
      ensures q.vocab == vocab && q.text == text && q.unk == unk && q.Valid()
      ensures r == ids + Ids(path)
      ensures ScoresInRange(q) ==> Optimal(q, path) && Spelling(q, path) == text
    {
      var tokenizer := new Tokenizer(vocab, tokMaxLen, unk);
      r, path := tokenizer.Tokenize(text, ids);
      q := tokenizer.ProblemFor(text);
      if ScoresInRange(q) {
        SegmentsTile(q, path, |q.ends| - 1);
        assert q.text[..|q.text|] == q.text;
      }
    }
  }
}

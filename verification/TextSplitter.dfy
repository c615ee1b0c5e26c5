/** Merging splits into documents and splitting a text recursively by a list of separators. */
module TextSplitter {
  import opened Sequences
  import opened SplitWindows
  import opened Strings
  import opened Wrappers

  /** `isSpace` says which characters trimming removes. */
  datatype Options = Options(chunkSize: nat, overlap: nat, keepSeparator: bool, strip: bool, isSpace: char -> bool)

  function TrimFront(s: string, isSpace: char -> bool): (r: string)
    ensures |r| <= |s|
  {
    if s != "" && isSpace(s[0]) then TrimFront(s[1..], isSpace) else s
  }

  function TrimBack(s: string, isSpace: char -> bool): (r: string)
    ensures |r| <= |s|
  {
    if s != "" && isSpace(s[|s| - 1]) then TrimBack(s[..|s| - 1], isSpace) else s
  }

  /** One document: the join of some splits, trimmed if the options say so. */
  function Document(o: Options, splits: seq<string>, sep: string): (r: string)
    ensures |r| <= |Joined(splits, sep)|
  {
    var text := Joined(splits, sep);
    if o.strip then TrimBack(TrimFront(text, o.isSpace), o.isSpace) else text
  }

  /** `r` is `s` without the blanks at its ends: only blanks are cut off, and none is left at either end. */
  ghost predicate TrimmedTo(s: string, r: string, isSpace: char -> bool) {
    exists a, b | 0 <= a <= b <= |s| ::
      && r == s[a..b] && AllBlank(s[..a], isSpace) && AllBlank(s[b..], isSpace)
      && (r != "" ==> !isSpace(r[0]) && !isSpace(r[|r| - 1]))
  }

  predicate AllBlank(s: string, isSpace: char -> bool) {
    forall i | 0 <= i < |s| :: isSpace(s[i])
  }

  lemma {:induction false} FrontTrimmed(s: string, isSpace: char -> bool) returns (a: nat)
    ensures a <= |s| && TrimFront(s, isSpace) == s[a..] && AllBlank(s[..a], isSpace)
    ensures a < |s| ==> !isSpace(s[a])
  {
    if s != "" && isSpace(s[0]) {
      var rest := s[1..];
      a := FrontTrimmed(rest, isSpace);
      assert rest[a..] == s[a + 1..] && s[..a + 1] == [s[0]] + rest[..a];
      a := a + 1;
    } else {
      a := 0;
    }
  }

  lemma {:induction false} BackTrimmed(s: string, isSpace: char -> bool) returns (b: nat)
    ensures b <= |s| && TrimBack(s, isSpace) == s[..b] && AllBlank(s[b..], isSpace)
    ensures b > 0 ==> !isSpace(s[b - 1])
    decreases |s|
  {
    if s != "" && isSpace(s[|s| - 1]) {
      var front := s[..|s| - 1];
      b := BackTrimmed(front, isSpace);
      assert front[..b] == s[..b] && s[b..] == front[b..] + [s[|s| - 1]];
    } else {
      b := |s|;
      assert s[..b] == s && s[b..] == "";
    }
  }

  lemma Trims(s: string, isSpace: char -> bool)
    ensures TrimmedTo(s, TrimBack(TrimFront(s, isSpace), isSpace), isSpace)
  {
    var a := FrontTrimmed(s, isSpace);
    var b := BackTrimmed(s[a..], isSpace);
    assert s[a..][..b] == s[a..a + b] && s[a..][b..] == s[a + b..];
    assert a < |s| && b > 0 ==> s[a..a + b][0] == s[a];
  }

  method JoinDocs(o: Options, docs: seq<string>, sep: string) returns (text: string)
    ensures text == Document(o, docs, sep)
    ensures if o.strip then TrimmedTo(Joined(docs, sep), text, o.isSpace) else text == Joined(docs, sep)
  {
    text := "";
    for i := 0 to |docs|
      invariant text + Joined(docs[i..], sep) == Joined(docs, sep)
    {
      assert docs[i..][1..] == docs[i + 1..];
      text := text + docs[i];
      if i != |docs| - 1 {
        text := text + sep;
      }
    }
    assert docs[|docs|..] == [] && text + "" == text;
    if o.strip {
      Trims(text, o.isSpace);
      text := TrimBack(TrimFront(text, o.isSpace), o.isSpace);
    }
  }

  function Lens(splits: seq<string>): (r: seq<nat>)
    ensures |r| == |splits| && forall i | 0 <= i < |r| :: r[i] == |splits[i]|
  {
    seq(|splits|, i requires 0 <= i < |splits| => |splits[i]|)
  }

  lemma {:induction false} WidthIsLength(splits: seq<string>, lo: nat, hi: nat, sep: string)
    requires lo <= hi <= |splits|
    ensures Width(Lens(splits), lo, hi, |sep|) == |Joined(splits[lo..hi], sep)|
    decreases hi - lo
  {
    if lo < hi {
      WidthFront(Lens(splits), lo, hi, |sep|);
      WidthIsLength(splits, lo + 1, hi, sep);
      assert splits[lo..hi][1..] == splits[lo + 1..hi];
    }
  }

  /** The document of one window; an empty one is left out. */
  function EmitOne(o: Options, splits: seq<string>, sep: string): seq<string> {
    var doc := Document(o, splits, sep);
    if doc == "" then [] else [doc]
  }

  function WindowDoc(o: Options, splits: seq<string>, sep: string, w: Window): seq<string> {
    if w.lo <= w.hi <= |splits| then EmitOne(o, splits[w.lo..w.hi], sep) else []
  }

  /** The documents of the windows. */
  function Emit(o: Options, splits: seq<string>, sep: string, ws: seq<Window>): seq<string> {
    if ws == [] then [] else WindowDoc(o, splits, sep, ws[0]) + Emit(o, splits, sep, ws[1..])
  }

  method PushDoc(o: Options, docs: seq<string>, current: seq<string>, sep: string) returns (r: seq<string>)
    ensures r == docs + EmitOne(o, current, sep)
  {
    var doc := JoinDocs(o, current, sep);
    r := docs;
    if |doc| != 0 {
      r := r + [doc];
    }
  }

  function SizesOf(o: Options, sep: string): Sizes {
    Sizes(o.chunkSize, o.overlap, |sep|)
  }

  /** The documents still to come at split `k`, when the current window starts at `lo`. */
  function Pending(o: Options, splits: seq<string>, sep: string, lo: nat, k: nat): seq<string>
    requires lo <= k <= |splits|
    decreases |splits| - k
  {
    if k == |splits| then EmitOne(o, splits[lo..k], sep)
    else if Full(Lens(splits), SizesOf(o, sep), lo, k) then
      EmitOne(o, splits[lo..k], sep) + Pending(o, splits, sep, DropFront(Lens(splits), SizesOf(o, sep), lo, k), k + 1)
    else Pending(o, splits, sep, lo, k + 1)
  }

  lemma {:induction false} PendingIsEmit(o: Options, splits: seq<string>, sep: string, lo: nat, k: nat)
    requires lo <= k <= |splits|
    ensures Pending(o, splits, sep, lo, k) == Emit(o, splits, sep, Scan(Lens(splits), SizesOf(o, sep), lo, k))
    decreases |splits| - k
  {
    var lens, z := Lens(splits), SizesOf(o, sep);
    var w := Window(lo, k);
    if k == |splits| {
      assert Emit(o, splits, sep, [w]) == WindowDoc(o, splits, sep, w) by { EmitCons(o, splits, sep, w, []); }
    } else if Full(lens, z, lo, k) {
      var next := DropFront(lens, z, lo, k);
      var rest := Scan(lens, z, next, k + 1);
      assert Emit(o, splits, sep, [w] + rest) == WindowDoc(o, splits, sep, w) + Emit(o, splits, sep, rest) by {
        EmitCons(o, splits, sep, w, rest);
      }
      PendingIsEmit(o, splits, sep, next, k + 1);
    } else {
      PendingIsEmit(o, splits, sep, lo, k + 1);
    }
  }

  lemma EmitCons(o: Options, splits: seq<string>, sep: string, w: Window, ws: seq<Window>)
    ensures Emit(o, splits, sep, [w] + ws) == WindowDoc(o, splits, sep, w) + Emit(o, splits, sep, ws)
    ensures ws == [] ==> Emit(o, splits, sep, [w]) == WindowDoc(o, splits, sep, w)
  {
    assert ([w] + ws)[1..] == ws;
    assert ws == [] ==> [w] + ws == [w];
  }

  /** The trimming loop: the running total follows the window. */
  method DropSplits(
    o: Options, splits: seq<string>, sep: string, k: nat, current: seq<string>, total: nat, ghost lo: nat
  )
    returns (r: seq<string>, t: nat, ghost next: nat)
    requires lo <= k < |splits| && current == splits[lo..k]
    requires total == Width(Lens(splits), lo, k, |sep|)
    ensures next == DropFront(Lens(splits), SizesOf(o, sep), lo, k)
    ensures r == splits[next..k] && t == Width(Lens(splits), next, k, |sep|)
  {
    r, t, next := current, total, lo;
    var d := |splits[k]|;
    while t > o.overlap || (t + d + (if r == [] then |sep| else 0) > o.chunkSize && t > 0)
      invariant lo <= next <= k && r == splits[next..k] && t == Width(Lens(splits), next, k, |sep|)
      invariant DropFront(Lens(splits), SizesOf(o, sep), next, k) == DropFront(Lens(splits), SizesOf(o, sep), lo, k)
      decreases |r|
    {
      WidthFront(Lens(splits), next, k, |sep|);
      t := t - (|r[0]| + if |r| > 1 then |sep| else 0);
      r, next := r[1..], next + 1;
    }
  }

  lemma SliceNext(s: seq<string>, lo: nat, k: nat)
    requires lo <= k < |s|
    ensures s[lo..k + 1] == s[lo..k] + [s[k]]
  {
  }

  /** One round of the merging loop. */
  method MergeNext(
    o: Options, splits: seq<string>, sep: string, k: nat, current: seq<string>, total: nat, docs: seq<string>,
    ghost lo: nat
  )
    returns (c: seq<string>, t: nat, r: seq<string>, ghost next: nat)
    requires lo <= k < |splits| && current == splits[lo..k]
    requires total == Width(Lens(splits), lo, k, |sep|)
    ensures var full := Full(Lens(splits), SizesOf(o, sep), lo, k);
      && next == (if full then DropFront(Lens(splits), SizesOf(o, sep), lo, k) else lo)
      && r == (if full then docs + EmitOne(o, splits[lo..k], sep) else docs)
    ensures c == splits[next..k + 1] && t == Width(Lens(splits), next, k + 1, |sep|)
  {
    c, t, r, next := current, total, docs, lo;
    var d := |splits[k]|;
    if t + d + (if c == [] then 0 else |sep|) > o.chunkSize {
      if c != [] {
        r := PushDoc(o, r, c, sep);
        c, t, next := DropSplits(o, splits, sep, k, c, t, next);
      }
    }
    SliceNext(splits, next, k);
    c := c + [splits[k]];
    t := t + d + if |c| > 1 then |sep| else 0;
  }

  method MergeSplits(o: Options, splits: seq<string>, sep: string, start: seq<string>) returns (docs: seq<string>)
    ensures docs == start + Emit(o, splits, sep, Scan(Lens(splits), SizesOf(o, sep), 0, 0))
  {
    var current: seq<string>, total := [], 0;
    docs := start;
    ghost var lo: nat, all := 0, Pending(o, splits, sep, 0, 0);
    for k := 0 to |splits|
      invariant lo <= k && current == splits[lo..k] && total == Width(Lens(splits), lo, k, |sep|)
      invariant docs + Pending(o, splits, sep, lo, k) == start + all
    {
      current, total, docs, lo := MergeNext(o, splits, sep, k, current, total, docs, lo);
    }
    docs := PushDoc(o, docs, current, sep);
    PendingIsEmit(o, splits, sep, 0, 0);
  }

  /** Every document is at most the chunk size plus one separator; within the chunk size when sizes allow. */
  lemma DocumentSizes(o: Options, splits: seq<string>, sep: string, ws: seq<Window>, i: nat)
    requires forall j | 0 <= j < |splits| :: |splits[j]| <= o.chunkSize
    requires ws == Scan(Lens(splits), SizesOf(o, sep), 0, 0) && i < |ws|
    ensures ws[i].lo <= ws[i].hi <= |splits|
    ensures |Document(o, splits[ws[i].lo..ws[i].hi], sep)| <= o.chunkSize + |sep|
    ensures NoOverrun(SizesOf(o, sep)) && (forall j | 0 <= j < |splits| :: splits[j] != "") ==>
            |Document(o, splits[ws[i].lo..ws[i].hi], sep)| <= o.chunkSize
  {
    ScanWithin(Lens(splits), SizesOf(o, sep), 0, 0);
    assert Width(Lens(splits), ws[i].lo, ws[i].hi, |sep|) <= o.chunkSize + |sep|;
    WidthIsLength(splits, ws[i].lo, ws[i].hi, sep);
    if NoOverrun(SizesOf(o, sep)) && forall j | 0 <= j < |splits| :: splits[j] != "" {
      ScanKeepsChunkSize(Lens(splits), SizesOf(o, sep), 0, 0);
    }
  }

  // ----- choosing a separator

  /** What a text is split by, and the separators left after it. */
  datatype Choice = Choice(sep: string, rest: seq<string>)

  predicate Applies(text: string, sep: string) {
    sep == "" || Contains(text, sep)
  }

  /** The first separator from `i` on that applies; the empty one uses up the whole list, any other
      only itself. If none applies it is the last one, and the list stays as it is. */
  function Chosen(text: string, separators: seq<string>, i: nat): Choice
    requires i <= |separators| && separators != []
    decreases |separators| - i
  {
    if i == |separators| then Choice(separators[i - 1], separators)
    else if separators[i] == "" then Choice("", [])
    else if Contains(text, separators[i]) then Choice(separators[i], separators[..i] + separators[i + 1..])
    else Chosen(text, separators, i + 1)
  }

  /** The separator at `k` is the first one that applies. */
  ghost predicate FirstApplies(text: string, separators: seq<string>, k: int) {
    0 <= k < |separators| && Applies(text, separators[k]) && forall j | 0 <= j < k :: !Applies(text, separators[j])
  }

  /** The first separator that applies is chosen. The empty one uses up the whole list, any other only
      itself; when none applies the last one is chosen and the list stays. */
  method ChooseSeparator(text: string, separators: seq<string>) returns (c: Choice)
    requires separators != []
    ensures c == Chosen(text, separators, 0)
    ensures NoneApplies(text, separators) ==> c == Choice(separators[|separators| - 1], separators)
    ensures forall k | FirstApplies(text, separators, k) ::
      c == Choice(separators[k], if separators[k] == "" then [] else separators[..k] + separators[k + 1..])
  {
    for i := 0 to |separators|
      invariant Chosen(text, separators, 0) == Chosen(text, separators, i)
      invariant forall j | 0 <= j < i :: !Applies(text, separators[j])
    {
      assert forall k | FirstApplies(text, separators, k) && Applies(text, separators[i]) :: k == i;
      if separators[i] == "" {
        return Choice("", []);
      }
      if Contains(text, separators[i]) {
        return Choice(separators[i], separators[..i] + separators[i + 1..]);
      }
    }
    c := Choice(separators[|separators| - 1], separators);
  }

  /** No separator can cut the text: none is empty and none occurs in it. */
  ghost predicate NoneApplies(text: string, separators: seq<string>) {
    forall i | 0 <= i < |separators| :: !Applies(text, separators[i])
  }

  lemma RemoveKeeps(s: seq<string>, i: nat, x: string)
    requires i < |s| && s[i] != x
    ensures x in s[..i] + s[i + 1..] <==> x in s
  {
    assert s == s[..i] + ([s[i]] + s[i + 1..]);
  }

  /** The list shrinks unless no separator applies, and the empty separator is not lost but used last. */
  lemma {:induction false} ChosenShrinks(text: string, separators: seq<string>, i: nat)
    requires i <= |separators| && separators != []
    requires forall j | 0 <= j < i :: !Applies(text, separators[j])
    ensures var c := Chosen(text, separators, i);
      && (NoneApplies(text, separators) ==> c == Choice(separators[|separators| - 1], separators))
      && (!NoneApplies(text, separators) ==> |c.rest| < |separators| && Applies(text, c.sep) && c.sep in separators)
      && (c.rest != [] ==> ("" in c.rest <==> "" in separators))
    decreases |separators| - i
  {
    if i < |separators| {
      if separators[i] == "" {
        assert Applies(text, separators[i]);
      } else if Contains(text, separators[i]) {
        assert Applies(text, separators[i]);
        RemoveKeeps(separators, i, "");
      } else {
        ChosenShrinks(text, separators, i + 1);
      }
    }
  }

  // ----- kept separators, no overlap, no trimming: nothing is lost

  predicate Lossless(o: Options) {
    o.keepSeparator && !o.strip && o.overlap == 0
  }

  lemma EmitOneConcat(o: Options, splits: seq<string>)
    requires !o.strip
    ensures Flatten(EmitOne(o, splits, "")) == Flatten(splits)
  {
    JoinedEmpty(splits);
    FlattenOne(Flatten(splits));
  }

  lemma ConcatSlices(splits: seq<string>, a: nat, b: nat, c: nat)
    requires a <= b <= c <= |splits|
    ensures Flatten(splits[a..c]) == Flatten(splits[a..b]) + Flatten(splits[b..c])
  {
    assert splits[a..c] == splits[a..b] + splits[b..c];
    FlattenAppend(splits[a..b], splits[b..c]);
  }

  /** Adjacent windows give documents that concatenate to the splits they cover. */
  lemma {:induction false} AdjacentConcat(o: Options, splits: seq<string>, ws: seq<Window>, from: nat, to: nat)
    requires !o.strip && Adjacent(ws, from, to) && from <= to <= |splits|
    ensures Flatten(Emit(o, splits, "", ws)) == Flatten(splits[from..to])
    decreases |ws|
  {
    if ws == [] {
      assert splits[from..to] == [];
    } else {
      var w, rest := ws[0], ws[1..];
      AdjacentForward(rest, w.hi, to);
      AdjacentConcat(o, splits, rest, w.hi, to);
      FlattenAppend(WindowDoc(o, splits, "", w), Emit(o, splits, "", rest));
      EmitOneConcat(o, splits[w.lo..w.hi]);
      ConcatSlices(splits, from, w.hi, to);
    }
  }

  /** The merged documents of non-empty splits concatenate to the splits. */
  lemma MergedConcat(o: Options, splits: seq<string>)
    requires Lossless(o) && forall i | 0 <= i < |splits| :: splits[i] != ""
    ensures Flatten(Emit(o, splits, "", Scan(Lens(splits), SizesOf(o, ""), 0, 0))) == Flatten(splits)
  {
    ScanAdjacent(Lens(splits), SizesOf(o, ""), 0, 0);
    AdjacentConcat(o, splits, Scan(Lens(splits), SizesOf(o, ""), 0, 0), 0, |splits|);
    assert splits[0..|splits|] == splits;
  }

  // ----- recursive splitting

  /** How a separator cuts a text, by its occurrences or for the empty separator into graphemes. */
  type Splitter = (string, string) -> seq<string>

  datatype Config = Config(o: Options, split: Splitter, escape: string -> string)

  /** What a call leaves behind: the shared list of separators and the chunks. */
  datatype Split = Split(seps: seq<string>, chunks: seq<string>)

  function Flushed(o: Options, good: seq<string>, sep: string, chunks: seq<string>): seq<string> {
    if good == [] then chunks else chunks + Emit(o, good, sep, Scan(Lens(good), SizesOf(o, sep), 0, 0))
  }

  /** What the pieces are joined by; kept separators are in the pieces already. */
  function MergingSep(c: Config, sep: string): string {
    if c.o.keepSeparator || sep == "" then "" else c.escape(sep)
  }

  /** The recursion with room for `depth` nested calls: nothing when that is too little. */
  function SplitWithin(depth: nat, c: Config, text: string, separators: seq<string>, chunks: seq<string>): Option<Split>
    requires separators != []
    decreases depth, 0
  {
    if depth == 0 then None
    else
      var ch := Chosen(text, separators, 0);
      PiecesWithin(depth, c, c.split(text, ch.sep), MergingSep(c, ch.sep), ch.rest, [], chunks)
  }

  /** The loop over the pieces of one call. A piece that is still too long is split by the separators
      that are left; what it uses up is gone for the pieces after it. */
  function PiecesWithin(
    depth: nat, c: Config, pieces: seq<string>, sep: string, seps: seq<string>, good: seq<string>, chunks: seq<string>
  ): Option<Split>
    requires depth > 0
    decreases depth - 1, |pieces| + 1
  {
    if pieces == [] then Some(Split(seps, Flushed(c.o, good, sep, chunks)))
    else if |pieces[0]| < c.o.chunkSize then PiecesWithin(depth, c, pieces[1..], sep, seps, good + [pieces[0]], chunks)
    else
      var flushed := Flushed(c.o, good, sep, chunks);
      if seps == [] then PiecesWithin(depth, c, pieces[1..], sep, [], [], flushed + [pieces[0]])
      else
        match SplitWithin(depth - 1, c, pieces[0], seps, flushed)
        case None => None
        case Some(r) => PiecesWithin(depth, c, pieces[1..], sep, r.seps, [], r.chunks)
  }

  method FlushGood(o: Options, good: seq<string>, sep: string, chunks: seq<string>) returns (r: seq<string>)
    ensures r == Flushed(o, good, sep, chunks)
  {
    r := chunks;
    if good != [] {
      r := MergeSplits(o, good, sep, chunks);
    }
  }

  /** The recursion of the source on a stack with room for `depth` calls. */
  method SplitText(depth: nat, c: Config, text: string, separators: seq<string>, start: seq<string>)
    returns (r: Option<Split>)
    requires separators != []
    ensures r == SplitWithin(depth, c, text, separators, start)
    decreases depth
  {
    if depth == 0 {
      return None;
    }
    var choice := ChooseSeparator(text, separators);
    var seps, chunks, splits := choice.rest, start, c.split(text, choice.sep);
    var sep := MergingSep(c, choice.sep);
    var good: seq<string> := [];
    assert splits[0..] == splits;
    for i := 0 to |splits|
      invariant PiecesWithin(depth, c, splits[i..], sep, seps, good, chunks) ==
                SplitWithin(depth, c, text, separators, start)
    {
      var piece := splits[i];
      assert splits[i..][0] == piece && splits[i..][1..] == splits[i + 1..];
      if |piece| < c.o.chunkSize {
        good := good + [piece];
      } else {
        chunks := FlushGood(c.o, good, sep, chunks);
        good := [];
        if seps == [] {
          chunks := chunks + [piece];
        } else {
          var nested := SplitText(depth - 1, c, piece, seps, chunks);
          if nested.None? {
            return None;
          }
          seps, chunks := nested.value.seps, nested.value.chunks;
        }
      }
    }
    chunks := FlushGood(c.o, good, sep, chunks);
    r := Some(Split(seps, chunks));
  }

  /** The call comes to an end: some depth is enough. */
  ghost predicate Ends(c: Config, text: string, separators: seq<string>, chunks: seq<string>)
    requires separators != []
  {
    exists depth: nat :: SplitWithin(depth, c, text, separators, chunks).Some?
  }

  // ----- depth

  /** More room does not change a result. */
  lemma {:induction false} MoreDepth(n: nat, m: nat, c: Config, text: string, seps: seq<string>, chunks: seq<string>)
    requires seps != [] && n <= m && SplitWithin(n, c, text, seps, chunks).Some?
    ensures SplitWithin(m, c, text, seps, chunks) == SplitWithin(n, c, text, seps, chunks)
    decreases n, 0
  {
    var ch := Chosen(text, seps, 0);
    MoreDepthPieces(n, m, c, c.split(text, ch.sep), MergingSep(c, ch.sep), ch.rest, [], chunks);
  }

  lemma {:induction false} MoreDepthPieces(
    n: nat, m: nat, c: Config, pieces: seq<string>, sep: string, seps: seq<string>, good: seq<string>,
    chunks: seq<string>
  )
    requires 0 < n <= m && PiecesWithin(n, c, pieces, sep, seps, good, chunks).Some?
    ensures PiecesWithin(m, c, pieces, sep, seps, good, chunks) == PiecesWithin(n, c, pieces, sep, seps, good, chunks)
    decreases n - 1, |pieces| + 1
  {
    if pieces != [] {
      var flushed := Flushed(c.o, good, sep, chunks);
      if |pieces[0]| < c.o.chunkSize {
        MoreDepthPieces(n, m, c, pieces[1..], sep, seps, good + [pieces[0]], chunks);
      } else if seps == [] {
        MoreDepthPieces(n, m, c, pieces[1..], sep, [], [], flushed + [pieces[0]]);
      } else {
        MoreDepth(n - 1, m - 1, c, pieces[0], seps, flushed);
        var r := SplitWithin(n - 1, c, pieces[0], seps, flushed).value;
        MoreDepthPieces(n, m, c, pieces[1..], sep, r.seps, [], r.chunks);
      }
    }
  }

  /** A list as long as `n` that can be used up to the end: empty, or with the empty separator in it. */
  predicate UsableUp(seps: seq<string>, n: nat) {
    |seps| <= n && (seps != [] ==> "" in seps)
  }

  /** With the empty separator in the list there are never more nested calls than separators. */
  lemma {:induction false} EmptySeparatorEnds(
    depth: nat, c: Config, text: string, separators: seq<string>, chunks: seq<string>
  )
    requires "" in separators && |separators| <= depth
    ensures var r := SplitWithin(depth, c, text, separators, chunks);
      r.Some? && UsableUp(r.value.seps, |separators| - 1)
    decreases depth, 0
  {
    var ch := Chosen(text, separators, 0);
    ChosenShrinks(text, separators, 0);
    var i :| 0 <= i < |separators| && separators[i] == "";
    assert Applies(text, separators[i]);
    PiecesEnd(depth, |separators| - 1, c, c.split(text, ch.sep), MergingSep(c, ch.sep), ch.rest, [], chunks);
  }

  lemma {:induction false} PiecesEnd(
    depth: nat, n: nat, c: Config, pieces: seq<string>, sep: string, seps: seq<string>, good: seq<string>,
    chunks: seq<string>
  )
    requires UsableUp(seps, n) && n < depth
    ensures var r := PiecesWithin(depth, c, pieces, sep, seps, good, chunks);
      r.Some? && UsableUp(r.value.seps, n)
    decreases depth - 1, |pieces| + 1
  {
    if pieces != [] {
      var flushed := Flushed(c.o, good, sep, chunks);
      if |pieces[0]| < c.o.chunkSize {
        PiecesEnd(depth, n, c, pieces[1..], sep, seps, good + [pieces[0]], chunks);
      } else if seps == [] {
        PiecesEnd(depth, n, c, pieces[1..], sep, [], [], flushed + [pieces[0]]);
      } else {
        EmptySeparatorEnds(depth - 1, c, pieces[0], seps, flushed);
        var r := SplitWithin(depth - 1, c, pieces[0], seps, flushed).value;
        PiecesEnd(depth, n, c, pieces[1..], sep, r.seps, [], r.chunks);
      }
    }
  }

  // ----- endless recursion

  /** A separator that does not occur leaves the text whole (or yields nothing of an empty text). */
  ghost predicate AbsentKeepsWhole(split: Splitter) {
    forall text, sep {:trigger split(text, sep)} ::
      !Applies(text, sep) ==> split(text, sep) == [text] || (text == "" && split(text, sep) == [])
  }

  /** A call that cannot cut its text and finds it too long. */
  ghost predicate Stuck(c: Config, text: string, separators: seq<string>) {
    && separators != [] && NoneApplies(text, separators) && |text| >= c.o.chunkSize
    && c.split(text, separators[|separators| - 1]) == [text]
  }

  /** Such a call makes the same call again, so no depth is enough. */
  lemma {:induction false} StuckNeverEnds(
    depth: nat, c: Config, text: string, separators: seq<string>, chunks: seq<string>
  )
    requires Stuck(c, text, separators)
    ensures SplitWithin(depth, c, text, separators, chunks).None?
  {
    if depth > 0 {
      ChosenShrinks(text, separators, 0);
      var sep := separators[|separators| - 1];
      assert PiecesWithin(depth, c, [text], MergingSep(c, sep), separators, [], chunks).None? by {
        StuckNeverEnds(depth - 1, c, text, separators, chunks);
      }
    }
  }

  /** The recursion ends if and only if it does so within as many nested calls as there are separators. */
  lemma {:induction false} DepthExactly(c: Config, text: string, separators: seq<string>, chunks: seq<string>)
    requires AbsentKeepsWhole(c.split) && separators != []
    ensures Ends(c, text, separators, chunks) <==> SplitWithin(|separators|, c, text, separators, chunks).Some?
  {
    if Ends(c, text, separators, chunks) {
      var depth: nat :| SplitWithin(depth, c, text, separators, chunks).Some?;
      DepthSuffices(depth, c, text, separators, chunks);
    }
  }

  lemma {:induction false} DepthSuffices(
    depth: nat, c: Config, text: string, separators: seq<string>, chunks: seq<string>
  )
    requires AbsentKeepsWhole(c.split) && separators != []
    requires SplitWithin(depth, c, text, separators, chunks).Some?
    ensures SplitWithin(|separators|, c, text, separators, chunks) == SplitWithin(depth, c, text, separators, chunks)
    ensures |SplitWithin(depth, c, text, separators, chunks).value.seps| <= |separators|
    decreases depth, 0
  {
    var ch := Chosen(text, separators, 0);
    ChosenShrinks(text, separators, 0);
    if NoneApplies(text, separators) {
      var sep := separators[|separators| - 1];
      assert !Applies(text, sep);
      if Stuck(c, text, separators) {
        StuckNeverEnds(depth, c, text, separators, chunks);
      } else if c.split(text, sep) == [text] {
        ShortPiece(depth, |separators|, c, text, MergingSep(c, sep), separators, chunks);
      }
    } else {
      PiecesSuffice(depth, |separators|, c, c.split(text, ch.sep), MergingSep(c, ch.sep), ch.rest, [], chunks);
    }
  }

  lemma ShortPiece(n: nat, m: nat, c: Config, text: string, sep: string, seps: seq<string>, chunks: seq<string>)
    requires 0 < n && 0 < m && |text| < c.o.chunkSize
    ensures PiecesWithin(n, c, [text], sep, seps, [], chunks) == PiecesWithin(m, c, [text], sep, seps, [], chunks)
    ensures PiecesWithin(n, c, [text], sep, seps, [], chunks) == Some(Split(seps, Flushed(c.o, [text], sep, chunks)))
  {
    assert [text][1..] == [] && [] + [text] == [text];
  }

  lemma {:induction false} PiecesSuffice(
    depth: nat, n: nat, c: Config, pieces: seq<string>, sep: string, seps: seq<string>, good: seq<string>,
    chunks: seq<string>
  )
    requires AbsentKeepsWhole(c.split) && depth > 0 && |seps| < n
    requires PiecesWithin(depth, c, pieces, sep, seps, good, chunks).Some?
    ensures PiecesWithin(n, c, pieces, sep, seps, good, chunks) ==
            PiecesWithin(depth, c, pieces, sep, seps, good, chunks)
    ensures |PiecesWithin(depth, c, pieces, sep, seps, good, chunks).value.seps| < n
    decreases depth - 1, |pieces| + 1
  {
    if pieces != [] {
      var flushed := Flushed(c.o, good, sep, chunks);
      if |pieces[0]| < c.o.chunkSize {
        PiecesSuffice(depth, n, c, pieces[1..], sep, seps, good + [pieces[0]], chunks);
      } else if seps == [] {
        PiecesSuffice(depth, n, c, pieces[1..], sep, [], [], flushed + [pieces[0]]);
      } else {
        DepthSuffices(depth - 1, c, pieces[0], seps, flushed);
        MoreDepth(|seps|, n - 1, c, pieces[0], seps, flushed);
        var r := SplitWithin(depth - 1, c, pieces[0], seps, flushed).value;
        PiecesSuffice(depth, n, c, pieces[1..], sep, r.seps, [], r.chunks);
      }
    }
  }

  // ----- when every text is split in the end

  /** The character occurs in no separator. */
  ghost predicate Unused(x: char, separators: seq<string>) {
    forall i | 0 <= i < |separators| :: x !in separators[i]
  }

  /** A text of nothing but an unused character cannot be cut. */
  lemma UnusedNeverApplies(x: char, separators: seq<string>, text: string)
    requires Unused(x, separators) && "" !in separators && forall k | 0 <= k < |text| :: text[k] == x
    ensures NoneApplies(text, separators)
  {
    forall i | 0 <= i < |separators| ensures !Applies(text, separators[i]) {
      assert separators[i] in separators;
      forall k ensures !OccursAt(text, separators[i], k) {
        if 0 <= k <= |text| - |separators[i]| {
          assert text[k..k + |separators[i]|][0] == x;
        }
      }
    }
  }

  /** A list that leaves some character unused splits every text in the end if and only if the empty
      separator is in it. */
  lemma EndsOnEveryText(c: Config, separators: seq<string>, x: char)
    requires separators != [] && AbsentKeepsWhole(c.split) && Unused(x, separators)
    ensures (forall text, chunks :: Ends(c, text, separators, chunks)) <==> "" in separators
  {
    if "" in separators {
      forall text, chunks ensures Ends(c, text, separators, chunks) {
        EmptySeparatorEnds(|separators|, c, text, separators, chunks);
      }
    } else {
      var text := seq(c.o.chunkSize + 1, _ => x);
      UnusedNeverApplies(x, separators, text);
      assert !Applies(text, separators[|separators| - 1]);
      forall depth: nat ensures SplitWithin(depth, c, text, separators, []).None? {
        StuckNeverEnds(depth, c, text, separators, []);
      }
      assert !Ends(c, text, separators, []);
    }
  }

  /** Characters below the surrogates. */
  const MANY := 0xD800

  function Without(s: string, x: char): string {
    if s == "" then "" else (if s[0] == x then "" else [s[0]]) + Without(s[1..], x)
  }

  lemma {:induction false} WithoutDrops(s: string, x: char, y: char)
    ensures |Without(s, x)| <= |s| && (x in s ==> |Without(s, x)| < |s|)
    ensures y != x ==> (y in Without(s, x) <==> y in s)
  {
    if s != "" {
      WithoutDrops(s[1..], x, y);
      assert s == [s[0]] + s[1..];
    }
  }

  /** A text with fewer than `n` characters lacks one of the first `n` characters. */
  lemma {:induction false} LacksOne(s: string, n: int) returns (x: char)
    requires |s| < n <= MANY
    ensures x !in s && x as int < n
    decreases n
  {
    x := (n - 1) as char;
    if x in s {
      WithoutDrops(s, x, x);
      var y := LacksOne(Without(s, x), n - 1);
      WithoutDrops(s, x, y);
      x := y;
    }
  }

  lemma {:induction false} UnusedInConcat(x: char, parts: seq<string>)
    requires x !in Flatten(parts)
    ensures Unused(x, parts)
  {
    if parts != [] {
      UnusedInConcat(x, parts[1..]);
    }
  }

  /** Separators that together have fewer characters than there are in the alphabet leave one unused. */
  lemma ShortListEnds(c: Config, separators: seq<string>)
    requires separators != [] && AbsentKeepsWhole(c.split) && |Flatten(separators)| < MANY
    ensures (forall text, chunks :: Ends(c, text, separators, chunks)) <==> "" in separators
  {
    var x := LacksOne(Flatten(separators), MANY);
    UnusedInConcat(x, separators);
    EndsOnEveryText(c, separators, x);
  }

  // ----- nothing is lost

  ghost predicate AllNonEmpty(splits: seq<string>) {
    forall i | 0 <= i < |splits| :: splits[i] != ""
  }

  /** With kept separators the pieces are not empty and make up the text. */
  ghost predicate CutsAll(split: Splitter) {
    forall text, sep {:trigger split(text, sep)} ::
      Flatten(split(text, sep)) == text && AllNonEmpty(split(text, sep))
  }

  lemma FlushedConcat(o: Options, good: seq<string>, chunks: seq<string>)
    requires Lossless(o) && AllNonEmpty(good)
    ensures Flatten(Flushed(o, good, "", chunks)) == Flatten(chunks) + Flatten(good)
  {
    if good != [] {
      MergedConcat(o, good);
      FlattenAppend(chunks, Emit(o, good, "", Scan(Lens(good), SizesOf(o, ""), 0, 0)));
    }
  }

  /** Kept separators, no overlap, no trimming: the chunks concatenate to the text. */
  lemma {:induction false} SplitIsLossless(
    depth: nat, c: Config, text: string, separators: seq<string>, chunks: seq<string>
  )
    requires Lossless(c.o) && CutsAll(c.split) && separators != []
    requires SplitWithin(depth, c, text, separators, chunks).Some?
    ensures Flatten(SplitWithin(depth, c, text, separators, chunks).value.chunks) == Flatten(chunks) + text
    decreases depth, 0
  {
    var ch := Chosen(text, separators, 0);
    var pieces := c.split(text, ch.sep);
    assert Flatten(pieces) == text && AllNonEmpty(pieces);
    PiecesLossless(depth, c, pieces, ch.rest, [], chunks);
  }

  lemma {:induction false} PiecesLossless(
    depth: nat, c: Config, pieces: seq<string>, seps: seq<string>, good: seq<string>, chunks: seq<string>
  )
    requires Lossless(c.o) && CutsAll(c.split) && depth > 0 && AllNonEmpty(pieces) && AllNonEmpty(good)
    requires PiecesWithin(depth, c, pieces, "", seps, good, chunks).Some?
    ensures Flatten(PiecesWithin(depth, c, pieces, "", seps, good, chunks).value.chunks) ==
            Flatten(chunks) + Flatten(good) + Flatten(pieces)
    decreases depth - 1, |pieces| + 1
  {
    if pieces == [] {
      FlushedConcat(c.o, good, chunks);
    } else {
      var flushed, piece, rest := Flushed(c.o, good, "", chunks), pieces[0], pieces[1..];
      if |piece| < c.o.chunkSize {
        PiecesLossless(depth, c, rest, seps, good + [piece], chunks);
        MovePiece(chunks, good, piece, rest);
      } else if seps == [] {
        PiecesLossless(depth, c, rest, [], [], flushed + [piece]);
        FlushedConcat(c.o, good, chunks);
        FlattenSnoc(flushed, piece);
        Regroup(Flatten(chunks), Flatten(good), piece, Flatten(rest));
      } else {
        SplitIsLossless(depth - 1, c, piece, seps, flushed);
        var r := SplitWithin(depth - 1, c, piece, seps, flushed).value;
        PiecesLossless(depth, c, rest, r.seps, [], r.chunks);
        FlushedConcat(c.o, good, chunks);
        Regroup(Flatten(chunks), Flatten(good), piece, Flatten(rest));
      }
    }
  }

  lemma Regroup(a: string, b: string, c: string, d: string)
    ensures a + b + c + "" + d == a + b + (c + d)
  {
  }

  lemma MovePiece(chunks: seq<string>, good: seq<string>, piece: string, rest: seq<string>)
    ensures Flatten(chunks) + Flatten(good + [piece]) + Flatten(rest) ==
            Flatten(chunks) + Flatten(good) + (piece + Flatten(rest))
  {
    FlattenSnoc(good, piece);
  }

  // ----- chunks are parts of the text

  /** Kept separators are in the pieces, so these make up the text; otherwise the pieces with the separator
      between them do, which holds when the separator is its own escaped form. */
  ghost predicate Rejoins(c: Config) {
    forall text, sep {:trigger c.split(text, sep)} ::
      if c.o.keepSeparator then Flatten(c.split(text, sep)) == text
      else Joined(c.split(text, sep), if sep == "" then "" else c.escape(sep)) == text
  }

  /** What is new in `chunks` occurs in the text. */
  ghost predicate NewOccur(text: string, before: seq<string>, chunks: seq<string>) {
    before <= chunks && forall i | |before| <= i < |chunks| :: Contains(text, chunks[i])
  }

  lemma NewAppend(text: string, before: seq<string>, chunks: seq<string>, more: seq<string>)
    requires NewOccur(text, before, chunks) && forall i | 0 <= i < |more| :: Contains(text, more[i])
    ensures NewOccur(text, before, chunks + more)
  {
  }

  lemma NewWider(text: string, part: string, before: seq<string>, mid: seq<string>, chunks: seq<string>)
    requires Contains(text, part) && NewOccur(text, before, mid) && NewOccur(part, mid, chunks)
    ensures NewOccur(text, before, chunks)
  {
    forall i | |before| <= i < |chunks| ensures Contains(text, chunks[i]) {
      if i < |mid| {
        assert chunks[i] == mid[i];
      } else {
        ContainsTransitive(text, part, chunks[i]);
      }
    }
  }

  lemma DocumentOccurs(o: Options, splits: seq<string>, sep: string)
    ensures Contains(Joined(splits, sep), Document(o, splits, sep))
  {
    var text := Joined(splits, sep);
    if o.strip {
      var a := FrontTrimmed(text, o.isSpace);
      var b := BackTrimmed(text[a..], o.isSpace);
      assert text[a..][..b] == text[a..a + b];
      ContainsPart(text, a, a + b);
    } else {
      ContainsPart(text, 0, |text|);
      assert text[0..|text|] == text;
    }
  }

  lemma {:induction false} EmitOccurs(o: Options, splits: seq<string>, sep: string, ws: seq<Window>)
    ensures forall i | 0 <= i < |Emit(o, splits, sep, ws)| ::
      Contains(Joined(splits, sep), Emit(o, splits, sep, ws)[i])
  {
    if ws != [] {
      EmitOccurs(o, splits, sep, ws[1..]);
      var w := ws[0];
      if w.lo <= w.hi <= |splits| {
        JoinedContains(splits, w.lo, w.hi, sep);
        DocumentOccurs(o, splits[w.lo..w.hi], sep);
        ContainsTransitive(Joined(splits, sep), Joined(splits[w.lo..w.hi], sep), Document(o, splits[w.lo..w.hi], sep));
      }
    }
  }

  /** Flushing some neighbours of `all` adds parts of their join. */
  lemma FlushedOccurs(
    o: Options, all: seq<string>, g: nat, k: nat, sep: string, before: seq<string>, chunks: seq<string>
  )
    requires g <= k <= |all| && NewOccur(Joined(all, sep), before, chunks)
    ensures NewOccur(Joined(all, sep), before, Flushed(o, all[g..k], sep, chunks))
  {
    var good, text := all[g..k], Joined(all, sep);
    var more := Emit(o, good, sep, Scan(Lens(good), SizesOf(o, sep), 0, 0));
    EmitOccurs(o, good, sep, Scan(Lens(good), SizesOf(o, sep), 0, 0));
    JoinedContains(all, g, k, sep);
    forall i | 0 <= i < |more| ensures Contains(text, more[i]) {
      ContainsTransitive(text, Joined(good, sep), more[i]);
    }
    NewAppend(text, before, chunks, more);
  }

  lemma PieceOccurs(all: seq<string>, k: nat, sep: string)
    requires k < |all|
    ensures Contains(Joined(all, sep), all[k])
  {
    JoinedContains(all, k, k + 1, sep);
    assert all[k..k + 1] == [all[k]];
  }

  /** With or without kept separators, overlap and trimming: every chunk is a part of the text. */
  lemma {:induction false} ChunksOccur(
    depth: nat, c: Config, text: string, separators: seq<string>, chunks: seq<string>
  )
    requires Rejoins(c) && separators != [] && SplitWithin(depth, c, text, separators, chunks).Some?
    ensures NewOccur(text, chunks, SplitWithin(depth, c, text, separators, chunks).value.chunks)
    decreases depth, 0
  {
    var ch := Chosen(text, separators, 0);
    var all := c.split(text, ch.sep);
    assert Joined(all, MergingSep(c, ch.sep)) == text by {
      if c.o.keepSeparator {
        JoinedEmpty(all);
      }
    }
    assert all[0..] == all && all[0..0] == [];
    PiecesOccur(depth, c, all, 0, 0, MergingSep(c, ch.sep), ch.rest, chunks, chunks);
  }

  lemma {:induction false} PiecesOccur(
    depth: nat, c: Config, all: seq<string>, g: nat, k: nat, sep: string, seps: seq<string>, before: seq<string>,
    chunks: seq<string>
  )
    requires Rejoins(c) && depth > 0 && g <= k <= |all| && NewOccur(Joined(all, sep), before, chunks)
    requires PiecesWithin(depth, c, all[k..], sep, seps, all[g..k], chunks).Some?
    ensures var r := PiecesWithin(depth, c, all[k..], sep, seps, all[g..k], chunks).value;
      NewOccur(Joined(all, sep), before, r.chunks)
    decreases depth - 1, |all| - k + 1
  {
    FlushedOccurs(c.o, all, g, k, sep, before, chunks);
    if k < |all| {
      var text, piece, flushed := Joined(all, sep), all[k], Flushed(c.o, all[g..k], sep, chunks);
      assert all[k..][0] == piece && all[k..][1..] == all[k + 1..] && all[k + 1..k + 1] == [];
      SliceNext(all, g, k);
      PieceOccurs(all, k, sep);
      if |piece| < c.o.chunkSize {
        PiecesOccur(depth, c, all, g, k + 1, sep, seps, before, chunks);
      } else if seps == [] {
        NewAppend(text, before, flushed, [piece]);
        PiecesOccur(depth, c, all, k + 1, k + 1, sep, [], before, flushed + [piece]);
      } else {
        ChunksOccur(depth - 1, c, piece, seps, flushed);
        var r := SplitWithin(depth - 1, c, piece, seps, flushed).value;
        NewWider(text, piece, before, flushed, r.chunks);
        PiecesOccur(depth, c, all, k + 1, k + 1, sep, r.seps, before, r.chunks);
      }
    }
  }
}

/** Cutting a stream that arrives in arbitrary chunks into lines. */
module LineFraming {
  import opened Sequences
  import opened Strings

  /** `i` is the leftmost occurrence. */
  ghost predicate First(data: string, brk: string, i: int) {
    OccursAt(data, brk, i) && forall j | 0 <= j < i :: !OccursAt(data, brk, j)
  }

  /** `std::string::find`: the leftmost occurrence, or -1. */
  method Find(data: string, brk: string) returns (i: int)
    ensures i >= 0 ==> First(data, brk, i)
    ensures i < 0 ==> !Contains(data, brk)
  {
    i := 0;
    while i <= |data| - |brk|
      invariant 0 <= i && forall j | 0 <= j < i :: !OccursAt(data, brk, j)
    {
      if OccursAt(data, brk, i) {
        return;
      }
      i := i + 1;
    }
    i := -1;
  }

  /** The leftmost occurrence at or after `from`, or -1. */
  function Index(data: string, brk: string, from: nat): (i: int)
    ensures -1 <= i && i + |brk| <= |data| + if i < 0 then |brk| else 0
    decreases |data| - from
  {
    if from + |brk| > |data| then -1 else if OccursAt(data, brk, from) then from else Index(data, brk, from + 1)
  }

  lemma {:induction false} IndexIsFirst(data: string, brk: string, from: nat)
    ensures var i := Index(data, brk, from);
      && (i >= 0 ==> i >= from && OccursAt(data, brk, i) && forall j | from <= j < i :: !OccursAt(data, brk, j))
      && (i < 0 ==> forall j | from <= j :: !OccursAt(data, brk, j))
    decreases |data| - from
  {
    if from + |brk| <= |data| && !OccursAt(data, brk, from) {
      IndexIsFirst(data, brk, from + 1);
    }
  }

  datatype Framed = Framed(lines: seq<string>, rest: string)

  /** The complete lines of `data` and what is left behind the last of them. */
  function Frame(data: string, brk: string): Framed
    requires brk != ""
    decreases |data|
  {
    var i := Index(data, brk, 0);
    if i < 0 then Framed([], data)
    else
      Push(data[..i], Frame(data[i + |brk|..], brk))
  }

  function Push(line: string, f: Framed): Framed {
    Framed([line] + f.lines, f.rest)
  }

  /** The lines of one framing followed by those of another. */
  function Append(lines: seq<string>, f: Framed): Framed {
    Framed(lines + f.lines, f.rest)
  }

  lemma AppendPush(lines: seq<string>, line: string, f: Framed)
    ensures Append(lines, Push(line, f)) == Append(lines + [line], f)
  {
    assert lines + ([line] + f.lines) == lines + [line] + f.lines;
  }

  lemma PushAppend(line: string, lines: seq<string>, f: Framed)
    ensures Push(line, Append(lines, f)) == Append([line] + lines, f)
  {
    assert [line] + (lines + f.lines) == [line] + lines + f.lines;
  }

  lemma FirstIsIndex(data: string, brk: string, i: int)
    requires First(data, brk, i)
    ensures Index(data, brk, 0) == i
  {
    IndexIsFirst(data, brk, 0);
  }

  lemma FoundIsIndex(data: string, brk: string, i: int)
    requires (i >= 0 ==> First(data, brk, i)) && (i < 0 ==> !Contains(data, brk))
    ensures Index(data, brk, 0) == if i < 0 then -1 else i
  {
    IndexIsFirst(data, brk, 0);
  }

  /** More data behind does not move the first line end. */
  lemma IndexExtends(a: string, b: string, brk: string)
    requires Index(a, brk, 0) >= 0
    ensures Index(a + b, brk, 0) == Index(a, brk, 0)
  {
    var i := Index(a, brk, 0);
    IndexIsFirst(a, brk, 0);
    assert (a + b)[i..i + |brk|] == a[i..i + |brk|];
    forall j | 0 <= j < i ensures !OccursAt(a + b, brk, j) {
      assert !OccursAt(a, brk, j);
      assert (a + b)[j..j + |brk|] == a[j..j + |brk|];
    }
    FirstIsIndex(a + b, brk, i);
  }

  /** Framing `a` and then what is left with `b` behind it is framing the whole. */
  lemma {:induction false} FrameExtends(a: string, b: string, brk: string)
    requires brk != ""
    ensures Frame(a + b, brk) == Append(Frame(a, brk).lines, Frame(Frame(a, brk).rest + b, brk))
    decreases |a|
  {
    var i := Index(a, brk, 0);
    if i >= 0 {
      var line, tail := a[..i], a[i + |brk|..];
      assert |tail| < |a|;
      assert Frame(a, brk) == Push(line, Frame(tail, brk)) by { FrameStep(a, brk, line, tail); }
      assert Frame(a + b, brk) == Push(line, Frame(tail + b, brk)) by {
        IndexExtends(a, b, brk);
        SliceExtends(a, b, i, i + |brk|);
        FrameStep(a + b, brk, line, tail + b);
      }
      FrameExtends(tail, b, brk);
      PushAppend(line, Frame(tail, brk).lines, Frame(Frame(tail, brk).rest + b, brk));
    } else {
      assert Append([], Frame(a + b, brk)) == Frame(a + b, brk);
    }
  }

  lemma SliceExtends(a: string, b: string, i: nat, j: nat)
    requires i <= j <= |a|
    ensures (a + b)[..i] == a[..i] && (a + b)[j..] == a[j..] + b
  {
  }

  /** The first line is cut off and the tail framed. */
  lemma FrameStep(data: string, brk: string, line: string, tail: string)
    requires brk != "" && Index(data, brk, 0) >= 0
    requires line == data[..Index(data, brk, 0)] && tail == data[Index(data, brk, 0) + |brk|..]
    ensures |tail| < |data|
    ensures Frame(data, brk) == Push(line, Frame(tail, brk))
  {
  }

  lemma LineIsClean(data: string, brk: string, i: nat)
    requires brk != "" && i == Index(data, brk, 0)
    ensures !Contains(data[..i], brk)
  {
    IndexIsFirst(data, brk, 0);
    forall j | 0 <= j <= i - |brk| ensures !OccursAt(data[..i], brk, j) {
      assert !OccursAt(data, brk, j);
      assert data[..i][j..j + |brk|] == data[j..j + |brk|];
    }
  }

  /** No line and no rest contains the breaker. */
  lemma {:induction false} FramesAreClean(data: string, brk: string)
    requires brk != ""
    ensures forall k | 0 <= k < |Frame(data, brk).lines| :: !Contains(Frame(data, brk).lines[k], brk)
    ensures !Contains(Frame(data, brk).rest, brk)
    decreases |data|
  {
    var i := Index(data, brk, 0);
    if i >= 0 {
      FramesAreClean(data[i + |brk|..], brk);
      LineIsClean(data, brk, i);
    } else {
      IndexIsFirst(data, brk, 0);
    }
  }

  function Rejoin(lines: seq<string>, brk: string, rest: string): string {
    if lines == [] then rest else lines[0] + brk + Rejoin(lines[1..], brk, rest)
  }

  lemma RejoinCons(line: string, lines: seq<string>, brk: string, rest: string)
    ensures Rejoin([line] + lines, brk, rest) == line + brk + Rejoin(lines, brk, rest)
  {
    assert ([line] + lines)[1..] == lines;
  }

  /** Nothing is lost: lines, breakers and rest give back the data. */
  lemma {:induction false} FrameRejoins(data: string, brk: string)
    requires brk != ""
    ensures Rejoin(Frame(data, brk).lines, brk, Frame(data, brk).rest) == data
    decreases |data|
  {
    var i := Index(data, brk, 0);
    if i >= 0 {
      var tail := Frame(data[i + |brk|..], brk);
      FrameRejoins(data[i + |brk|..], brk);
      RejoinCons(data[..i], tail.lines, brk, tail.rest);
      IndexIsFirst(data, brk, 0);
      assert data == data[..i] + data[i..i + |brk|] + data[i + |brk|..];
    }
  }

  /** The buffer behind the write callback; `emitted` is what the observer has received. */
  class StreamBuffer {
    const brk: string
    var data: string
    var emitted: seq<string>

    constructor (lineBreaker: string)
      ensures brk == lineBreaker && data == "" && emitted == []
    {
      brk, data, emitted := lineBreaker, "", [];
    }

    /** The write callback: an empty line breaker would never let its loop end. */
    method Write(chunk: string) returns (taken: nat)
      requires brk != ""
      modifies this
      ensures taken == |chunk|
      ensures var framed := Frame(old(data) + chunk, brk);
              emitted == old(emitted) + framed.lines && data == framed.rest
    {
      data := data + chunk;
      ghost var all, left := Append(emitted, Frame(data, brk)), Frame(data, brk);
      while true
        invariant left == Frame(data, brk) && Append(emitted, left) == all
        decreases |data|
      {
        var idx := Find(data, brk);
        FoundIsIndex(data, brk, idx);
        if idx < 0 {
          break;
        }
        FrameStep(data, brk, data[..idx], data[idx + |brk|..]);
        AppendPush(emitted, data[..idx], Frame(data[idx + |brk|..], brk));
        emitted := emitted + [data[..idx]];
        data := data[idx + |brk|..];
        left := Frame(data, brk);
      }
      taken := |chunk|;
    }

    /** The end of the stream: a rest that is not blank is emitted as a last line. */
    method Finish(isSpace: char -> bool)
      modifies `emitted
      ensures emitted == old(emitted) + if forall i | 0 <= i < |data| :: isSpace(data[i]) then [] else [data]
    {
      if exists i | 0 <= i < |data| :: !isSpace(data[i]) {
        emitted := emitted + [data];
      }
    }
  }

  /** However the bytes were cut into chunks, the buffer ends up as one framing of all of them. */
  method Receive(chunks: seq<string>, brk: string) returns (lines: seq<string>, rest: string)
    requires brk != ""
    ensures Framed(lines, rest) == Frame(Flatten(chunks), brk)
  {
    var buffer := new StreamBuffer(brk);
    ghost var seen := "";
    assert Frame("", brk) == Framed([], "");
    for k := 0 to |chunks|
      invariant buffer.brk == brk && fresh(buffer)
      invariant seen == Flatten(chunks[..k])
      invariant Framed(buffer.emitted, buffer.data) == Frame(seen, brk)
    {
      FrameExtends(seen, chunks[k], brk);
      FlattenNext(chunks, k);
      var _ := buffer.Write(chunks[k]);
      seen := seen + chunks[k];
    }
    assert chunks[..|chunks|] == chunks;
    lines, rest := buffer.emitted, buffer.data;
  }
}

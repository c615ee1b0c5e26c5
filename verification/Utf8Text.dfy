/** The character cut of the unigram tokenizer on encoded text: it cuts at the code points. */
module Utf8Text {
  import opened ByteStrings
  import opened Sequences
  import opened UnigramTokenizer

  type CodePoint = c: int | 0 <= c < 0x11_0000

  /** The encoding of a code point in UTF-8 (section 3 of RFC 3629). */
  function Encode(c: CodePoint): (r: Bytes)
    ensures 1 <= |r| <= 4
  {
    if c < 0x80 then [c]
    else if c < 0x800 then [0xC0 + c / 0x40, 0x80 + c % 0x40]
    else if c < 0x1_0000 then [0xE0 + c / 0x1000, 0x80 + c / 0x40 % 0x40, 0x80 + c % 0x40]
    else [0xF0 + c / 0x4_0000, 0x80 + c / 0x1000 % 0x40, 0x80 + c / 0x40 % 0x40, 0x80 + c % 0x40]
  }

  function Encodings(cs: seq<CodePoint>): (r: seq<Bytes>)
    ensures |r| == |cs| && forall i | 0 <= i < |r| :: r[i] == Encode(cs[i])
  {
    seq(|cs|, i requires 0 <= i < |cs| => Encode(cs[i]))
  }

  /** The text of a list of code points. */
  function Utf8(cs: seq<CodePoint>): Bytes {
    Flatten(Encodings(cs))
  }

  /** The first byte of an encoded code point tells how long its encoding is. */
  lemma FirstByteTells(c: CodePoint)
    ensures Utf8Len(Encode(c)[0]) == |Encode(c)|
  {
  }

  lemma Utf8Split(cs: seq<CodePoint>, k: nat)
    requires k < |cs|
    ensures Utf8(cs) == Utf8(cs[..k]) + Encode(cs[k]) + Utf8(cs[k + 1..])
    ensures Utf8(cs[..k + 1]) == Utf8(cs[..k]) + Encode(cs[k])
  {
    var parts := Encodings(cs);
    assert Encodings(cs[..k]) == parts[..k] && Encodings(cs[..k + 1]) == parts[..k + 1];
    assert Encodings(cs[k + 1..]) == parts[k + 1..];
    FlattenNext(parts, k);
    assert parts == parts[..k + 1] + parts[k + 1..];
    FlattenAppend(parts[..k + 1], parts[k + 1..]);
  }

  /** Behind the first `k` code points the next one ends behind its encoding. */
  lemma NextCodePoint(cs: seq<CodePoint>, k: nat)
    requires k < |cs|
    ensures |Utf8(cs[..k])| < |Utf8(cs)|
    ensures NextEnd(Utf8(cs), |Utf8(cs[..k])|) == |Utf8(cs[..k + 1])|
    ensures |Utf8(cs[..k + 1])| <= |Utf8(cs)|
    ensures Utf8(cs)[|Utf8(cs[..k])|..|Utf8(cs[..k + 1])|] == Encode(cs[k])
  {
    var before, e, after := Utf8(cs[..k]), Encode(cs[k]), Utf8(cs[k + 1..]);
    Utf8Split(cs, k);
    assert (before + e + after)[|before|..|before| + |e|] == e;
    assert Utf8(cs)[|before|] == e[0];
    FirstByteTells(cs[k]);
  }

  /** A cut of encoded text meets the end of every code point. */
  lemma {:induction false} CutMeets(cs: seq<CodePoint>, ends: seq<nat>, k: nat)
    requires Cut(Utf8(cs), ends) && k <= |cs|
    ensures k < |ends| && ends[k] == |Utf8(cs[..k])|
  {
    if k == 0 {
      assert cs[..0] == [];
    } else {
      CutMeets(cs, ends, k - 1);
      NextCodePoint(cs, k - 1);
      assert ends[k - 1] < ends[|ends| - 1];
      assert CutAt(Utf8(cs), ends, k);
    }
  }

  /** The `k`-th piece of a cut is `e`. */
  predicate PieceIs(text: Bytes, ends: seq<nat>, k: nat, e: Bytes) {
    k + 1 < |ends| && ends[k] <= ends[k + 1] <= |text| && text[ends[k]..ends[k + 1]] == e
  }

  /** For every list of code points: the cut of its encoding has one end per code point, behind a leading 0,
      and the k-th piece is the encoding of the k-th code point. */
  lemma CutIsCodePoints(cs: seq<CodePoint>, ends: seq<nat>)
    requires Cut(Utf8(cs), ends)
    ensures |ends| == |cs| + 1
    ensures forall k | 0 <= k < |cs| :: PieceIs(Utf8(cs), ends, k, Encode(cs[k]))
  {
    CutMeets(cs, ends, |cs|);
    assert cs[..|cs|] == cs;
    assert |cs| + 1 < |ends| ==> CutAt(Utf8(cs), ends, |cs| + 1);
    forall k | 0 <= k < |cs| ensures PieceIs(Utf8(cs), ends, k, Encode(cs[k])) {
      CutMeets(cs, ends, k);
      CutMeets(cs, ends, k + 1);
      NextCodePoint(cs, k);
    }
  }
}

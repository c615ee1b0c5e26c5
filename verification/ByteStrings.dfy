/** Raw bytes, as the tokenizers and the readers see text, and the integers stored in them. */
module ByteStrings {
  type Byte = b: int | 0 <= b < 256

  type Bytes = seq<Byte>

  /** A 32-bit integer, least significant byte first, in two's complement. */
  function Int32(b: Bytes): (n: int)
    requires |b| == 4
    ensures IsInt32(n)
  {
    var u := b[0] as int + 0x100 * b[1] as int + 0x1_0000 * b[2] as int + 0x100_0000 * b[3] as int;
    if u < 0x8000_0000 then u else u - 0x1_0000_0000
  }

  predicate IsInt32(n: int) {
    -0x8000_0000 <= n < 0x8000_0000
  }

  lemma Int32Exists(n: int)
    requires IsInt32(n)
    ensures exists b: Bytes :: |b| == 4 && Int32(b) == n
  {
    var u := if n < 0 then n + 0x1_0000_0000 else n;
    var b: Bytes := [u % 0x100, u / 0x100 % 0x100, u / 0x1_0000 % 0x100, u / 0x100_0000];
    assert u / 0x100 / 0x100 == u / 0x1_0000 && u / 0x1_0000 / 0x100 == u / 0x100_0000;
    assert Int32(b) == n;
  }

  /** The bytes that hold `n`. */
  ghost function Int32Bytes(n: int): (b: Bytes)
    requires IsInt32(n)
    ensures |b| == 4 && Int32(b) == n
  {
    Int32Exists(n);
    var b: Bytes :| |b| == 4 && Int32(b) == n;
    b
  }

  predicate Inside(data: Bytes, pos: int, n: int) {
    0 <= pos && 0 <= n && pos + n <= |data|
  }

  /** What is read of a buffer or a mapped file: its size, the 32-bit integer at an offset and the bytes of
      a stretch. */
  datatype File = File(size: nat, ints: int -> int, text: (int, int) -> Bytes)

  /** Reading outside the data gives nothing. */
  function FileOf(data: Bytes): File {
    File(
      |data|,
      pos => if Inside(data, pos, 4) then Int32(data[pos..pos + 4]) else 0,
      (pos, n) => if Inside(data, pos, n) then data[pos..pos + n] else [])
  }

  /** The bytes `b` stand at an offset of the data. */
  ghost predicate Stands(data: Bytes, pos: int, b: Bytes) {
    Inside(data, pos, |b|) && forall i | 0 <= i < |b| :: data[pos + i] == b[i]
  }

  lemma StandsSplit(data: Bytes, pos: int, a: Bytes, b: Bytes)
    requires Stands(data, pos, a + b)
    ensures Stands(data, pos, a) && Stands(data, pos + |a|, b)
  {
    forall i | 0 <= i < |a| ensures data[pos + i] == a[i] {
      assert (a + b)[i] == a[i];
    }
    forall i | 0 <= i < |b| ensures data[pos + |a| + i] == b[i] {
      assert (a + b)[|a| + i] == b[i];
    }
  }

  lemma IntStands(data: Bytes, pos: int, n: int)
    requires IsInt32(n) && Stands(data, pos, Int32Bytes(n))
    ensures FileOf(data).ints(pos) == n
  {
    assert data[pos..pos + 4] == Int32Bytes(n);
  }

  lemma TextStands(data: Bytes, pos: int, b: Bytes)
    requires Stands(data, pos, b)
    ensures FileOf(data).text(pos, |b|) == b
  {
    assert data[pos..pos + |b|] == b;
  }
}

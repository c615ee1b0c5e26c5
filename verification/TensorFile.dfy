/** The tensor section of a model file: the index built over it and lookups through the index. */
module TensorFile {
  import opened ByteStrings
  import opened Wrappers

  /** Bytes a tensor of a type and shape takes. */
  type SizeOf = (int, seq<int>) -> nat

  // ----- reading one record

  /** The next multiple of 16, as the mask computes it. */
  function Align(pos: int): (r: int)
    ensures r % 16 == 0 && pos <= r < pos + 16
  {
    (pos + 15) / 16 * 16
  }

  /** Shape, type, place of the data and place behind it. */
  datatype Shape = Shape(dims: seq<int>, dtype: int, offset: int, next: int)

  /** The sizes are stored last dimension first. */
  function ReadDims(f: File, pos: int, n: nat): (r: seq<int>)
    ensures |r| == n
    decreases n
  {
    if n == 0 then [] else ReadDims(f, pos + 4, n - 1) + [f.ints(pos)]
  }

  /** What is read at the place behind a name; none where the source reads outside the file or the shape array. */
  function ShapeAt(f: File, pos: int, size: SizeOf): (r: Option<Shape>)
    ensures r.Some? ==> 0 <= pos < r.value.offset <= r.value.next
  {
    if !(0 <= pos <= f.size - 4) then None
    else
      var ndim := f.ints(pos);
      var n := if ndim < 0 then 0 else ndim;
      if n > 4 || pos + 8 + 4 * n > f.size then None
      else
        var dims, dtype := ReadDims(f, pos + 4, n), f.ints(pos + 4 + 4 * n);
        var offset := Align(pos + 8 + 4 * n);
        Some(Shape(dims, dtype, offset, offset + size(dtype, dims)))
  }

  function NameAt(f: File, pos: int): Option<Bytes> {
    if !(0 <= pos <= f.size - 4) || f.ints(pos) < 0 || pos + 4 + f.ints(pos) > f.size then None
    else Some(f.text(pos + 4, f.ints(pos)))
  }

  datatype Entry = Entry(name: Bytes, at: int, shape: Shape)

  function EntryAt(f: File, pos: int, size: SizeOf): (r: Option<Entry>)
    ensures r.Some? ==> 0 <= pos < r.value.at < r.value.shape.offset <= r.value.shape.next
  {
    var name := NameAt(f, pos);
    if name.None? then None
    else
      var at := pos + 4 + f.ints(pos);
      var shape := ShapeAt(f, at, size);
      if shape.None? then None else Some(Entry(name.value, at, shape.value))
  }

  /** The sequential scan of the section. */
  function Scan(f: File, pos: int, size: SizeOf): Option<seq<Entry>>
    decreases f.size - pos
  {
    if pos >= f.size then Some([])
    else
      var e := EntryAt(f, pos, size);
      if e.None? then None
      else
        var rest := Scan(f, e.value.shape.next, size);
        if rest.None? then None else Some([e.value] + rest.value)
  }

  function EndOf(entries: seq<Entry>, start: int): int {
    if entries == [] then start else entries[|entries| - 1].shape.next
  }

  lemma EndOfCons(e: Entry, rest: seq<Entry>, pos: int)
    ensures EndOf([e] + rest, pos) == EndOf(rest, e.shape.next)
  {
  }

  // ----- the index

  /** `emplace`: the first record of a name stays. */
  function Emplace(dict: map<Bytes, int>, e: Entry): map<Bytes, int> {
    if e.name in dict then dict else dict[e.name := e.at]
  }

  function Indexed(dict: map<Bytes, int>, entries: seq<Entry>): map<Bytes, int>
    decreases |entries|
  {
    if entries == [] then dict else Indexed(Emplace(dict, entries[0]), entries[1..])
  }

  lemma IndexedCons(dict: map<Bytes, int>, e: Entry, rest: seq<Entry>)
    ensures Indexed(dict, [e] + rest) == Indexed(Emplace(dict, e), rest)
  {
    assert ([e] + rest)[1..] == rest;
  }

  ghost predicate FirstOf(entries: seq<Entry>, i: int) {
    0 <= i < |entries| && forall j | 0 <= j < i :: entries[j].name != entries[i].name
  }

  /** Each name is indexed at its first record, and nothing else is. */
  lemma {:induction false} IndexIsFirst(dict: map<Bytes, int>, entries: seq<Entry>, name: Bytes)
    ensures var r := Indexed(dict, entries);
      && (name in dict ==> name in r && r[name] == dict[name])
      && (name !in dict ==> (name in r <==> exists i :: 0 <= i < |entries| && entries[i].name == name))
      && (name !in dict ==>
            forall i | FirstOf(entries, i) && entries[i].name == name :: name in r && r[name] == entries[i].at)
    decreases |entries|
  {
    if entries != [] {
      var rest := entries[1..];
      IndexIsFirst(Emplace(dict, entries[0]), rest, name);
      assert entries == [entries[0]] + rest;
      assert forall i | 1 <= i < |entries| :: entries[i] == rest[i - 1];
      forall i | FirstOf(entries, i) && i > 0 ensures FirstOf(rest, i - 1) {
        assert forall j | 0 <= j < i - 1 :: rest[j] == entries[j + 1];
      }
    }
  }

  // ----- well-formed sections

  datatype Tensor = Tensor(name: Bytes, dims: seq<int>, dtype: int)

  function ShapeOf(t: Tensor, at: int, size: SizeOf): Shape {
    var offset := Align(at + 8 + 4 * |t.dims|);
    Shape(t.dims, t.dtype, offset, offset + size(t.dtype, t.dims))
  }

  function EntryOf(t: Tensor, pos: int, size: SizeOf): Entry {
    var at := pos + 4 + |t.name|;
    Entry(t.name, at, ShapeOf(t, at, size))
  }

  ghost predicate DimsHeld(f: File, pos: int, dims: seq<int>) {
    forall k | 0 <= k < |dims| :: f.ints(pos + 4 * (|dims| - 1 - k)) == dims[k]
  }

  /** The record of `t` stands at `pos`: lengths, name, sizes from the last dimension to the first, type. */
  ghost predicate RecordHeld(f: File, pos: int, t: Tensor) {
    var at := pos + 4 + |t.name|;
    && 0 <= pos && |t.dims| <= 4
    && f.ints(pos) == |t.name| && f.text(pos + 4, |t.name|) == t.name
    && f.ints(at) == |t.dims| && DimsHeld(f, at + 4, t.dims) && f.ints(at + 4 + 4 * |t.dims|) == t.dtype
  }

  /** From `pos` on the file holds the records of `ts`, each followed by its aligned data, and nothing else. */
  ghost predicate Section(f: File, pos: int, ts: seq<Tensor>, size: SizeOf)
    decreases |ts|
  {
    if ts == [] then pos == f.size
    else
      var next := EntryOf(ts[0], pos, size).shape.next;
      RecordHeld(f, pos, ts[0]) && next <= f.size && Section(f, next, ts[1..], size)
  }

  lemma SectionCons(f: File, pos: int, next: int, ts: seq<Tensor>, size: SizeOf)
    requires ts != [] && RecordHeld(f, pos, ts[0]) && next == EntryOf(ts[0], pos, size).shape.next <= f.size
    requires Section(f, next, ts[1..], size)
    ensures Section(f, pos, ts, size)
  {
  }

  lemma {:induction false} HeldDims(f: File, pos: int, dims: seq<int>)
    requires DimsHeld(f, pos, dims)
    ensures ReadDims(f, pos, |dims|) == dims
    decreases |dims|
  {
    if dims != [] {
      var n := |dims| - 1;
      forall k | 0 <= k < n ensures f.ints(pos + 4 + 4 * (n - 1 - k)) == dims[..n][k] {
        assert f.ints(pos + 4 * (|dims| - 1 - k)) == dims[k];
      }
      HeldDims(f, pos + 4, dims[..n]);
      assert f.ints(pos + 4 * (|dims| - 1 - n)) == dims[n];
      assert dims == dims[..n] + [dims[n]];
    }
  }

  /** A record reads back as it was written. */
  lemma HeldRecord(f: File, pos: int, t: Tensor, size: SizeOf)
    requires RecordHeld(f, pos, t) && EntryOf(t, pos, size).shape.next <= f.size
    ensures EntryAt(f, pos, size) == Some(EntryOf(t, pos, size))
  {
    HeldDims(f, pos + 4 + |t.name| + 4, t.dims);
  }

  function EntriesOf(ts: seq<Tensor>, pos: int, size: SizeOf): (r: seq<Entry>)
    ensures |r| == |ts|
    decreases |ts|
  {
    if ts == [] then []
    else [EntryOf(ts[0], pos, size)] + EntriesOf(ts[1..], EntryOf(ts[0], pos, size).shape.next, size)
  }

  /** Scanning a section finds exactly its records and ends exactly at the file's end. */
  lemma {:induction false} SectionScans(f: File, pos: int, ts: seq<Tensor>, size: SizeOf)
    requires Section(f, pos, ts, size)
    ensures Scan(f, pos, size) == Some(EntriesOf(ts, pos, size)) && EndOf(EntriesOf(ts, pos, size), pos) == f.size
    decreases |ts|
  {
    if ts != [] {
      var e := EntryOf(ts[0], pos, size);
      HeldRecord(f, pos, ts[0], size);
      SectionScans(f, e.shape.next, ts[1..], size);
      EndOfCons(e, EntriesOf(ts[1..], e.shape.next, size), pos);
    }
  }

  lemma {:induction false} EntryInFile(f: File, pos: int, ts: seq<Tensor>, size: SizeOf, i: nat)
    requires Section(f, pos, ts, size) && i < |ts|
    ensures var e := EntriesOf(ts, pos, size)[i];
      && e.name == ts[i].name && e.shape.dims == ts[i].dims && e.shape.dtype == ts[i].dtype
      && ShapeAt(f, e.at, size) == Some(e.shape)
      && pos < e.shape.offset <= e.shape.next <= f.size && e.shape.offset % 16 == 0
    decreases |ts|
  {
    var first := EntryOf(ts[0], pos, size);
    assert EntryAt(f, pos, size) == Some(first) by { HeldRecord(f, pos, ts[0], size); }
    if i > 0 {
      EntryInFile(f, first.shape.next, ts[1..], size, i - 1);
    }
  }

  /** Data regions come one after the other: no two share a byte. */
  lemma {:induction false} RegionsDisjoint(f: File, pos: int, ts: seq<Tensor>, size: SizeOf, i: nat, j: nat)
    requires Section(f, pos, ts, size) && i < j < |ts|
    ensures EntriesOf(ts, pos, size)[i].shape.next < EntriesOf(ts, pos, size)[j].shape.offset
    decreases |ts|
  {
    var next := EntryOf(ts[0], pos, size).shape.next;
    if i > 0 {
      RegionsDisjoint(f, next, ts[1..], size, i - 1, j - 1);
    } else {
      EntryInFile(f, next, ts[1..], size, j - 1);
    }
  }

  /** Looking a name up through the index finds the shape, type and data offset the sequential scan found
      for the first record of that name. */
  lemma IndexFindsTensor(f: File, pos: int, ts: seq<Tensor>, size: SizeOf, i: nat)
    requires Section(f, pos, ts, size) && FirstOf(EntriesOf(ts, pos, size), i)
    ensures var entries, dict := EntriesOf(ts, pos, size), Indexed(map[], EntriesOf(ts, pos, size));
      && ts[i].name in dict && ShapeAt(f, dict[ts[i].name], size) == Some(entries[i].shape)
      && entries[i].shape.dims == ts[i].dims && entries[i].shape.dtype == ts[i].dtype
  {
    EntryInFile(f, pos, ts, size, i);
    IndexIsFirst(map[], EntriesOf(ts, pos, size), ts[i].name);
  }

  // ----- writing a section

  /** The sizes, last dimension first. */
  ghost function DimBytes(dims: seq<int>): (b: Bytes)
    requires forall i | 0 <= i < |dims| :: IsInt32(dims[i])
    ensures |b| == 4 * |dims|
  {
    if dims == [] then [] else Int32Bytes(dims[|dims| - 1]) + DimBytes(dims[..|dims| - 1])
  }

  predicate Writable(t: Tensor) {
    && |t.dims| <= 4 && IsInt32(|t.name|) && IsInt32(t.dtype)
    && forall i | 0 <= i < |t.dims| :: IsInt32(t.dims[i])
  }

  ghost function HeaderBytes(t: Tensor): (b: Bytes)
    requires Writable(t)
    ensures |b| == 12 + |t.name| + 4 * |t.dims|
  {
    Int32Bytes(|t.name|) + t.name + Int32Bytes(|t.dims|) + DimBytes(t.dims) + Int32Bytes(t.dtype)
  }

  function Zeros(n: nat): (b: Bytes)
    ensures |b| == n
  {
    seq(n, _ => 0)
  }

  /** Tensors that can be written, with data of the right size. */
  ghost predicate Prepared(ts: seq<Tensor>, payloads: seq<Bytes>, size: SizeOf)
    decreases |ts|
  {
    && |payloads| == |ts|
    && (ts != [] ==>
          && Writable(ts[0]) && |payloads[0]| == size(ts[0].dtype, ts[0].dims)
          && Prepared(ts[1..], payloads[1..], size))
  }

  /** Tensors and their data, written at `pos`: each header, zeros up to the next multiple of 16, the data. */
  ghost function SectionBytes(ts: seq<Tensor>, payloads: seq<Bytes>, pos: nat, size: SizeOf): Bytes
    requires Prepared(ts, payloads, size)
    decreases |ts|
  {
    if ts == [] then []
    else
      var record := RecordBytes(ts[0], payloads[0], pos);
      record + SectionBytes(ts[1..], payloads[1..], pos + |record|, size)
  }

  lemma LastDimStands(data: Bytes, pos: int, dims: seq<int>)
    requires dims != [] && forall i | 0 <= i < |dims| :: IsInt32(dims[i])
    requires Stands(data, pos, DimBytes(dims))
    ensures FileOf(data).ints(pos) == dims[|dims| - 1] && Stands(data, pos + 4, DimBytes(dims[..|dims| - 1]))
  {
    StandsSplit(data, pos, Int32Bytes(dims[|dims| - 1]), DimBytes(dims[..|dims| - 1]));
    IntStands(data, pos, dims[|dims| - 1]);
  }

  lemma {:induction false} DimsStand(data: Bytes, pos: int, dims: seq<int>)
    requires forall i | 0 <= i < |dims| :: IsInt32(dims[i])
    requires Stands(data, pos, DimBytes(dims))
    ensures DimsHeld(FileOf(data), pos, dims)
    decreases |dims|
  {
    if dims != [] {
      var n := |dims| - 1;
      var f, front := FileOf(data), dims[..n];
      LastDimStands(data, pos, dims);
      DimsStand(data, pos + 4, front);
      forall k | 0 <= k < |dims| ensures f.ints(pos + 4 * (|dims| - 1 - k)) == dims[k] {
        if k < n {
          assert f.ints(pos + 4 + 4 * (|front| - 1 - k)) == front[k];
        }
      }
    }
  }

  lemma PartsStand(data: Bytes, pos: int, a: Bytes, b: Bytes, c: Bytes, d: Bytes, e: Bytes)
    requires Stands(data, pos, a + b + c + d + e)
    ensures Stands(data, pos, a) && Stands(data, pos + |a|, b) && Stands(data, pos + |a| + |b|, c)
    ensures Stands(data, pos + |a| + |b| + |c|, d) && Stands(data, pos + |a| + |b| + |c| + |d|, e)
  {
    StandsSplit(data, pos, a + b + c + d, e);
    StandsSplit(data, pos, a + b + c, d);
    StandsSplit(data, pos, a + b, c);
    StandsSplit(data, pos, a, b);
  }

  /** The five parts of a header. */
  lemma HeaderParts(data: Bytes, pos: int, t: Tensor)
    requires Writable(t) && Stands(data, pos, HeaderBytes(t))
    ensures Stands(data, pos, Int32Bytes(|t.name|)) && Stands(data, pos + 4, t.name)
    ensures Stands(data, pos + 4 + |t.name|, Int32Bytes(|t.dims|))
    ensures Stands(data, pos + 8 + |t.name|, DimBytes(t.dims))
    ensures Stands(data, pos + 8 + |t.name| + 4 * |t.dims|, Int32Bytes(t.dtype))
  {
    PartsStand(data, pos, Int32Bytes(|t.name|), t.name, Int32Bytes(|t.dims|), DimBytes(t.dims), Int32Bytes(t.dtype));
  }

  lemma NameStands(data: Bytes, pos: int, t: Tensor)
    requires Writable(t) && Stands(data, pos, HeaderBytes(t))
    ensures FileOf(data).ints(pos) == |t.name| && FileOf(data).text(pos + 4, |t.name|) == t.name
  {
    HeaderParts(data, pos, t);
    IntStands(data, pos, |t.name|);
    TextStands(data, pos + 4, t.name);
  }

  lemma TypeStands(data: Bytes, pos: int, t: Tensor)
    requires Writable(t) && Stands(data, pos, HeaderBytes(t))
    ensures FileOf(data).ints(pos + 4 + |t.name|) == |t.dims|
    ensures FileOf(data).ints(pos + 8 + |t.name| + 4 * |t.dims|) == t.dtype
  {
    HeaderParts(data, pos, t);
    IntStands(data, pos + 4 + |t.name|, |t.dims|);
    IntStands(data, pos + 8 + |t.name| + 4 * |t.dims|, t.dtype);
  }

  lemma HeaderStands(data: Bytes, pos: int, t: Tensor)
    requires Writable(t) && Stands(data, pos, HeaderBytes(t))
    ensures RecordHeld(FileOf(data), pos, t)
  {
    assert DimsHeld(FileOf(data), pos + 8 + |t.name|, t.dims) by {
      HeaderParts(data, pos, t);
      DimsStand(data, pos + 8 + |t.name|, t.dims);
    }
    NameStands(data, pos, t);
    TypeStands(data, pos, t);
  }

  ghost function RecordBytes(t: Tensor, payload: Bytes, pos: nat): Bytes
    requires Writable(t)
  {
    var end := pos + |HeaderBytes(t)|;
    HeaderBytes(t) + Zeros(Align(end) - end) + payload
  }

  lemma RecordStands(data: Bytes, pos: nat, t: Tensor, payload: Bytes, size: SizeOf)
    requires Writable(t) && Stands(data, pos, RecordBytes(t, payload, pos)) && |payload| == size(t.dtype, t.dims)
    ensures RecordHeld(FileOf(data), pos, t)
    ensures EntryOf(t, pos, size).shape.next == pos + |RecordBytes(t, payload, pos)| <= |data|
  {
    var end := pos + |HeaderBytes(t)|;
    StandsSplit(data, pos, HeaderBytes(t) + Zeros(Align(end) - end), payload);
    StandsSplit(data, pos, HeaderBytes(t), Zeros(Align(end) - end));
    HeaderStands(data, pos, t);
  }

  lemma FirstStands(data: Bytes, pos: nat, ts: seq<Tensor>, payloads: seq<Bytes>, size: SizeOf)
    requires ts != [] && Prepared(ts, payloads, size) && Stands(data, pos, SectionBytes(ts, payloads, pos, size))
    ensures var next := pos + |RecordBytes(ts[0], payloads[0], pos)|;
      && RecordHeld(FileOf(data), pos, ts[0]) && EntryOf(ts[0], pos, size).shape.next == next <= |data|
      && Stands(data, next, SectionBytes(ts[1..], payloads[1..], next, size))
      && pos + |SectionBytes(ts, payloads, pos, size)| == next + |SectionBytes(ts[1..], payloads[1..], next, size)|
  {
    var record := RecordBytes(ts[0], payloads[0], pos);
    StandsSplit(data, pos, record, SectionBytes(ts[1..], payloads[1..], pos + |record|, size));
    RecordStands(data, pos, ts[0], payloads[0], size);
  }

  /** Written bytes are a well-formed section, so scanning them finds exactly the tensors written. */
  lemma {:induction false} WrittenIsSection(
    data: Bytes, pos: nat, ts: seq<Tensor>, payloads: seq<Bytes>, size: SizeOf
  )
    requires Prepared(ts, payloads, size) && Stands(data, pos, SectionBytes(ts, payloads, pos, size))
    requires pos + |SectionBytes(ts, payloads, pos, size)| == |data|
    ensures Section(FileOf(data), pos, ts, size)
    decreases |ts|
  {
    if ts != [] {
      var next := pos + |RecordBytes(ts[0], payloads[0], pos)|;
      FirstStands(data, pos, ts, payloads, size);
      WrittenIsSection(data, next, ts[1..], payloads[1..], size);
      SectionCons(FileOf(data), pos, next, ts, size);
    }
  }

  // ----- the loader

  /** `ggml_n_dims`: trailing sizes of one do not count. */
  function DimCount(ne: seq<int>): nat
    requires |ne| == 4
  {
    if ne[3] > 1 then 4 else if ne[2] > 1 then 3 else if ne[1] > 1 then 2 else 1
  }

  /** The stored shape fits the tensor to be filled; a single column may be stored with two dimensions. */
  predicate Fits(shape: Shape, ne: seq<int>, dtype: int)
    requires |ne| == 4
  {
    && |shape.dims| == (if DimCount(ne) == 1 && |shape.dims| == 2 && ne[1] == 1 then 2 else DimCount(ne))
    && (forall i | 0 <= i < |shape.dims| && i < 4 :: shape.dims[i] == ne[i])
    && shape.dtype == dtype
  }

  /** The sizes of a tensor, with ones up to four dimensions. */
  function Padded(dims: seq<int>): seq<int>
    decreases 4 - |dims|
  {
    if |dims| >= 4 then dims else Padded(dims + [1])
  }

  lemma {:induction false} PaddedAt(dims: seq<int>, i: nat)
    requires |dims| <= 4 && i < 4
    ensures |Padded(dims)| == 4 && Padded(dims)[i] == if i < |dims| then dims[i] else 1
    decreases 4 - |dims|
  {
    if |dims| < 4 {
      PaddedAt(dims + [1], i);
    }
  }

  /** The number of dimensions is the one a tensor of these sizes reports; one column may be stored as two. */
  predicate Standard(dims: seq<int>) {
    1 <= |dims| <= 4 && (|dims| <= 2 || dims[|dims| - 1] > 1)
  }

  /** A stored shape fits a tensor exactly when type and sizes are the same and the number of dimensions is
      the reported one. */
  lemma FitsExactly(shape: Shape, ne: seq<int>, dtype: int)
    requires |ne| == 4 && (forall i | 0 <= i < 4 :: ne[i] >= 1) && |shape.dims| <= 4
    ensures Fits(shape, ne, dtype) <==> shape.dtype == dtype && Padded(shape.dims) == ne && Standard(shape.dims)
  {
    PaddedAt(shape.dims, 0);
    PaddedAt(shape.dims, 1);
    PaddedAt(shape.dims, 2);
    PaddedAt(shape.dims, 3);
  }

  class ModelLoader {
    const file: File
    var ptr: int
    var tensorDict: map<Bytes, int>

    constructor (data: Bytes, start: nat)
      ensures file == FileOf(data) && ptr == start && tensorDict == map[]
    {
      file, ptr, tensorDict := FileOf(data), start, map[];
    }

    /** Scans the section from the cursor on; false where the source would read outside the file. */
    method LoadAllTensors(size: SizeOf) returns (ok: bool)
      requires 0 <= ptr
      modifies this
      ensures ok <==> Scan(file, old(ptr), size).Some?
      ensures ok ==> var entries := Scan(file, old(ptr), size).value;
        tensorDict == Indexed(map[], entries) && ptr == EndOf(entries, old(ptr))
    {
      tensorDict := map[];
      ghost var all, rest := Scan(file, ptr, size), Scan(file, ptr, size);
      while ptr < file.size
        invariant 0 <= ptr && rest == Scan(file, ptr, size) && (all.None? <==> rest.None?)
        invariant all.Some? ==> Indexed(tensorDict, rest.value) == Indexed(map[], all.value)
        invariant all.Some? ==> EndOf(rest.value, ptr) == EndOf(all.value, old(ptr))
        decreases file.size - ptr
      {
        ghost var before := tensorDict;
        var e := ReadEntry(size);
        if e.None? {
          return false;
        }
        rest := Scan(file, ptr, size);
        if rest.Some? {
          IndexedCons(before, e.value, rest.value);
          EndOfCons(e.value, rest.value, ptr);
        }
      }
      ok := true;
    }

    /** One record: its name goes into the index before its shape is read. */
    method ReadEntry(size: SizeOf) returns (e: Option<Entry>)
      requires 0 <= ptr
      modifies this
      ensures e == EntryAt(file, old(ptr), size)
      ensures e.Some? ==> ptr == e.value.shape.next && tensorDict == Emplace(old(tensorDict), e.value)
    {
      var name := NameAt(file, ptr);
      if name.None? {
        return None;
      }
      ptr := ptr + 4 + file.ints(ptr);
      if name.value !in tensorDict {
        tensorDict := tensorDict[name.value := ptr];
      }
      var at := ptr;
      var shape := ShapeAt(file, ptr, size);
      if shape.None? {
        return None;
      }
      ptr := shape.value.next;
      e := Some(Entry(name.value, at, shape.value));
    }

    /** The shape stored for a name: at its index entry, or in the record at `pos` when there is no index. */
    function Lookup(name: Bytes, pos: int, size: SizeOf): Option<Shape>
      reads this
    {
      if tensorDict != map[] then if name in tensorDict then ShapeAt(file, tensorDict[name], size) else None
      else
        var e := EntryAt(file, pos, size);
        if e.Some? && e.value.name == name then Some(e.value.shape) else None
    }

    /** In a loaded section a name leads to its first record, and the tensor asked for is placed on the data of
        that record exactly when its type and sizes are the written ones. */
    lemma PlacedExactly(
      start: int, ts: seq<Tensor>, i: nat, pos: int, ne: seq<int>, dtype: int, size: SizeOf
    )
      requires Section(file, start, ts, size) && FirstOf(EntriesOf(ts, start, size), i)
      requires i < |ts| && |ts[i].dims| <= 4
      requires tensorDict == Indexed(map[], EntriesOf(ts, start, size))
      requires |ne| == 4 && forall d | 0 <= d < 4 :: ne[d] >= 1
      ensures var found := Lookup(ts[i].name, pos, size);
        && found == Some(EntriesOf(ts, start, size)[i].shape)
        && (Fits(found.value, ne, dtype) <==>
              ts[i].dtype == dtype && Padded(ts[i].dims) == ne && Standard(ts[i].dims))
    {
      IndexFindsTensor(file, start, ts, size, i);
      FitsExactly(EntriesOf(ts, start, size)[i].shape, ne, dtype);
    }

    /** Places a tensor on its data: by the index if there is one, else at the cursor. A check that fails
        aborts the process. */
    method ReadTensor(name: Bytes, ne: seq<int>, dtype: int, size: SizeOf) returns (offset: Option<int>)
      requires |ne| == 4 && 0 <= ptr
      modifies `ptr
      ensures var found := Lookup(name, old(ptr), size);
        if found.Some? && Fits(found.value, ne, dtype) then
          offset == Some(found.value.offset) && ptr == found.value.next
        else offset == None
    {
      if tensorDict != map[] {
        if name !in tensorDict {
          return None;
        }
        ptr := tensorDict[name];
      } else {
        var stored := NameAt(file, ptr);
        if stored.None? || stored.value != name {
          return None;
        }
        ptr := ptr + 4 + file.ints(ptr);
      }
      var shape := ShapeAt(file, ptr, size);
      if shape.None? || !Fits(shape.value, ne, dtype) {
        return None;
      }
      ptr := shape.value.next;
      offset := Some(shape.value.offset);
    }
  }
}

/**
  Reading a written create-state back through the header and the offset tables, object by object.
 */
module ReadBack {
  import opened Wrappers
  import opened PowersOfTwo
  import opened Bitvector
  import opened Unfolding
  import opened Values
  import opened CreateState
  import opened Bytes
  import opened Heap
  import opened Reader

  // ---- places in the buffer ----

  lemma PrefixSlice(front: bytes, middle: bytes, back: bytes, i: nat, n: nat)
    requires i + n <= |middle|
    ensures (front + middle + back)[|front| + i..|front| + i + n] == middle[i..i + n]
  {
  }

  lemma WordsInPlace(width: nat, xs: seq<nat>, i: nat)
    requires i < |xs|
    ensures |Join(Words(width, xs))| == width * |xs|
    ensures 0 <= width * i && width * i + width <= width * |xs|
    ensures Join(Words(width, xs))[width * i..width * i + width] == LittleEndian(width, xs[i])
  {
    EvenJoin(Words(width, xs), width);
  }

  lemma FrontLengths(header: seq<nat>, parts: seq<bytes>)
    requires |header| == 8
    ensures |Join(Words(4, header))| == HEADER_SIZE
    ensures |Join(Words(8, Starts(parts)))| == 8 * |parts|
    ensures |Buffer(header, parts)| == HEADER_SIZE + 8 * |parts| + |Join(parts)|
  {
    EvenJoin(Words(4, header), 4);
    EvenJoin(Words(8, Starts(parts)), 8);
    hide Join, Words, Starts;
  }

  /** A word of the middle part of a buffer. */
  lemma WordInMiddle(front: bytes, middle: bytes, back: bytes, at: nat, n: nat, x: nat)
    requires at + n <= |middle| && middle[at..at + n] == LittleEndian(n, x) && x < WordRange(n)
    ensures Within(front + middle + back, |front| + at, n) && Word(front + middle + back, |front| + at, n) == x
  {
    PrefixSlice(front, middle, back, at, n);
    WordAt(front + middle + back, |front| + at, n, x);
  }

  lemma HeaderWordAt(header: seq<nat>, parts: seq<bytes>, i: nat)
    requires |header| == 8 && i < 8 && header[i] < 0x1_0000_0000
    ensures |Buffer(header, parts)| >= HEADER_SIZE
    ensures Field(Buffer(header, parts), i) == header[i]
  {
    FrontLengths(header, parts);
    WordsInPlace(4, header, i);
    WordRanges();
    hide Join, Words, Starts, WordRange, LittleEndian, FromLittleEndian;
    var head, rest := Join(Words(4, header)), Join(Words(8, Starts(parts))) + Join(parts);
    WordInMiddle([], head, rest, 4 * i, 4, header[i]);
    assert Buffer(header, parts) == [] + head + rest;
  }

  lemma OffsetInTable(parts: seq<bytes>, k: nat)
    requires k < |parts|
    ensures 0 <= 8 * k && 8 * k + 8 <= |Join(Words(8, Starts(parts)))|
    ensures Join(Words(8, Starts(parts)))[8 * k..8 * k + 8] == LittleEndian(8, StartOf(parts, k))
    ensures StartOf(parts, k) <= |Join(parts)|
  {
    WordsInPlace(8, Starts(parts), k);
    JoinAt(parts, k);
  }

  lemma OffsetAt(header: seq<nat>, parts: seq<bytes>, k: nat)
    requires |header| == 8 && k < |parts| && |Join(parts)| < 0x1_0000_0000_0000_0000
    ensures Within(Buffer(header, parts), HEADER_SIZE + 8 * k, 8)
    ensures Word(Buffer(header, parts), HEADER_SIZE + 8 * k, 8) == StartOf(parts, k)
  {
    FrontLengths(header, parts);
    OffsetInTable(parts, k);
    WordRanges();
    hide Join, Words, Starts, StartOf, WordRange, LittleEndian, FromLittleEndian, Word;
    WordInMiddle(Join(Words(4, header)), Join(Words(8, Starts(parts))), Join(parts), 8 * k, 8, StartOf(parts, k));
  }

  lemma PartInPlace(header: seq<nat>, parts: seq<bytes>, k: nat)
    requires |header| == 8 && k < |parts|
    ensures var buf, at := Buffer(header, parts), HEADER_SIZE + 8 * |parts| + StartOf(parts, k);
      Within(buf, at, |parts[k]|) && buf[at..at + |parts[k]|] == parts[k]
  {
    FrontLengths(header, parts);
    JoinAt(parts, k);
    hide Join, Words, Starts, StartOf;
    var front, all, start := Join(Words(4, header)) + Join(Words(8, Starts(parts))), Join(parts), StartOf(parts, k);
    PrefixSlice(front, all, [], start, |parts[k]|);
    assert Buffer(header, parts) == front + all + [];
  }

  /** The bytes of `part` stand at a place of the buffer. */
  predicate IsAt(buf: bytes, at: nat, part: bytes) {
    Within(buf, at, |part|) && buf[at..at + |part|] == part
  }

  /** A padded part, found through the offset table. */
  lemma PartReads(header: seq<nat>, parts: seq<bytes>, k: nat, obj: bytes)
    requires |header| == 8 && k < |parts| && |Join(parts)| < 0x1_0000_0000_0000_0000 && parts[k] == Pad(obj)
    ensures Within(Buffer(header, parts), HEADER_SIZE + 8 * k, 8)
    ensures var buf := Buffer(header, parts);
      IsAt(buf, HEADER_SIZE + 8 * |parts| + Word(buf, HEADER_SIZE + 8 * k, 8), obj)
  {
    OffsetAt(header, parts, k);
    PartInPlace(header, parts, k);
    hide Buffer, StartOf, Word, Join;
    var buf, at := Buffer(header, parts), HEADER_SIZE + 8 * |parts| + StartOf(parts, k);
    SliceOfSlice(buf, at, Pad(obj), 0, |obj|);
    assert Pad(obj)[0..|obj|] == obj;
  }

  // ---- what the header says ----

  lemma CountsFit(s: State)
    requires Good(s)
    ensures |s.texts| + |s.priv| + |s.outside| + |s.bitvectors| + |s.sets| + |s.maps| < 0x1_0000_0000
  {
    RanksAddUp(s.values, |s.values|);
  }

  lemma ToReadFits(s: State, h: int)
    requires Good(s) && IsHandle(s, h)
    ensures ToRead(s, h).data < 0x1_0000_0000
  {
    CountsFit(s);
    assert GoodValue(s, h);
  }

  lemma HeaderReads(s: State, root: int)
    requires Good(s) && IsHandle(s, root)
    ensures var buf := Serialized(s, root);
      && Opens(buf)
      && Root(buf) == ToRead(s, root)
      && TextCount(buf) == |s.texts| && VectorCount(buf) == |s.priv| + |s.outside| && BitvectorCount(buf) == |s.bitvectors|
      && SetCount(buf) == |s.sets| && MapCount(buf) == |s.maps|
      && ObjectCount(buf) == |HeapObjects(s)|
  {
    var words, parts := HeaderWords(s, root), HeapObjects(s);
    hide Good, HeapObjects, Buffer, Field, Join, ToRead;
    HeapObjectCount(s);
    WordsFit(s, root);
    FrontLengths(words, parts);
    var buf := Buffer(words, parts);
    FieldsRead(words, parts);
    assert buf == Serialized(s, root);
  }

  lemma WordsFit(s: State, root: int)
    requires Good(s) && IsHandle(s, root)
    ensures forall i :: 0 <= i < 8 ==> HeaderWords(s, root)[i] < 0x1_0000_0000
  {
    hide Good, ToRead;
    CountsFit(s);
    ToReadFits(s, root);
  }

  lemma FieldsRead(words: seq<nat>, parts: seq<bytes>)
    requires |words| == 8 && forall i :: 0 <= i < 8 ==> words[i] < 0x1_0000_0000
    ensures |Buffer(words, parts)| >= HEADER_SIZE
    ensures forall i: nat :: i < 8 ==> Field(Buffer(words, parts), i) == words[i]
  {
    FrontLengths(words, parts);
    forall i: nat | i < 8 ensures Field(Buffer(words, parts), i) == words[i] {
      HeaderWordAt(words, parts, i);
    }
  }

  lemma ObjectReadsIn(header: seq<nat>, parts: seq<bytes>, i: nat, obj: bytes)
    requires |header| == 8 && i < |parts| && |Join(parts)| < 0x1_0000_0000_0000_0000 && parts[i] == Pad(obj)
    requires var buf := Buffer(header, parts); Opens(buf) && ObjectCount(buf) == |parts|
    ensures var buf := Buffer(header, parts); IsAt(buf, ObjectAt(buf, i), obj)
  {
    PartReads(header, parts, i, obj);
    hide Buffer, Word, IsAt, ObjectCount, Field, Pad, Join;
  }

  lemma SizedHeap(s: State, h: int)
    requires Good(s) && Sized(s) && IsHandle(s, h)
    ensures |Join(HeapObjects(s))| < 0x1_0000_0000_0000_0000 && 0 <= h < |s.values| && GoodValue(s, h)
  {
  }

  lemma SerializedIs(s: State, root: int)
    requires Good(s) && IsHandle(s, root)
    ensures Serialized(s, root) == Buffer(HeaderWords(s, root), HeapObjects(s))
  {
  }

  /** The object of handle h, read through the header and the offset table. */
  lemma ObjectReads(s: State, root: int, h: int)
    requires Good(s) && Sized(s) && IsHandle(s, root) && IsHandle(s, h) && KindOf(s.values[h]) != InWord
    ensures var buf, i := Serialized(s, root), FirstIndex(s, KindOf(s.values[h])) + s.values[h].data;
      Opens(buf) && i < ObjectCount(buf) && IsAt(buf, ObjectAt(buf, i), Object(s, h))
  {
    hide *;
    SizedHeap(s, h);
    var parts, i := HeapObjects(s), FirstIndex(s, KindOf(s.values[h])) + s.values[h].data;
    HeaderReads(s, root);
    ObjectIndex(s, h);
    SerializedIs(s, root);
    ObjectReadsIn(HeaderWords(s, root), parts, i, Object(s, h));
  }

  // ---- reading objects ----

  lemma PartOf(buf: bytes, at: nat, front: bytes, middle: bytes, back: bytes)
    requires IsAt(buf, at, front + middle + back)
    ensures IsAt(buf, at + |front|, middle)
  {
    PrefixSlice(front, middle, back, 0, |middle|);
    SliceOfSlice(buf, at, front + middle + back, |front|, |middle|);
  }

  lemma WordReads(buf: bytes, at: nat, n: nat, x: nat)
    requires IsAt(buf, at, LittleEndian(n, x)) && x < WordRange(n)
    ensures Word(buf, at, n) == x
  {
    WordAt(buf, at, n, x);
  }

  lemma ValueReads(buf: bytes, at: nat, r: RValue)
    requires IsAt(buf, at, ValueBytes(r)) && r.data < 0x1_0000_0000
    ensures ValueAt(buf, at) == r
  {
    var a, b := LittleEndian(4, r.typ), LittleEndian(4, r.data);
    assert a + b == [] + a + b && a + b == a + b + [];
    PartOf(buf, at, [], a, b);
    PartOf(buf, at, a, b, []);
    WordRanges();
    WordReads(buf, at, 4, r.typ);
    WordReads(buf, at + 4, 4, r.data);
  }

  /** The i-th of a row of parts of one width. */
  lemma RowReads(buf: bytes, at: nat, parts: seq<bytes>, w: nat, i: nat)
    requires IsAt(buf, at, Join(parts)) && i < |parts| && forall j :: 0 <= j < |parts| ==> |parts[j]| == w
    ensures w * i >= 0 && IsAt(buf, at + w * i, parts[i])
  {
    EvenJoin(parts, w);
    SliceOfSlice(buf, at, Join(parts), w * i, w);
  }

  /** A count, and that many parts of one width after it. */
  lemma CountedRow(buf: bytes, at: nat, parts: seq<bytes>, w: nat, tail: bytes)
    requires IsAt(buf, at, LittleEndian(4, |parts|) + Join(parts) + tail) && |parts| < 0x1_0000_0000
    requires forall j :: 0 <= j < |parts| ==> |parts[j]| == w
    ensures Within(buf, at, 4) && Word(buf, at, 4) == |parts|
    ensures IsAt(buf, at + 4, Join(parts)) && |Join(parts)| == w * |parts|
  {
    var count, row := LittleEndian(4, |parts|), Join(parts);
    assert count + row + tail == [] + count + (row + tail);
    PartOf(buf, at, [], count, row + tail);
    PartOf(buf, at, count, row, tail);
    WordRanges();
    WordReads(buf, at, 4, |parts|);
    EvenJoin(parts, w);
  }

  /** Items of a vector as the reader sees them. */
  function ReadItem(s: State, v: CValue, item: int): RNode {
    if IsValueVector(v.typ) && IsHandle(s, item) then Ref(ToRead(s, item)) else Number(v.typ, ItemNumber(s, v, item))
  }

  function ReadItems(s: State, v: CValue): (r: seq<RNode>)
    ensures |r| == |ItemsOf(s, v)| && forall i :: 0 <= i < |r| ==> r[i] == ReadItem(s, v, ItemsOf(s, v)[i])
  {
    seq(|ItemsOf(s, v)|, i requires 0 <= i < |ItemsOf(s, v)| => ReadItem(s, v, ItemsOf(s, v)[i]))
  }

  /** An item that survives being written with the width of vector v. */
  ghost predicate WritableItem(s: State, v: CValue, item: int)
    requires IsHeapVector(v.typ)
  {
    if IsValueVector(v.typ) then IsHandle(s, item) && ToRead(s, item).data < 0x1_0000_0000
    else Fits(v.typ, ItemNumber(s, v, item))
  }

  lemma ItemReads(s: State, v: CValue, item: int, buf: bytes, at: nat)
    requires IsHeapVector(v.typ) && WritableItem(s, v, item) && IsAt(buf, at, ItemBytes(s, v, item))
    ensures ItemAt(buf, v.typ, at) == ReadItem(s, v, item)
  {
    if IsValueVector(v.typ) {
      ValueReads(buf, at, ToRead(s, item));
    } else {
      var x := ItemNumber(s, v, item);
      WordRanges();
      WordReads(buf, at, Width(v.typ), Wrap(Range(v.typ), x));
      WrapRoundTrip(Range(v.typ), IsSigned(v.typ), x);
    }
  }

  lemma VectorReads(s: State, v: CValue, buf: bytes, at: nat)
    requires IsHeapVector(v.typ) && IsAt(buf, at, VectorBytes(s, v)) && |ItemsOf(s, v)| < 0x1_0000_0000
    requires forall i :: 0 <= i < |ItemsOf(s, v)| ==> WritableItem(s, v, ItemsOf(s, v)[i])
    ensures VectorAt(buf, v.typ, at) == Some(ReadItems(s, v))
  {
    var items, parts, w := ItemsOf(s, v), ItemsBytes(s, v), Width(v.typ);
    assert VectorBytes(s, v) == VectorBytes(s, v) + [];
    CountedRow(buf, at, parts, w, []);
    RowIsItems(s, v, buf, at + 4);
  }

  lemma RowIsItems(s: State, v: CValue, buf: bytes, at: nat)
    requires IsHeapVector(v.typ) && IsAt(buf, at, Join(ItemsBytes(s, v))) && |Join(ItemsBytes(s, v))| == Width(v.typ) * |ItemsOf(s, v)|
    requires forall i :: 0 <= i < |ItemsOf(s, v)| ==> WritableItem(s, v, ItemsOf(s, v)[i])
    ensures ItemsAt(buf, v.typ, at, |ItemsOf(s, v)|) == ReadItems(s, v)
  {
    var items, w := ItemsOf(s, v), Width(v.typ);
    var r := ItemsAt(buf, v.typ, at, |items|);
    hide Join, IsAt, ItemBytes, ReadItem, WritableItem, ItemAt, IsHeapVector, Width, ItemsOf, ItemsAt, LittleEndian;
    forall i | 0 <= i < |items| ensures r[i] == ReadItems(s, v)[i] {
      RowReads(buf, at, ItemsBytes(s, v), w, i);
      ItemReads(s, v, items[i], buf, at + w * i);
    }
  }

  lemma TextReads(t: u32, x: Text, buf: bytes, at: nat)
    requires IsText(t) && ValidText(t, x) && IsAt(buf, at, TextBytes(x))
    ensures TextAt(buf, t, at) == Some(x)
  {
    var parts, w := CharBytes(x), CharWidth(x);
    CountedRow(buf, at, parts, w, LittleEndian(w, 0));
    WordRanges();
    RowIsChars(x, buf, at + 4);
  }

  lemma CharReads(buf: bytes, at: nat, w: nat, x: u32)
    requires IsAt(buf, at, LittleEndian(w, x)) && x < WordRange(w)
    ensures Within(buf, at, w) && CharOf(Word(buf, at, w)) == x
  {
    WordReads(buf, at, w, x);
    hide Word;
  }

  lemma RowIsChars(x: Text, buf: bytes, at: nat)
    requires IsAt(buf, at, Join(CharBytes(x))) && |Join(CharBytes(x))| == CharWidth(x) * |x.chars|
    requires forall i :: 0 <= i < |x.chars| ==> x.chars[i] < WordRange(CharWidth(x))
    ensures CharsAt(buf, CharWidth(x), at, |x.chars|) == x.chars
  {
    var w := CharWidth(x);
    var r := CharsAt(buf, w, at, |x.chars|);
    hide *;
    forall i | 0 <= i < |x.chars| ensures r[i] == x.chars[i] {
      CharIsAt(x, buf, at, i);
    }
  }

  lemma CharIsAt(x: Text, buf: bytes, at: nat, i: nat)
    requires IsAt(buf, at, Join(CharBytes(x))) && |Join(CharBytes(x))| == CharWidth(x) * |x.chars|
    requires i < |x.chars| && x.chars[i] < WordRange(CharWidth(x))
    ensures CharsAt(buf, CharWidth(x), at, |x.chars|)[i] == x.chars[i]
  {
    var w := CharWidth(x);
    assert w == 1 || w == 4;
    var r := CharsAt(buf, w, at, |x.chars|);
    hide *;
    RowReads(buf, at, CharBytes(x), w, i);
    CharReads(buf, at + w * i, w, x.chars[i]);
  }

  lemma BitvectorReads(b: RawBitvector, buf: bytes, at: nat)
    requires ValidBits(b) && IsAt(buf, at, LittleEndian(4, b.n) + b.bytes)
    ensures BitvectorAt(buf, at) == Some(b)
  {
    var count := LittleEndian(4, b.n);
    assert count + b.bytes == [] + count + b.bytes && count + b.bytes == count + b.bytes + [];
    PartOf(buf, at, [], count, b.bytes);
    PartOf(buf, at, count, b.bytes, []);
    WordRanges();
    WordReads(buf, at, 4, b.n);
  }

  // ---- reading values ----

  /** Prepared for writing: tables laid out, every length in range. */
  ghost predicate Writable(s: State) {
    Good(s) && TablesMade(s) && Sized(s)
  }

  lemma ItemsWritable(s: State, h: int)
    requires Writable(s) && IsHandle(s, h) && IsHeapVector(s.values[h].typ)
    ensures forall i :: 0 <= i < |ItemsOf(s, s.values[h])| ==> WritableItem(s, s.values[h], ItemsOf(s, s.values[h])[i])
  {
    var v := s.values[h];
    assert GoodValue(s, h) && TableMade(s, h);
    forall g | IsHandle(s, g) ensures ToRead(s, g).data < 0x1_0000_0000 {
      ToReadFits(s, g);
    }
    hide Good, Sized, TablesMade;
  }

  lemma FactorFits(n: nat, w: nat, limit: nat)
    requires n * w < limit && w > 0
    ensures n < limit
  {
    MulMonotone(n, 1, w);
  }

  lemma VectorReadsAt(s: State, h: int, buf: bytes, at: nat)
    requires Writable(s) && IsHandle(s, h) && IsHeapVector(s.values[h].typ)
    requires GoodValue(s, h) && IsAt(buf, at, Object(s, h))
    ensures VectorAt(buf, s.values[h].typ, at) == Some(ReadItems(s, s.values[h]))
  {
    var v := s.values[h];
    ItemsWritable(s, h);
    assert Object(s, h) == VectorBytes(s, v);
    assert SizedValue(s, v);
    hide Good, TablesMade, Sized, Object, WritableItem, VectorBytes, ItemsOf;
    FactorFits(|ItemsOf(s, v)|, Width(v.typ), 0x1_0000_0000);
    VectorReads(s, v, buf, at);
  }

  lemma VectorIndex(s: State, root: int, h: int)
    requires Writable(s) && IsHandle(s, root) && IsHandle(s, h) && IsHeapVector(s.values[h].typ)
    ensures Opens(Serialized(s, root)) && |Serialized(s, root)| >= HEADER_SIZE && ToRead(s, h).data < VectorCount(Serialized(s, root))
    ensures TextCount(Serialized(s, root)) + ToRead(s, h).data == FirstIndex(s, KindOf(s.values[h])) + s.values[h].data
    ensures GoodValue(s, h) && KindOf(s.values[h]) != InWord && ToRead(s, h).typ == s.values[h].typ
  {
    HeaderReads(s, root);
    assert GoodValue(s, h);
    hide Good, TablesMade, Sized, Serialized, Opens, TextCount, VectorCount;
  }

  lemma VectorValueReads(s: State, root: int, h: int)
    requires Writable(s) && IsHandle(s, root) && IsHandle(s, h) && IsHeapVector(s.values[h].typ)
    ensures ReadsVector(Serialized(s, root), ToRead(s, h), ReadItems(s, s.values[h]))
  {
    hide Good, Sized, TablesMade, Serialized, ObjectAt, Opens, TextCount, VectorCount, ObjectCount, Object, GoodValue, IsAt, VectorAt, ReadItems, FirstIndex, KindOf;
    hide ToRead, IsHeapVector;
    VectorIndex(s, root, h);
    ObjectReads(s, root, h);
    var buf := Serialized(s, root);
    VectorReadsAt(s, h, buf, ObjectAt(buf, TextCount(buf) + ToRead(s, h).data));
  }

  /** The tables that the counts of the header lead to are the tables the objects were written to. */
  lemma IndicesRead(s: State, root: int)
    requires Writable(s) && IsHandle(s, root)
    ensures var buf := Serialized(s, root);
      && Opens(buf) && |buf| >= HEADER_SIZE
      && |s.texts| == TextCount(buf)
      && |s.bitvectors| == BitvectorCount(buf) && FirstIndex(s, BitBuffer) == TextCount(buf) + VectorCount(buf)
      && |s.sets| == SetCount(buf) && FirstIndex(s, SetTable) == TextCount(buf) + VectorCount(buf) + BitvectorCount(buf)
      && |s.maps| == MapCount(buf) && FirstIndex(s, MapTable) == TextCount(buf) + VectorCount(buf) + BitvectorCount(buf) + SetCount(buf)
  {
    HeaderReads(s, root);
    hide Good, TablesMade, Sized, Serialized, Opens, TextCount, VectorCount, BitvectorCount, SetCount, MapCount;
  }

  lemma TextReadsAt(s: State, h: int, buf: bytes, at: nat)
    requires IsHandle(s, h) && GoodValue(s, h) && KindOf(s.values[h]) == TextBuffer && IsAt(buf, at, Object(s, h))
    ensures TextAt(buf, s.values[h].typ, at) == Some(s.texts[s.values[h].data])
  {
    assert Object(s, h) == TextBytes(s.texts[s.values[h].data]);
    hide Object, IsAt, TextAt, TextBytes;
    TextReads(s.values[h].typ, s.texts[s.values[h].data], buf, at);
  }

  ghost predicate ReadsText(buf: bytes, r: RValue, x: Text) {
    Opens(buf) && IsText(r.typ) && r.data < TextCount(buf) && TextAt(buf, r.typ, ObjectAt(buf, r.data)) == Some(x)
  }

  lemma TextIndex(s: State, root: int, h: int)
    requires Writable(s) && IsHandle(s, root) && IsHandle(s, h) && KindOf(s.values[h]) == TextBuffer
    ensures GoodValue(s, h) && s.values[h].data < |s.texts|
    ensures ToRead(s, h) == RValue(s.values[h].typ, s.values[h].data) && IsText(s.values[h].typ)
  {
    assert GoodValue(s, h);
  }

  lemma TextValueReads(s: State, root: int, h: int)
    requires Writable(s) && IsHandle(s, root) && IsHandle(s, h) && KindOf(s.values[h]) == TextBuffer
    ensures s.values[h].data < |s.texts| && ReadsText(Serialized(s, root), ToRead(s, h), s.texts[s.values[h].data])
  {
    hide Good, Sized, TablesMade, Serialized, ObjectAt, Opens, TextCount, VectorCount, BitvectorCount, SetCount, MapCount, ObjectCount;
    hide Object, GoodValue, IsAt, TextAt, ToRead, KindOf, IsText, Rank;
    TextIndex(s, root, h);
    IndicesRead(s, root);
    ObjectReads(s, root, h);
    var buf, v := Serialized(s, root), s.values[h];
    TextReadsAt(s, h, buf, ObjectAt(buf, v.data));
  }

  ghost predicate ReadsBits(buf: bytes, r: RValue, b: RawBitvector) {
    && Opens(buf) && r.typ == BITVECTOR && r.data < BitvectorCount(buf)
    && BitvectorAt(buf, ObjectAt(buf, TextCount(buf) + VectorCount(buf) + r.data)) == Some(b)
  }

  lemma BitsReadAt(s: State, h: int, buf: bytes, at: nat)
    requires IsHandle(s, h) && GoodValue(s, h) && KindOf(s.values[h]) == BitBuffer && IsAt(buf, at, Object(s, h))
    ensures BitvectorAt(buf, at) == Some(s.bitvectors[s.values[h].data])
  {
    var b := s.bitvectors[s.values[h].data];
    assert Object(s, h) == LittleEndian(4, b.n) + b.bytes;
    hide Object, IsAt, BitvectorAt;
    BitvectorReads(b, buf, at);
  }

  lemma BitsIndex(s: State, root: int, h: int)
    requires Writable(s) && IsHandle(s, root) && IsHandle(s, h) && KindOf(s.values[h]) == BitBuffer
    ensures GoodValue(s, h) && s.values[h].data < |s.bitvectors|
    ensures ToRead(s, h) == RValue(BITVECTOR, s.values[h].data)
  {
    assert GoodValue(s, h);
  }

  lemma BitsValueReads(s: State, root: int, h: int)
    requires Writable(s) && IsHandle(s, root) && IsHandle(s, h) && KindOf(s.values[h]) == BitBuffer
    ensures s.values[h].data < |s.bitvectors| && ReadsBits(Serialized(s, root), ToRead(s, h), s.bitvectors[s.values[h].data])
  {
    hide Good, Sized, TablesMade, Serialized, ObjectAt, Opens, TextCount, VectorCount, BitvectorCount, SetCount, MapCount, ObjectCount;
    hide Object, GoodValue, IsAt, BitvectorAt, ToRead, KindOf, Rank;
    BitsIndex(s, root, h);
    IndicesRead(s, root);
    ObjectReads(s, root, h);
    var buf, v := Serialized(s, root), s.values[h];
    BitsReadAt(s, h, buf, ObjectAt(buf, TextCount(buf) + VectorCount(buf) + v.data));
  }

  // ---- reading sets and maps ----

  ghost predicate ReadsPart(buf: bytes, r: RValue, items: seq<RNode>) {
    Opens(buf) && PartAt(buf, r) == Some(items)
  }

  /** A value vector that a set or map keeps, read through its header. */
  lemma PartValueReads(s: State, root: int, k: int)
    requires Writable(s) && IsHandle(s, root) && IsValuePart(s, k)
    ensures ReadsPart(Serialized(s, root), ToRead(s, k), ReadItems(s, s.values[k]))
  {
    hide Good, Sized, TablesMade, Serialized, ObjectAt, Opens, TextCount, VectorCount, ReadItems, VectorAt;
    VectorValueReads(s, root, k);
  }

  lemma SetIndex(s: State, root: int, h: int)
    requires Writable(s) && IsHandle(s, root) && IsHandle(s, h) && KindOf(s.values[h]) == SetTable
    ensures GoodValue(s, h) && s.values[h].data < |s.sets|
    ensures ToRead(s, h) == RValue(SET_VALUE, s.values[h].data)
    ensures var x := s.sets[s.values[h].data]; GoodSet(s, h, x) && SetMade(s, x)
  {
    assert GoodValue(s, h) && TableMade(s, h);
  }

  /** The vectors a set header at a place of the buffer points to. */
  ghost predicate SetHeaderAt(buf: bytes, at: nat, hash: RValue, key: RValue) {
    Within(buf, at, 24) && ValueAt(buf, at + 8) == hash && ValueAt(buf, at + 16) == key
  }

  lemma SetHeaderReads(buf: bytes, at: nat, n: bytes, padding: bytes, hash: RValue, key: RValue)
    requires |n| == |padding| == 4 && IsAt(buf, at, n + padding + ValueBytes(hash) + ValueBytes(key))
    requires hash.data < 0x1_0000_0000 && key.data < 0x1_0000_0000
    ensures SetHeaderAt(buf, at, hash, key)
  {
    var a, b := ValueBytes(hash), ValueBytes(key);
    hide ValueBytes, ValueAt;
    assert n + padding + a + b == n + padding + a + b + [];
    PartOf(buf, at, n + padding, a, b);
    PartOf(buf, at, n + padding + a, b, []);
    hide IsAt;
    ValueReads(buf, at + 8, hash);
    ValueReads(buf, at + 16, key);
  }

  lemma SetReadsAt(s: State, h: int, buf: bytes, at: nat)
    requires IsHandle(s, h) && GoodValue(s, h) && KindOf(s.values[h]) == SetTable && IsAt(buf, at, Object(s, h))
    requires ToRead(s, h - 2).data < 0x1_0000_0000 && ToRead(s, h - 1).data < 0x1_0000_0000
    ensures SetHeaderAt(buf, at, ToRead(s, h - 2), ToRead(s, h - 1))
  {
    var x := s.sets[s.values[h].data];
    assert Object(s, h) == SetBytes(s, x);
    hide Object, IsAt, ToRead, SetHeaderAt, ValueBytes;
    SetHeaderReads(buf, at, LittleEndian(4, |x.keys|), LittleEndian(4, 0), ToRead(s, h - 2), ToRead(s, h - 1));
  }

  ghost predicate ReadsSet(buf: bytes, r: RValue, ks: seq<RNode>) {
    && Opens(buf) && r.typ == SET_VALUE && r.data < SetCount(buf)
    && SetAt(buf, ObjectAt(buf, TextCount(buf) + VectorCount(buf) + BitvectorCount(buf) + r.data)) == SetOf(Kept(Filled(ks), ks))
  }

  lemma SetValueReads(s: State, root: int, h: int)
    requires Writable(s) && IsHandle(s, root) && IsHandle(s, h) && KindOf(s.values[h]) == SetTable
    ensures IsHandle(s, h - 1) && ReadsSet(Serialized(s, root), ToRead(s, h), ReadItems(s, s.values[h - 1]))
  {
    hide Good, Sized, TablesMade, Serialized, ObjectAt, Opens, TextCount, VectorCount, BitvectorCount, SetCount, MapCount, ObjectCount;
    hide Object, GoodValue, IsAt, ToRead, KindOf, Rank, ReadItems, PartAt, SetMade, ValueAt, Kept;
    SetIndex(s, root, h);
    IndicesRead(s, root);
    ObjectReads(s, root, h);
    ToReadFits(s, h - 2);
    ToReadFits(s, h - 1);
    var buf, v := Serialized(s, root), s.values[h];
    SetReadsAt(s, h, buf, ObjectAt(buf, TextCount(buf) + VectorCount(buf) + BitvectorCount(buf) + v.data));
    PartValueReads(s, root, h - 1);
  }

  lemma MapIndex(s: State, root: int, h: int)
    requires Writable(s) && IsHandle(s, root) && IsHandle(s, h) && KindOf(s.values[h]) == MapTable
    ensures GoodValue(s, h) && s.values[h].data < |s.maps|
    ensures ToRead(s, h) == RValue(MAP_VALUE_VALUE, s.values[h].data)
    ensures var x := s.maps[s.values[h].data]; GoodMap(s, h, x) && MapMade(s, x)
  {
    assert GoodValue(s, h) && TableMade(s, h);
  }

  ghost predicate MapHeaderAt(buf: bytes, at: nat, hash: RValue, key: RValue, value: RValue) {
    Within(buf, at, 32) && ValueAt(buf, at + 8) == hash && ValueAt(buf, at + 16) == key && ValueAt(buf, at + 24) == value
  }

  lemma MapHeaderReads(buf: bytes, at: nat, n: bytes, padding: bytes, hash: RValue, key: RValue, value: RValue)
    requires |n| == |padding| == 4 && IsAt(buf, at, n + padding + ValueBytes(hash) + ValueBytes(key) + ValueBytes(value))
    requires hash.data < 0x1_0000_0000 && key.data < 0x1_0000_0000 && value.data < 0x1_0000_0000
    ensures MapHeaderAt(buf, at, hash, key, value)
  {
    var a, b, c := ValueBytes(hash), ValueBytes(key), ValueBytes(value);
    hide ValueBytes, ValueAt;
    var front := n + padding + a + b;
    PartOf(buf, at, [], front, c);
    assert front + c == [] + front + c && front + c == front + c + [];
    PartOf(buf, at, front, c, []);
    hide IsAt;
    SetHeaderReads(buf, at, n, padding, hash, key);
    ValueReads(buf, at + 24, value);
  }

  lemma MapReadsAt(s: State, h: int, buf: bytes, at: nat)
    requires IsHandle(s, h) && GoodValue(s, h) && KindOf(s.values[h]) == MapTable && IsAt(buf, at, Object(s, h))
    requires ToRead(s, h - 3).data < 0x1_0000_0000 && ToRead(s, h - 2).data < 0x1_0000_0000 && ToRead(s, h - 1).data < 0x1_0000_0000
    ensures MapHeaderAt(buf, at, ToRead(s, h - 3), ToRead(s, h - 2), ToRead(s, h - 1))
  {
    var x := s.maps[s.values[h].data];
    assert Object(s, h) == MapBytes(s, x);
    hide Object, IsAt, ToRead, MapHeaderAt, ValueBytes;
    MapHeaderReads(buf, at, LittleEndian(4, |x.keys|), LittleEndian(4, 0), ToRead(s, h - 3), ToRead(s, h - 2), ToRead(s, h - 1));
  }

  ghost predicate ReadsMap(buf: bytes, r: RValue, ks: seq<RNode>, vs: seq<RNode>) {
    && Opens(buf) && r.typ == MAP_VALUE_VALUE && r.data < MapCount(buf) && |ks| == |vs|
    && MapAt(buf, ObjectAt(buf, TextCount(buf) + VectorCount(buf) + BitvectorCount(buf) + SetCount(buf) + r.data))
       == MapOf(Kept(Filled(ks), ks), Kept(Filled(ks), vs))
  }

  lemma MapValueReads(s: State, root: int, h: int)
    requires Writable(s) && IsHandle(s, root) && IsHandle(s, h) && KindOf(s.values[h]) == MapTable
    ensures IsHandle(s, h - 2) && ReadsMap(Serialized(s, root), ToRead(s, h), ReadItems(s, s.values[h - 2]), ReadItems(s, s.values[h - 1]))
  {
    hide Good, Sized, TablesMade, Serialized, ObjectAt, Opens, TextCount, VectorCount, BitvectorCount, SetCount, MapCount, ObjectCount;
    hide Object, GoodValue, IsAt, ToRead, KindOf, Rank, ReadItems, PartAt, ValueAt, Kept;
    MapIndex(s, root, h);
    IndicesRead(s, root);
    ObjectReads(s, root, h);
    ToReadFits(s, h - 3);
    ToReadFits(s, h - 2);
    ToReadFits(s, h - 1);
    var buf, v := Serialized(s, root), s.values[h];
    MapReadsAt(s, h, buf, ObjectAt(buf, TextCount(buf) + VectorCount(buf) + BitvectorCount(buf) + SetCount(buf) + v.data));
    PartValueReads(s, root, h - 2);
    PartValueReads(s, root, h - 1);
  }

  // ---- shapes ----

  ghost predicate ReadsVector(buf: bytes, r: RValue, items: seq<RNode>) {
    && Opens(buf) && IsHeapVector(r.typ) && r.data < VectorCount(buf)
    && VectorAt(buf, r.typ, ObjectAt(buf, TextCount(buf) + r.data)) == Some(items)
  }

  lemma ReadShapes(buf: bytes, r: RValue)
    requires Opens(buf)
    ensures forall x :: ReadsText(buf, r, x) ==> ValueShape(buf, r) == Leaf(TText(x))
    ensures forall b :: ReadsBits(buf, r, b) ==> ValueShape(buf, r) == BitsShape(b)
    ensures forall items :: ReadsVector(buf, r, items) ==> ValueShape(buf, r) == Vector(items)
    ensures forall ks :: ReadsSet(buf, r, ks) ==> ValueShape(buf, r) == SetOf(Kept(Filled(ks), ks))
    ensures forall ks, vs :: ReadsMap(buf, r, ks, vs) ==> ValueShape(buf, r) == MapOf(Kept(Filled(ks), ks), Kept(Filled(ks), vs))
  {
    hide ObjectAt, TextCount, VectorCount, BitvectorCount, SetCount, MapCount, TextAt, BitvectorAt, VectorAt, SetAt, MapAt, Kept, Filled, BitsShape;
  }
}

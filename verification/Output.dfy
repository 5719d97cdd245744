/**
  Writing a prepared create-state: the offsets of all objects in one pass, the objects themselves in another.
 */
module Output {
  import opened Wrappers
  import opened PowersOfTwo
  import opened Bitvector
  import opened Unfolding
  import opened Values
  import opened CreateState
  import opened Bytes
  import opened Heap

  /** A growing byte buffer. */
  class Sink {
    var data: bytes

    constructor ()
      ensures data == []
    {
      data := [];
    }

    method Write(b: bytes)
      modifies this
      ensures data == old(data) + b
    {
      data := data + b;
    }

    /** Zero bytes up to a multiple of 4 of the whole buffer. */
    method Align4()
      modifies this
      ensures data == Pad(old(data))
    {
      ghost var start := data;
      var n := AlignNext4(|data|);
      for i := |data| to n
        invariant |data| == i && data == start + seq(i - |start|, _ => 0)
      {
        data := data + [0];
      }
    }
  }

  /** Objects start at multiples of 4, so padding the buffer pads the object. */
  lemma PadAfter(front: bytes, b: bytes)
    requires |front| % 4 == 0
    ensures Pad(front + b) == front + Pad(b)
  {
    AlignSum(|front|, |b|);
    hide AlignNext4;
    var n := AlignNext4(|b|) - |b|;
    Regroup(front, b, seq(n, _ => 0));
  }

  // ---- sizes ----

  /** The size the offset pass counts for a value; the size of a vector is kept in 32 bits. */
  function HeapSize(s: State, h: int): nat
    requires IsHandle(s, h)
  {
    var v := s.values[h];
    match KindOf(v)
    case InWord => 0
    case TextBuffer => if v.data < |s.texts| then 4 + (|s.texts[v.data].chars| + 1) * CharWidth(s.texts[v.data]) else 0
    case BitBuffer => if v.data < |s.bitvectors| then 4 + CeilDiv8(s.bitvectors[v.data].n) else 0
    case OutsideVector => (4 + |ItemsOf(s, v)| * Width(v.typ)) % 0x1_0000_0000
    case PrivateVector => (4 + |ItemsOf(s, v)| * Width(v.typ)) % 0x1_0000_0000
    case SetTable => 24
    case MapTable => 32
  }

  lemma VectorLength(s: State, v: CValue)
    requires IsHeapVector(v.typ)
    ensures |VectorBytes(s, v)| == 4 + |ItemsOf(s, v)| * Width(v.typ)
  {
    EvenJoin(ItemsBytes(s, v), Width(v.typ));
  }

  lemma TextLength(x: Text)
    ensures |TextBytes(x)| == 4 + (|x.chars| + 1) * CharWidth(x)
  {
    EvenJoin(CharBytes(x), CharWidth(x));
  }

  /**
    The offset pass counts what the heap pass writes, for every value but a vector of 2^32 bytes or more,
    where it loses the high bits.
   */
  lemma HeapSizeIsLength(s: State, h: int)
    requires IsHandle(s, h) && GoodValue(s, h)
    ensures var v := s.values[h];
      HeapSize(s, h) == |Object(s, h)| <==> (IsHeapVector(v.typ) ==> 4 + |ItemsOf(s, v)| * Width(v.typ) < 0x1_0000_0000)
  {
    var v := s.values[h];
    hide Join, LittleEndian, GoodItems, AllPublic;
    match KindOf(v)
    case TextBuffer => TextLength(s.texts[v.data]);
    case OutsideVector => VectorLength(s, v); ModSmall(4 + |ItemsOf(s, v)| * Width(v.typ));
    case PrivateVector => VectorLength(s, v); ModSmall(4 + |ItemsOf(s, v)| * Width(v.typ));
    case _ =>
  }

  lemma ModSmall(n: nat)
    ensures n % 0x1_0000_0000 == n <==> n < 0x1_0000_0000
  {
  }

  // ---- what has been written so far ----

  /** The objects of the first m kinds, and of the next kind among the first i values. */
  ghost function WrittenObjects(s: State, m: nat, i: nat): seq<bytes>
    requires Good(s) && m < 6 && i <= |s.values|
  {
    ByKind(s.values, AllObjects(s), m) + Select(s.values, AllObjects(s), KINDS[m], i)
  }

  lemma WrittenStep(s: State, m: nat, i: nat)
    requires Good(s) && m < 6 && i < |s.values|
    ensures WrittenObjects(s, m, i + 1) ==
      if KindOf(s.values[i]) == KINDS[m] then WrittenObjects(s, m, i) + [Pad(Object(s, i))] else WrittenObjects(s, m, i)
  {
    hide Good, Object, ByKind;
  }

  lemma WrittenEnd(s: State, m: nat)
    requires Good(s) && m < 6
    ensures WrittenObjects(s, m, |s.values|) == ByKind(s.values, AllObjects(s), m + 1)
  {
    hide Good, Object;
  }

  lemma StartsAppend(parts: seq<bytes>, part: bytes)
    ensures Join(Words(8, Starts(parts + [part]))) == Join(Words(8, Starts(parts))) + LittleEndian(8, |Join(parts)|)
    ensures Join(parts + [part]) == Join(parts) + part
  {
    var all := parts + [part];
    assert all[..|parts|] == parts && all[|parts|] == part;
    forall k | 0 <= k < |parts| ensures all[..k] == parts[..k] {
    }
    assert parts[..|parts|] == parts;
    var words := Words(8, Starts(all));
    assert words[..|parts|] == Words(8, Starts(parts));
  }

  lemma AlignSum(a: nat, b: nat)
    requires a % 4 == 0
    ensures AlignNext4(a + b) == a + AlignNext4(b) && (a + AlignNext4(b)) % 4 == 0
  {
  }

  lemma PaddedStart(parts: seq<bytes>, part: bytes)
    requires |Join(parts)| % 4 == 0
    ensures |Join(parts + [Pad(part)])| == AlignNext4(|Join(parts)| + |part|) && |Join(parts + [Pad(part)])| % 4 == 0
  {
    StartsAppend(parts, Pad(part));
    AlignSum(|Join(parts)|, |part|);
    hide Join, AlignNext4, Pad;
  }

  // ---- header and offsets ----

  method WriteHeader(s: State, root: int, sink: Sink)
    requires IsHandle(s, root)
    modifies sink
    ensures sink.data == old(sink.data) + Join(Words(4, HeaderWords(s, root))) && |sink.data| == |old(sink.data)| + HEADER_SIZE
  {
    EvenJoin(Words(4, HeaderWords(s, root)), 4);
    sink.Write(Join(Words(4, HeaderWords(s, root))));
  }

  /** The offset table as far as the objects `parts`. */
  ghost function OffsetTable(parts: seq<bytes>): bytes {
    Join(Words(8, Starts(parts)))
  }

  /** With every size in range, the counted offset is where the next object starts, and a multiple of 4. */
  ghost predicate Counted(s: State, m: nat, i: nat, current: nat)
    requires Good(s) && m < 6 && i <= |s.values|
  {
    Sized(s) ==> current == |Join(WrittenObjects(s, m, i))| && current % 4 == 0
  }

  lemma CountStep(s: State, m: nat, i: nat, current: nat)
    requires Good(s) && m < 6 && i < |s.values| && Counted(s, m, i, current)
    ensures KindOf(s.values[i]) != KINDS[m] ==> Counted(s, m, i + 1, current) && WrittenObjects(s, m, i + 1) == WrittenObjects(s, m, i)
    ensures KindOf(s.values[i]) == KINDS[m] ==> Counted(s, m, i + 1, AlignNext4(current + HeapSize(s, i)))
    ensures KindOf(s.values[i]) == KINDS[m] && Sized(s) ==>
      OffsetTable(WrittenObjects(s, m, i + 1)) == OffsetTable(WrittenObjects(s, m, i)) + LittleEndian(8, current)
  {
    hide Good, Sized, WrittenObjects, HeapSize, Object, KindOf, Words, Starts, Pad, AlignNext4, Join;
    WrittenStep(s, m, i);
    IsGood(s, i);
    if KindOf(s.values[i]) == KINDS[m] && Sized(s) {
      SizeFits(s, i);
      PaddedStart(WrittenObjects(s, m, i), Object(s, i));
      StartsAppend(WrittenObjects(s, m, i), Pad(Object(s, i)));
    }
  }

  lemma IsGood(s: State, h: int)
    requires Good(s) && IsHandle(s, h)
    ensures GoodValue(s, h)
  {
  }

  lemma SizeFits(s: State, h: int)
    requires Good(s) && Sized(s) && IsHandle(s, h)
    ensures GoodValue(s, h) && HeapSize(s, h) == |Object(s, h)|
  {
    assert GoodValue(s, h) && SizedValue(s, s.values[h]);
    hide Good, Sized, HeapSize, Object, GoodValue;
    HeapSizeIsLength(s, h);
  }

  /** Writes the offsets of the values of one kind, counting on from the end of the kinds before. */
  method WriteOffsets(s: State, m: nat, n: nat, start: nat, sink: Sink, ghost base: bytes) returns (current: nat)
    requires Good(s) && m < 6 && n == |s.values|
    requires |sink.data| % 4 == 0 && Counted(s, m, 0, start) && (Sized(s) ==> sink.data == base + OffsetTable(WrittenObjects(s, m, 0)))
    modifies sink
    ensures |sink.data| % 4 == 0 && Counted(s, m, n, current) && (Sized(s) ==> sink.data == base + OffsetTable(WrittenObjects(s, m, n)))
  {
    current := start;
    hide Good, Sized, WrittenObjects, OffsetTable, Counted, HeapSize;
    for i := 0 to n
      invariant |sink.data| % 4 == 0 && Counted(s, m, i, current) && (Sized(s) ==> sink.data == base + OffsetTable(WrittenObjects(s, m, i)))
    {
      CountStep(s, m, i, current);
      if KindOf(s.values[i]) == KINDS[m] {
        sink.Write(LittleEndian(8, current));
        current := AlignNext4(current + HeapSize(s, i));
      }
    }
  }

  // ---- heap ----

  lemma Regroup(a: bytes, b: bytes, c: bytes)
    ensures a + b + c == a + (b + c)
  {
  }

  /** Writes the items of a vector, one by one or all at once. */
  method WriteItems(s: State, v: CValue, sink: Sink)
    requires IsHeapVector(v.typ)
    modifies sink
    ensures sink.data == old(sink.data) + Join(ItemsBytes(s, v))
  {
    assert Join([]) == [];
    hide *;
    var items := ItemsOf(s, v);
    ghost var parts, base := ItemsBytes(s, v), sink.data;
    if IsValueVector(v.typ) || v.compressed {
      assert parts[..0] == [];
      for i := 0 to |items|
        invariant sink.data == base + Join(parts[..i])
      {
        StartStep(parts, i);
        Regroup(base, Join(parts[..i]), parts[i]);
        sink.Write(ItemBytes(s, v, items[i]));
      }
      assert parts[..|items|] == parts;
    } else {
      sink.Write(Join(ItemsBytes(s, v)));
    }
  }

  lemma VectorBytesAre(s: State, v: CValue)
    requires IsHeapVector(v.typ)
    ensures VectorBytes(s, v) == LittleEndian(4, |ItemsOf(s, v)|) + Join(ItemsBytes(s, v))
  {
  }

  method WriteVector(s: State, v: CValue, sink: Sink)
    requires IsHeapVector(v.typ) && |sink.data| % 4 == 0
    modifies sink
    ensures sink.data == old(sink.data) + Pad(VectorBytes(s, v))
  {
    VectorBytesAre(s, v);
    hide *;
    Regroup(sink.data, LittleEndian(4, |ItemsOf(s, v)|), Join(ItemsBytes(s, v)));
    PadAfter(sink.data, VectorBytes(s, v));
    sink.Write(LittleEndian(4, |ItemsOf(s, v)|));
    WriteItems(s, v, sink);
    sink.Align4();
  }

  method WriteText(x: Text, sink: Sink)
    requires |sink.data| % 4 == 0
    modifies sink
    ensures sink.data == old(sink.data) + Pad(TextBytes(x))
  {
    sink.Write(LittleEndian(4, |x.chars|));
    sink.Write(Join(CharBytes(x)) + LittleEndian(CharWidth(x), 0));
    PadAfter(old(sink.data), TextBytes(x));
    assert sink.data == old(sink.data) + TextBytes(x);
    sink.Align4();
  }

  method WriteBitvector(b: RawBitvector, sink: Sink)
    requires |sink.data| % 4 == 0
    modifies sink
    ensures sink.data == old(sink.data) + Pad(LittleEndian(4, b.n) + b.bytes)
  {
    sink.Write(LittleEndian(4, b.n));
    sink.Write(b.bytes);
    PadAfter(old(sink.data), LittleEndian(4, b.n) + b.bytes);
    assert sink.data == old(sink.data) + (LittleEndian(4, b.n) + b.bytes);
    sink.Align4();
  }

  method WriteSet(s: State, x: CSet, sink: Sink)
    requires HasSetParts(s, x) && |sink.data| % 4 == 0
    modifies sink
    ensures sink.data == old(sink.data) + Pad(SetBytes(s, x))
  {
    sink.Write(SetBytes(s, x));
    PadAfter(old(sink.data), SetBytes(s, x));
    sink.Align4();
  }

  method WriteMap(s: State, x: CMap, sink: Sink)
    requires HasMapParts(s, x) && |sink.data| % 4 == 0
    modifies sink
    ensures sink.data == old(sink.data) + Pad(MapBytes(s, x))
  {
    sink.Write(MapBytes(s, x));
    PadAfter(old(sink.data), MapBytes(s, x));
    sink.Align4();
  }

  method WriteObject(s: State, h: nat, sink: Sink)
    requires IsHandle(s, h) && GoodValue(s, h) && KindOf(s.values[h]) != InWord && |sink.data| % 4 == 0
    modifies sink
    ensures sink.data == old(sink.data) + Pad(Object(s, h)) && |sink.data| % 4 == 0
  {
    hide GoodValue, Object, TextBytes, VectorBytes, SetBytes, MapBytes, AlignNext4, LittleEndian, IsHeapVector, ValueBytes, Pad, Width, IsText;
    var v := s.values[h];
    WhatToWrite(s, h);
    AlignSum(|sink.data|, |Object(s, h)|);
    match KindOf(v) {
      case TextBuffer => WriteText(s.texts[v.data], sink);
      case BitBuffer => WriteBitvector(s.bitvectors[v.data], sink);
      case OutsideVector => WriteVector(s, v, sink);
      case PrivateVector => WriteVector(s, v, sink);
      case SetTable => WriteSet(s, s.sets[v.data], sink);
      case MapTable => WriteMap(s, s.maps[v.data], sink);
    }
  }

  lemma WhatToWrite(s: State, h: int)
    requires IsHandle(s, h) && GoodValue(s, h)
    ensures var v := s.values[h];
      match KindOf(v)
      case InWord => true
      case TextBuffer => v.data < |s.texts| && Object(s, h) == TextBytes(s.texts[v.data])
      case BitBuffer => v.data < |s.bitvectors| && Object(s, h) == LittleEndian(4, s.bitvectors[v.data].n) + s.bitvectors[v.data].bytes
      case OutsideVector => IsHeapVector(v.typ) && Object(s, h) == VectorBytes(s, v)
      case PrivateVector => IsHeapVector(v.typ) && Object(s, h) == VectorBytes(s, v)
      case SetTable => v.data < |s.sets| && HasSetParts(s, s.sets[v.data]) && Object(s, h) == SetBytes(s, s.sets[v.data])
      case MapTable => v.data < |s.maps| && HasMapParts(s, s.maps[v.data]) && Object(s, h) == MapBytes(s, s.maps[v.data])
  {
  }

  predicate HasSetParts(s: State, x: CSet) {
    IsHandle(s, x.hashVector) && IsHandle(s, x.keyVector)
  }

  predicate HasMapParts(s: State, x: CMap) {
    IsHandle(s, x.hashVector) && IsHandle(s, x.keyVector) && IsHandle(s, x.valueVector)
  }

  /** The object of handle i, if it is of the kind that is being written. */
  method WriteNext(s: State, m: nat, i: int, sink: Sink, ghost base: bytes)
    requires Good(s) && m < 6 && IsHandle(s, i)
    requires sink.data == base + Join(WrittenObjects(s, m, i)) && |sink.data| % 4 == 0
    modifies sink
    ensures sink.data == base + Join(WrittenObjects(s, m, i + 1)) && |sink.data| % 4 == 0
  {
    hide Good, GoodValue, WrittenObjects, Object, KindOf, Join, Pad;
    WrittenStep(s, m, i);
    IsGood(s, i);
    assert KINDS[m] != InWord;
    if KindOf(s.values[i]) == KINDS[m] {
      StartsAppend(WrittenObjects(s, m, i), Pad(Object(s, i)));
      Regroup(base, Join(WrittenObjects(s, m, i)), Pad(Object(s, i)));
      WriteObject(s, i, sink);
    }
  }

  /** Writes the objects of the values of one kind. */
  method WriteHeap(s: State, m: nat, n: nat, sink: Sink, ghost base: bytes)
    requires Good(s) && m < 6 && n == |s.values|
    requires sink.data == base + Join(WrittenObjects(s, m, 0)) && |sink.data| % 4 == 0
    modifies sink
    ensures sink.data == base + Join(WrittenObjects(s, m, n)) && |sink.data| % 4 == 0
  {
    hide Good, WrittenObjects, Join;
    for i := 0 to n
      invariant sink.data == base + Join(WrittenObjects(s, m, i)) && |sink.data| % 4 == 0
    {
      WriteNext(s, m, i, sink, base);
    }
  }

  lemma WrittenStart(s: State)
    requires Good(s)
    ensures WrittenObjects(s, 0, 0) == [] && OffsetTable([]) == [] && Counted(s, 0, 0, 0)
  {
    hide Good;
    assert Starts([]) == [];
  }

  lemma WrittenNext(s: State, m: nat)
    requires Good(s) && m < 5
    ensures WrittenObjects(s, m + 1, 0) == WrittenObjects(s, m, |s.values|)
  {
    WrittenEnd(s, m);
    hide Good, ByKind;
  }

  lemma CountNext(s: State, m: nat, current: nat)
    requires Good(s) && m < 5 && Counted(s, m, |s.values|, current)
    ensures Counted(s, m + 1, 0, current) && WrittenObjects(s, m + 1, 0) == WrittenObjects(s, m, |s.values|)
  {
    WrittenNext(s, m);
    hide Good, WrittenObjects, Sized;
  }

  /** The offset tables, all kinds in turn. */
  method WriteAllOffsets(s: State, n: nat, sink: Sink)
    requires Good(s) && n == |s.values| && |sink.data| % 4 == 0
    modifies sink
    ensures |sink.data| % 4 == 0 && (Sized(s) ==> sink.data == old(sink.data) + OffsetTable(HeapObjects(s)))
  {
    ghost var header := sink.data;
    WrittenStart(s);
    WrittenEnd(s, 5);
    hide Good, Sized, WrittenObjects, OffsetTable, Counted;
    var current := WriteOffsets(s, 0, n, 0, sink, header);
    CountNext(s, 0, current);
    current := WriteOffsets(s, 1, n, current, sink, header);
    CountNext(s, 1, current);
    current := WriteOffsets(s, 2, n, current, sink, header);
    CountNext(s, 2, current);
    current := WriteOffsets(s, 3, n, current, sink, header);
    CountNext(s, 3, current);
    current := WriteOffsets(s, 4, n, current, sink, header);
    CountNext(s, 4, current);
    current := WriteOffsets(s, 5, n, current, sink, header);
  }

  /** The heap, all kinds in turn. */
  method WriteAllHeap(s: State, n: nat, sink: Sink)
    requires Good(s) && n == |s.values| && |sink.data| % 4 == 0
    modifies sink
    ensures sink.data == old(sink.data) + Join(HeapObjects(s))
  {
    ghost var base := sink.data;
    WrittenStart(s);
    WrittenEnd(s, 5);
    hide Good, WrittenObjects;
    WriteHeap(s, 0, n, sink, base);
    WrittenNext(s, 0);
    WriteHeap(s, 1, n, sink, base);
    WrittenNext(s, 1);
    WriteHeap(s, 2, n, sink, base);
    WrittenNext(s, 2);
    WriteHeap(s, 3, n, sink, base);
    WrittenNext(s, 3);
    WriteHeap(s, 4, n, sink, base);
    WrittenNext(s, 4);
    WriteHeap(s, 5, n, sink, base);
  }

  lemma BufferIs(s: State, root: int)
    requires Good(s) && IsHandle(s, root)
    ensures Serialized(s, root) == Join(Words(4, HeaderWords(s, root))) + OffsetTable(HeapObjects(s)) + Join(HeapObjects(s))
  {
    hide Good, HeapObjects, Join, Words, HeaderWords, Starts;
  }

  /** The whole buffer of a prepared state: when every size is in range, the offsets lead to the objects. */
  method WriteBuffer(s: State, root: int, n: nat) returns (out: bytes)
    requires Good(s) && IsHandle(s, root) && n == |s.values|
    ensures Sized(s) ==> out == Serialized(s, root)
  {
    ghost var front, table, heap := Join(Words(4, HeaderWords(s, root))), OffsetTable(HeapObjects(s)), Join(HeapObjects(s));
    assert HEADER_SIZE % 4 == 0;
    BufferIs(s, root);
    hide *;
    var sink := new Sink();
    WriteHeader(s, root, sink);
    assert sink.data == front;
    WriteAllOffsets(s, n, sink);
    assert Sized(s) ==> sink.data == front + table;
    WriteAllHeap(s, n, sink);
    assert Sized(s) ==> sink.data == front + table + heap;
    out := sink.data;
  }
}

/**
  Validation accepts what the library writes: every value of a written buffer passes, so that the first pass
  only ever turns such a buffer down for a chain of values that is too long.
 */
module WrittenPasses {
  import opened Wrappers
  import opened PowersOfTwo
  import opened Bitvector
  import opened Unfolding
  import opened Values
  import opened CreateState
  import opened Bytes
  import opened Heap
  import opened Reader
  import opened ReadBack
  import opened Tables
  import opened LaidOutTables
  import opened WrittenLookup
  import opened WrittenBuffers
  import opened Validate

  // ---- the place of an object ----

  /** The object stands where the offset tables say, and ends within the heap. */
  ghost predicate StandsAt(buf: bytes, i: nat, obj: bytes) {
    && Opens(buf) && i < ObjectCount(buf) && IsAt(buf, ObjectAt(buf, i), obj)
    && forall n: nat :: n <= |obj| ==> FitsHeap(buf, OffsetOf(buf, i), n)
  }

  lemma Extent(buf: bytes, i: nat, obj: bytes)
    requires Opens(buf) && i < ObjectCount(buf) && IsAt(buf, ObjectAt(buf, i), obj) && HeapLength(buf) < 0x1_0000_0000_0000_0000
    ensures StandsAt(buf, i, obj)
  {
    hide Word, Opens;
  }

  /** buf is what the library writes for a prepared state. */
  ghost predicate IsWritten(t: State, root: int, buf: bytes) {
    Writable(t) && IsHandle(t, root) && buf == Serialized(t, root) && Opens(buf)
  }

  lemma HeapLengthWritten(t: State, root: int, buf: bytes)
    requires IsWritten(t, root, buf)
    ensures Opens(buf) && HeapLength(buf) < 0x1_0000_0000_0000_0000
  {
    hide *;
    WrittenFacts(t, root, buf);
    SizedHeap(t, root);
    HeaderReads(t, root);
    SerializedIs(t, root);
    FrontLengths(HeaderWords(t, root), HeapObjects(t));
    HeapRest(buf, |HeapObjects(t)|, |Join(HeapObjects(t))|);
  }

  lemma WrittenFacts(t: State, root: int, buf: bytes)
    requires IsWritten(t, root, buf)
    ensures Writable(t) && Good(t) && Sized(t) && TablesMade(t) && IsHandle(t, root) && buf == Serialized(t, root) && Opens(buf)
  {
  }

  lemma HeapRest(buf: bytes, n: nat, size: nat)
    requires Opens(buf) && ObjectCount(buf) == n && |buf| == HEADER_SIZE + 8 * n + size
    ensures HeapLength(buf) == size
  {
    hide ObjectCount, Opens;
  }

  /** The handle of a value that stands on the heap. */
  predicate IsHeapHandle(t: State, h: int) {
    IsHandle(t, h) && KindOf(t.values[h]) != InWord
  }

  lemma TableIndexWritten(t: State, root: int, buf: bytes, h: int)
    requires IsWritten(t, root, buf) && IsHeapHandle(t, h)
    ensures Opens(buf) && IsHandle(t, h) && GoodValue(t, h)
    ensures ReferenceOk(buf, ToRead(t, h)) && !IsInline(ToRead(t, h).typ)
    ensures TableIndex(buf, ToRead(t, h)) == FirstIndex(t, KindOf(t.values[h])) + t.values[h].data
  {
    hide *;
    HeapHandle(t, h);
    WrittenFacts(t, root, buf);
    HeaderReads(t, root);
    IndexInRange(t, h);
    IndexByCounts(t, buf, h);
  }

  /** The data word of a value that stands on the heap is an index of the table of its kind. */
  predicate IndexFits(t: State, v: CValue) {
    match KindOf(v)
    case InWord => false
    case TextBuffer => v.data < |t.texts| && !v.outside
    case BitBuffer => v.data < |t.bitvectors| && !v.outside
    case OutsideVector => v.data < |t.outside|
    case PrivateVector => v.data < |t.priv|
    case SetTable => v.data < |t.sets| && !v.outside
    case MapTable => v.data < |t.maps| && !v.outside
  }

  lemma IndexInRange(t: State, h: int)
    requires Good(t) && IsHandle(t, h)
    ensures GoodValue(t, h)
    ensures KindOf(t.values[h]) != InWord ==> IndexFits(t, t.values[h])
  {
    assert GoodValue(t, h);
    hide GoodItems, GoodSet, GoodMap, ValidText, ValidBits;
  }

  lemma IndexByCounts(t: State, buf: bytes, h: int)
    requires IsHandle(t, h) && Opens(buf)
    requires TextCount(buf) == |t.texts| && VectorCount(buf) == |t.priv| + |t.outside| && BitvectorCount(buf) == |t.bitvectors|
    requires SetCount(buf) == |t.sets| && MapCount(buf) == |t.maps|
    requires IndexFits(t, t.values[h])
    ensures ReferenceOk(buf, ToRead(t, h)) && !IsInline(ToRead(t, h).typ)
    ensures TableIndex(buf, ToRead(t, h)) == FirstIndex(t, KindOf(t.values[h])) + t.values[h].data
  {
    hide Opens, TextCount, VectorCount, BitvectorCount, SetCount, MapCount;
  }

  /** The value has an object of its own, which stands on the heap. */
  ghost predicate Stands(t: State, buf: bytes, h: int, r: RValue, obj: bytes) {
    && IsHandle(t, h) && GoodValue(t, h) && r == ToRead(t, h) && obj == Object(t, h)
    && Opens(buf) && ReferenceOk(buf, r) && !IsInline(r.typ) && StandsAt(buf, TableIndex(buf, r), obj)
  }

  lemma HeapHandle(t: State, h: int)
    requires IsHeapHandle(t, h)
    ensures IsHandle(t, h) && 0 <= h < |t.values| && KindOf(t.values[h]) != InWord
  {
  }

  lemma StandsFrom(t: State, buf: bytes, h: int)
    requires IsHandle(t, h) && GoodValue(t, h) && Opens(buf) && ReferenceOk(buf, ToRead(t, h)) && !IsInline(ToRead(t, h).typ)
    requires StandsAt(buf, TableIndex(buf, ToRead(t, h)), Object(t, h))
    ensures Stands(t, buf, h, ToRead(t, h), Object(t, h))
  {
    hide GoodValue, Opens, ReferenceOk, ToRead, IsInline, StandsAt, TableIndex, Object;
  }

  lemma ObjectStands(t: State, root: int, buf: bytes, h: int) returns (r: RValue, obj: bytes)
    requires IsWritten(t, root, buf) && IsHeapHandle(t, h)
    ensures Stands(t, buf, h, r, obj)
  {
    hide *;
    HeapHandle(t, h);
    WrittenFacts(t, root, buf);
    TableIndexWritten(t, root, buf, h);
    r, obj := ToRead(t, h), Object(t, h);
    HeapLengthWritten(t, root, buf);
    ObjectReads(t, root, h);
    Extent(buf, TableIndex(buf, r), obj);
    StandsFrom(t, buf, h);
  }

  // ---- the heap checks, one kind of object at a time ----

  lemma VectorStands(t: State, v: CValue, buf: bytes, i: nat)
    requires IsHeapVector(v.typ) && StandsAt(buf, i, VectorBytes(t, v)) && |ItemsOf(t, v)| < 0x1_0000_0000
    ensures VectorHeapOk(buf, v.typ, i) && Word(buf, ObjectAt(buf, i), 4) == |ItemsOf(t, v)|
  {
    hide FitsHeap, OffsetOf, ObjectAt, IsAt, Word, ItemBytes, Opens, ObjectCount;
    assert VectorBytes(t, v) == VectorBytes(t, v) + [];
    CountedRow(buf, ObjectAt(buf, i), ItemsBytes(t, v), Width(v.typ), []);
  }

  lemma TextStands(typ: u32, x: Text, buf: bytes, i: nat)
    requires IsText(typ) && ValidText(typ, x) && StandsAt(buf, i, TextBytes(x))
    ensures TextHeapOk(buf, CharWidth(x), i)
  {
    hide *;
    StandsFacts(buf, i, TextBytes(x));
    var at, w, n, row := ObjectAt(buf, i), CharWidth(x), |x.chars|, Join(CharBytes(x));
    TextParts(typ, x);
    CountedRow(buf, at, CharBytes(x), w, LittleEndian(w, 0));
    RowIsChars(x, buf, at + 4);
    PartOf(buf, at, LittleEndian(4, n) + row, LittleEndian(w, 0), []);
    WordReads(buf, at + 4 + w * n, w, 0);
    TextChecked(buf, w, i, x.chars, TextBytes(x));
  }

  lemma StandsFacts(buf: bytes, i: nat, obj: bytes)
    requires StandsAt(buf, i, obj)
    ensures Opens(buf) && i < ObjectCount(buf) && IsAt(buf, ObjectAt(buf, i), obj)
  {
  }

  lemma TextParts(typ: u32, x: Text)
    requires IsText(typ) && ValidText(typ, x)
    ensures TextBytes(x) == LittleEndian(4, |x.chars|) + Join(CharBytes(x)) + LittleEndian(CharWidth(x), 0)
    ensures TextBytes(x) == LittleEndian(4, |x.chars|) + Join(CharBytes(x)) + LittleEndian(CharWidth(x), 0) + []
    ensures |x.chars| < 0x1_0000_0000 && 0 !in x.chars && (CharWidth(x) == 1 || CharWidth(x) == 4) && 0 < WordRange(CharWidth(x))
    ensures forall i :: 0 <= i < |x.chars| ==> x.chars[i] < WordRange(CharWidth(x))
  {
    WordRanges();
    hide LittleEndian, Join, WordRange;
  }

  lemma TextChecked(buf: bytes, w: nat, i: nat, chars: seq<u32>, obj: bytes)
    requires StandsAt(buf, i, obj) && (w == 1 || w == 4) && |obj| == 4 + w * |chars| + w && 0 !in chars
    requires var at := ObjectAt(buf, i);
      && Within(buf, at, 4) && Word(buf, at, 4) == |chars| && CharsAt(buf, w, at + 4, |chars|) == chars
      && Word(buf, at + 4 + w * |chars|, w) == 0
    ensures TextHeapOk(buf, w, i)
  {
    hide FitsHeap, OffsetOf, Opens, ObjectCount, ObjectAt, IsAt, Word;
    TextEnds(w, |chars|);
  }

  lemma TextEnds(w: nat, n: nat)
    ensures 4 + (n + 1) * w == 4 + w * n + w
  {
  }

  lemma BitsStand(b: RawBitvector, buf: bytes, i: nat)
    requires ValidBits(b) && StandsAt(buf, i, LittleEndian(4, b.n) + b.bytes)
    ensures BitvectorHeapOk(buf, i)
  {
    hide FitsHeap, OffsetOf, Opens, ObjectCount, ObjectAt, IsAt, Word;
    var at := ObjectAt(buf, i);
    assert LittleEndian(4, b.n) + b.bytes == [] + LittleEndian(4, b.n) + b.bytes;
    PartOf(buf, at, [], LittleEndian(4, b.n), b.bytes);
    WordRanges();
    WordReads(buf, at, 4, b.n);
  }

  // ---- the checks on a value, one kind at a time ----

  /** A value that stands on the heap and passes. */
  ghost predicate HeapPasses(buf: bytes, r: RValue) {
    Opens(buf) && ReferenceOk(buf, r) && HeapOk(buf, r)
  }

  lemma VectorPasses(t: State, buf: bytes, h: int, r: RValue, obj: bytes)
    requires Stands(t, buf, h, r, obj) && IsHeapVector(r.typ) && |ItemsOf(t, t.values[h])| < 0x1_0000_0000
    ensures HeapPasses(buf, r) && Word(buf, ObjectAt(buf, TableIndex(buf, r)), 4) == |ItemsOf(t, t.values[h])|
  {
    hide GoodValue, VectorBytes, ReferenceOk, StandsAt, Opens, TableIndex, VectorHeapOk, ObjectAt, Word, ItemsOf;
    VectorStands(t, t.values[h], buf, TableIndex(buf, r));
  }

  lemma TextPasses(t: State, buf: bytes, h: int, r: RValue, obj: bytes)
    requires Stands(t, buf, h, r, obj) && IsText(r.typ)
    ensures HeapPasses(buf, r)
  {
    hide TextBytes, ReferenceOk, StandsAt, Opens, TableIndex, TextHeapOk;
    TextStands(r.typ, t.texts[t.values[h].data], buf, TableIndex(buf, r));
  }

  lemma BitsPass(t: State, buf: bytes, h: int, r: RValue, obj: bytes)
    requires Stands(t, buf, h, r, obj) && r.typ == BITVECTOR
    ensures HeapPasses(buf, r)
  {
    hide LittleEndian, ReferenceOk, StandsAt, Opens, TableIndex, BitvectorHeapOk;
    BitsStand(t.bitvectors[t.values[h].data], buf, TableIndex(buf, r));
  }

  /** The header of set or map h, with the vectors it points to. */
  ghost predicate HeaderStands(t: State, buf: bytes, h: int, r: RValue) {
    && Opens(buf) && ReferenceOk(buf, r) && !IsInline(r.typ)
    && if r.typ == SET_VALUE then
         && IsHandle(t, h - 2) && IsHandle(t, h - 1)
         && SetHeaderAt(buf, ObjectAt(buf, TableIndex(buf, r)), ToRead(t, h - 2), ToRead(t, h - 1))
       else
         && IsHandle(t, h - 3) && IsHandle(t, h - 2) && IsHandle(t, h - 1)
         && MapHeaderAt(buf, ObjectAt(buf, TableIndex(buf, r)), ToRead(t, h - 3), ToRead(t, h - 2), ToRead(t, h - 1))
  }

  lemma PartFits(t: State, p: int)
    requires Writable(t) && IsHandle(t, p)
    ensures ToRead(t, p).data < 0x1_0000_0000 && ToRead(t, p).typ == t.values[p].typ
  {
    ToReadFits(t, p);
  }

  lemma TableParts(t: State, h: int)
    requires Writable(t) && KeysMarked(t) && IsTable(t, h)
    ensures IsHandle(t, h - 1) && IsHandle(t, h - 2) && t.values[KeyPartOf(t, h)].typ == VECTOR_VALUE_HASHABLE
    ensures KindOf(t.values[h]) == SetTable ==> t.values[h - 2].typ == VECTOR_U32 && KeyPartOf(t, h) == h - 1
    ensures KindOf(t.values[h]) == MapTable ==>
      IsHandle(t, h - 3) && t.values[h - 3].typ == VECTOR_U32 && KeyPartOf(t, h) == h - 2 && IsValueVector(t.values[h - 1].typ)
  {
    PartTypes(t, h);
    hide Writable;
  }

  lemma SetPasses(t: State, buf: bytes, h: int, r: RValue, obj: bytes)
    requires Writable(t) && KeysMarked(t) && Stands(t, buf, h, r, obj) && r.typ == SET_VALUE
    ensures HeapPasses(buf, r) && HeaderStands(t, buf, h, r)
  {
    hide Writable, KeysMarked, ReferenceOk, Opens, TableIndex, SetHeapOk, FitsHeap, OffsetOf, ObjectCount, ObjectAt, IsAt, ValueAt, LittleEndian, GoodSet;
    TableParts(t, h);
    PartFits(t, h - 2);
    PartFits(t, h - 1);
    var i := TableIndex(buf, r);
    SetReadsAt(t, h, buf, ObjectAt(buf, i));
    SetStands(buf, i, obj, ToRead(t, h - 2), ToRead(t, h - 1));
  }

  lemma MapPasses(t: State, buf: bytes, h: int, r: RValue, obj: bytes)
    requires Writable(t) && KeysMarked(t) && Stands(t, buf, h, r, obj) && r.typ == MAP_VALUE_VALUE
    ensures HeapPasses(buf, r) && HeaderStands(t, buf, h, r)
  {
    hide Writable, KeysMarked, ReferenceOk, Opens, TableIndex, MapHeapOk, FitsHeap, OffsetOf, ObjectCount, ObjectAt, IsAt, ValueAt, LittleEndian, GoodMap;
    TableParts(t, h);
    PartFits(t, h - 3);
    PartFits(t, h - 2);
    PartFits(t, h - 1);
    var i := TableIndex(buf, r);
    MapReadsAt(t, h, buf, ObjectAt(buf, i));
    MapStands(buf, i, obj, ToRead(t, h - 3), ToRead(t, h - 2), ToRead(t, h - 1));
  }

  lemma SetStands(buf: bytes, i: nat, obj: bytes, hash: RValue, key: RValue)
    requires StandsAt(buf, i, obj) && |obj| == 24 && SetHeaderAt(buf, ObjectAt(buf, i), hash, key)
    requires hash.typ == VECTOR_U32 && key.typ == VECTOR_VALUE_HASHABLE
    ensures SetHeapOk(buf, i)
  {
    hide FitsHeap, OffsetOf, Opens, ObjectCount, ObjectAt, IsAt, Word;
  }

  lemma MapStands(buf: bytes, i: nat, obj: bytes, hash: RValue, key: RValue, value: RValue)
    requires StandsAt(buf, i, obj) && |obj| == 32 && MapHeaderAt(buf, ObjectAt(buf, i), hash, key, value)
    requires hash.typ == VECTOR_U32 && key.typ == VECTOR_VALUE_HASHABLE && IsValueVector(value.typ)
    ensures MapHeapOk(buf, i)
  {
    hide FitsHeap, OffsetOf, Opens, ObjectCount, ObjectAt, IsAt, Word;
  }

  lemma WordsFitValue(t: State, h: int)
    requires Writable(t) && IsHandle(t, h)
    ensures GoodValue(t, h) && ToRead(t, h).typ == t.values[h].typ && InlineOk(ToRead(t, h))
    ensures |ItemsOf(t, t.values[h])| < 0x1_0000_0000 || !IsHeapVector(t.values[h].typ)
  {
    hide *;
    GoodWritten(t);
    ToReadFits(t, h);
    SizedHeap(t, h);
    CleanWritten(t, h);
    ItemsFit(t, h);
  }

  lemma CleanWritten(t: State, h: int)
    requires IsHandle(t, h) && GoodValue(t, h) && ToRead(t, h).data < 0x1_0000_0000
    ensures ToRead(t, h).typ == t.values[h].typ && InlineOk(ToRead(t, h))
  {
    hide GoodItems, GoodSet, GoodMap, ValidText, ValidBits;
  }

  lemma ItemsFit(t: State, h: int)
    requires Good(t) && Sized(t) && IsHandle(t, h)
    ensures 0 <= h < |t.values| && (|ItemsOf(t, t.values[h])| < 0x1_0000_0000 || !IsHeapVector(t.values[h].typ))
  {
    assert SizedValue(t, t.values[h]);
    hide Good, Sized, ItemsOf;
    if IsHeapVector(t.values[h].typ) {
      FactorFits(|ItemsOf(t, t.values[h])|, Width(t.values[h].typ), 0x1_0000_0000);
    }
  }

  /** Whatever the library writes, the first pass has nothing to say against. */
  lemma WrittenValuePasses(t: State, root: int, buf: bytes, h: int)
    requires IsWritten(t, root, buf) && KeysMarked(t) && IsHandle(t, h)
    ensures Opens(buf) && Passes(buf, ToRead(t, h))
  {
    WrittenFacts(t, root, buf);
    hide Writable, KeysMarked, Good, Opens, IsWritten, Serialized, ReferenceOk, HeapOk, Stands, ItemsOf, HeaderStands, InlineOk, Sized, TablesMade;
    WordsFitValue(t, h);
    if KindOf(t.values[h]) == InWord {
      InWordPasses(t, buf, h);
    } else {
      var r, obj := ObjectStands(t, root, buf, h);
      StandingPasses(t, buf, h, r, obj);
    }
  }

  lemma InWordPasses(t: State, buf: bytes, h: int)
    requires Opens(buf) && IsHandle(t, h) && GoodValue(t, h) && KindOf(t.values[h]) == InWord
    ensures ReferenceOk(buf, ToRead(t, h)) && HeapOk(buf, ToRead(t, h))
  {
    hide Opens, TextCount, VectorCount, BitvectorCount, SetCount, MapCount;
  }

  lemma StandingPasses(t: State, buf: bytes, h: int, r: RValue, obj: bytes)
    requires Writable(t) && KeysMarked(t) && Stands(t, buf, h, r, obj)
    ensures r == ToRead(t, h) && HeapPasses(buf, r)
  {
    assert IsHandle(t, h) && r == ToRead(t, h) && GoodValue(t, h);
    WordsFitValue(t, h);
    hide Writable, KeysMarked, Stands, HeapPasses, ItemsOf, HeaderStands, ToRead, InlineOk;
    StandingType(t, buf, h, r, obj);
    if IsHeapVector(r.typ) { VectorPasses(t, buf, h, r, obj); }
    else if IsText(r.typ) { TextPasses(t, buf, h, r, obj); }
    else if r.typ == BITVECTOR { BitsPass(t, buf, h, r, obj); }
    else if r.typ == SET_VALUE { SetPasses(t, buf, h, r, obj); }
    else { MapPasses(t, buf, h, r, obj); }
  }

  lemma StandingType(t: State, buf: bytes, h: int, r: RValue, obj: bytes)
    requires Stands(t, buf, h, r, obj)
    ensures IsHeapVector(r.typ) || IsText(r.typ) || r.typ == BITVECTOR || r.typ == SET_VALUE || r.typ == MAP_VALUE_VALUE
  {
    hide Opens;
  }

  // ---- what is reached from written values ----

  /** What the walk goes on to from handle h: the items of a vector of values, the vectors of a set or map. */
  function WrittenChildren(t: State, h: int): (r: seq<RValue>)
    requires IsHandle(t, h)
  {
    var v := t.values[h];
    if IsValueVector(v.typ) then AllToRead(t, ItemsOf(t, v))
    else if v.typ == SET_VALUE then AllToRead(t, [h - 2, h - 1])
    else if v.typ == MAP_VALUE_VALUE then AllToRead(t, [h - 3, h - 2, h - 1])
    else []
  }

  function AllToRead(t: State, hs: seq<int>): (r: seq<RValue>)
    ensures |r| == |hs| && forall i :: 0 <= i < |hs| ==> r[i] == if IsHandle(t, hs[i]) then ToRead(t, hs[i]) else RValue(0, 0)
  {
    seq(|hs|, i requires 0 <= i < |hs| => if IsHandle(t, hs[i]) then ToRead(t, hs[i]) else RValue(0, 0))
  }

  lemma VectorChildren(buf: bytes, r: RValue, items: seq<RNode>)
    requires Opens(buf) && Passes(buf, r) && IsValueVector(r.typ) && ReadsVector(buf, r, items)
    ensures |Children(buf, r)| == |items| && forall i :: 0 <= i < |items| ==> items[i] == Ref(Children(buf, r)[i])
  {
    var at := ObjectAt(buf, TableIndex(buf, r));
    assert VectorHeapOk(buf, r.typ, TableIndex(buf, r));
    var n := Word(buf, at, 4);
    assert Children(buf, r) == ItemValues(buf, at + 4, n);
    hide Word, ObjectAt, Passes, Children, Opens, ReferenceOk, HeapOk, InlineOk, TextCount, VectorCount;
  }

  lemma VectorChildrenWritten(t: State, root: int, buf: bytes, h: int)
    requires IsWritten(t, root, buf) && IsHandle(t, h) && IsValueVector(t.values[h].typ) && Opens(buf) && Passes(buf, ToRead(t, h))
    ensures Children(buf, ToRead(t, h)) == WrittenChildren(t, h)
  {
    hide Writable, Good, Opens, Passes, Children, ToRead, ReadsVector, Serialized, ItemsOf, WritableItem;
    WrittenFacts(t, root, buf);
    VectorValueReads(t, root, h);
    PartType(t, h);
    ItemsWritable(t, h);
    var v, items := t.values[h], ItemsOf(t, t.values[h]);
    VectorChildren(buf, ToRead(t, h), ReadItems(t, v));
    forall i | 0 <= i < |items| ensures Children(buf, ToRead(t, h))[i] == AllToRead(t, items)[i] {
      ItemIsHandle(t, v, items[i]);
    }
  }

  lemma ItemIsHandle(t: State, v: CValue, item: int)
    requires IsValueVector(v.typ) && WritableItem(t, v, item)
    ensures IsHandle(t, item) && ReadItem(t, v, item) == Ref(ToRead(t, item))
  {
  }

  lemma PartType(t: State, p: int)
    requires IsHandle(t, p)
    ensures ToRead(t, p).typ == t.values[p].typ
  {
  }

  lemma TableChildrenWritten(t: State, buf: bytes, h: int, r: RValue)
    requires Opens(buf) && Passes(buf, r) && HeaderStands(t, buf, h, r) && IsHandle(t, h) && r == ToRead(t, h)
    requires r.typ == SET_VALUE || r.typ == MAP_VALUE_VALUE
    ensures Children(buf, r) == WrittenChildren(t, h)
  {
    hide Opens, Passes, ReferenceOk, TableIndex, ObjectAt, ValueAt;
  }

  lemma LeafChildrenWritten(t: State, buf: bytes, h: int)
    requires IsHandle(t, h) && Opens(buf) && Passes(buf, ToRead(t, h))
    requires !IsValueVector(t.values[h].typ) && t.values[h].typ != SET_VALUE && t.values[h].typ != MAP_VALUE_VALUE
    ensures Children(buf, ToRead(t, h)) == WrittenChildren(t, h) == []
  {
    hide Opens, Passes;
  }

  /** The walk goes on to just what a vector, set or map was written with. */
  lemma ChildrenWritten(t: State, root: int, buf: bytes, h: int)
    requires IsWritten(t, root, buf) && KeysMarked(t) && IsHandle(t, h)
    ensures Opens(buf) && Passes(buf, ToRead(t, h)) && Children(buf, ToRead(t, h)) == WrittenChildren(t, h)
  {
    hide *;
    WrittenFacts(t, root, buf);
    WrittenValuePasses(t, root, buf, h);
    HandleType(t, h);
    if IsValueVector(t.values[h].typ) {
      VectorChildrenWritten(t, root, buf, h);
    } else if t.values[h].typ == SET_VALUE || t.values[h].typ == MAP_VALUE_VALUE {
      TableOnHeap(t, h);
      var r, obj := ObjectStands(t, root, buf, h);
      TableHeaderStands(t, buf, h, r, obj);
      TableChildrenWritten(t, buf, h, r);
    } else {
      LeafChildrenWritten(t, buf, h);
    }
  }

  lemma HandleType(t: State, h: int)
    requires IsHandle(t, h)
    ensures 0 <= h < |t.values| && ToRead(t, h).typ == t.values[h].typ
  {
  }

  lemma TableOnHeap(t: State, h: int)
    requires IsHandle(t, h) && (t.values[h].typ == SET_VALUE || t.values[h].typ == MAP_VALUE_VALUE)
    ensures IsHeapHandle(t, h)
  {
  }

  lemma TableHeaderStands(t: State, buf: bytes, h: int, r: RValue, obj: bytes)
    requires Writable(t) && KeysMarked(t) && Stands(t, buf, h, r, obj)
    requires IsHandle(t, h) && (t.values[h].typ == SET_VALUE || t.values[h].typ == MAP_VALUE_VALUE)
    ensures HeaderStands(t, buf, h, r) && r == ToRead(t, h)
  {
    HandleType(t, h);
    hide Writable, KeysMarked, HeaderStands, GoodValue, Opens, ToRead, StandsAt, ReferenceOk, Object;
    if r.typ == SET_VALUE { SetPasses(t, buf, h, r, obj); } else { MapPasses(t, buf, h, r, obj); }
  }

  /** A set or map keeps its vectors beside it, and a vector of values holds handles. */
  lemma ChildrenAreWritten(t: State, h: int, k: RValue)
    requires Writable(t) && KeysMarked(t) && IsHandle(t, h) && k in WrittenChildren(t, h)
    ensures k in WrittenValues(t)
  {
    hide *;
    HandleType(t, h);
    if IsValueVector(t.values[h].typ) {
      ItemsAreWritten(t, h, k);
    } else {
      TableOfChild(t, h, k);
      TableParts(t, h);
      PartsAreWritten(t, h, k);
    }
  }

  lemma ItemsAreWritten(t: State, h: int, k: RValue)
    requires Writable(t) && IsHandle(t, h) && IsValueVector(t.values[h].typ) && k in WrittenChildren(t, h)
    ensures k in WrittenValues(t)
  {
    var v := t.values[h];
    ItemsWritable(t, h);
    hide Writable, ToRead, WrittenValues, ItemsOf;
    var i :| 0 <= i < |ItemsOf(t, v)| && k == AllToRead(t, ItemsOf(t, v))[i];
    assert WritableItem(t, v, ItemsOf(t, v)[i]);
    InWritten(t, ItemsOf(t, v)[i]);
  }

  lemma TableOfChild(t: State, h: int, k: RValue)
    requires Writable(t) && IsHandle(t, h) && !IsValueVector(t.values[h].typ) && k in WrittenChildren(t, h)
    ensures IsTable(t, h)
  {
    assert GoodValue(t, h);
    hide Good;
  }

  lemma PartsAreWritten(t: State, h: int, k: RValue)
    requires IsTable(t, h) && IsHandle(t, h) && IsHandle(t, h - 1) && IsHandle(t, h - 2) && k in WrittenChildren(t, h)
    requires KindOf(t.values[h]) == MapTable ==> IsHandle(t, h - 3)
    ensures k in WrittenValues(t)
  {
    hide ToRead, WrittenValues;
    InWritten(t, h - 1);
    InWritten(t, h - 2);
    if t.values[h].typ == MAP_VALUE_VALUE { InWritten(t, h - 3); }
  }

  /** All that can be reached from the root of a written buffer was written for a handle, and passes. */
  lemma ReachableIsWritten(t: State, root: int, buf: bytes, r: RValue)
    requires IsWritten(t, root, buf) && KeysMarked(t) && Opens(buf) && ReachableFrom(buf, Root(buf), r)
    ensures r in WrittenValues(t) && Passes(buf, r)
  {
    WrittenFacts(t, root, buf);
    HeaderReads(t, root);
    hide Writable, Good, KeysMarked, Opens, IsWritten, Passes, Children, Serialized, Root, ToRead;
    var T := iset r | r in WrittenValues(t);
    InWritten(t, root);
    forall r | r in T ensures Passes(buf, r) && forall k :: k in Children(buf, r) ==> k in T {
      var h :| IsHandle(t, h) && r == ToRead(t, h);
      ChildrenWritten(t, root, buf, h);
      forall k | k in Children(buf, r) ensures k in T {
        ChildrenAreWritten(t, h, k);
      }
    }
    assert ClosedSet(buf, T);
    assert r in T;
  }

  /** The first pass over a written buffer finds no value to refuse: it succeeds, or some chain of values is too long. */
  method ValidateWritten(ghost t: State, ghost root: int, buf: bytes) returns (error: Verdict)
    requires IsWritten(t, root, buf) && KeysMarked(t)
    ensures Opens(buf) && (error == NoError || (error == TooDeep && exists path :: IsPath(buf, Root(buf), path) && |path| == 513))
  {
    WrittenFacts(t, root, buf);
    hide Writable, Good, KeysMarked, Opens, IsWritten, Passes, Children, ReachableFrom, IsPath, Root, WrittenValues;
    ghost var seen, expanded;
    error, seen, expanded := ValidatePass1(buf);
    if error.Refused? {
      ReachableIsWritten(t, root, buf, error.r);
      assert false;
    }
  }
}

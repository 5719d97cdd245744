/**
  The output buffer of a prepared create-state: the bytes of each heap object, the order of the objects, the
  offset tables and the header.
 */
module Heap {
  import opened PowersOfTwo
  import opened Bitvector
  import opened Unfolding
  import opened Values
  import opened CreateState
  import opened Bytes

  const VERSION_64_NEWHASH: u32 := 2
  const HEADER_SIZE: nat := 32

  // ---- values in the buffer ----

  /** A value as it stands in the buffer: vectors owned by the caller are numbered after the library's own. */
  datatype RValue = RValue(typ: u32, data: nat)

  function ToRead(s: State, h: int): RValue
    requires IsHandle(s, h)
  {
    RValue(s.values[h].typ, s.values[h].data + if s.values[h].outside then |s.priv| else 0)
  }

  function ValueBytes(r: RValue): (b: bytes)
    ensures |b| == 8
  {
    LittleEndian(4, r.typ) + LittleEndian(4, r.data)
  }

  // ---- objects ----

  function ItemNumber(s: State, v: CValue, item: int): int {
    if v.compressed && IsHandle(s, item) then IntOf(s.values[item]) else item
  }

  function ItemBytes(s: State, v: CValue, item: int): (b: bytes)
    requires IsHeapVector(v.typ)
    ensures |b| == Width(v.typ)
  {
    if IsNumberVector(v.typ) then LittleEndian(Width(v.typ), Wrap(Range(v.typ), ItemNumber(s, v, item)))
    else if IsHandle(s, item) then ValueBytes(ToRead(s, item))
    else ValueBytes(RValue(0, 0))
  }

  function ItemsBytes(s: State, v: CValue): (parts: seq<bytes>)
    requires IsHeapVector(v.typ)
    ensures |parts| == |ItemsOf(s, v)|
    ensures forall i :: 0 <= i < |parts| ==> parts[i] == ItemBytes(s, v, ItemsOf(s, v)[i]) && |parts[i]| == Width(v.typ)
  {
    seq(|ItemsOf(s, v)|, i requires 0 <= i < |ItemsOf(s, v)| => ItemBytes(s, v, ItemsOf(s, v)[i]))
  }

  function CharBytes(x: Text): (parts: seq<bytes>)
    ensures |parts| == |x.chars| && forall i :: 0 <= i < |parts| ==> parts[i] == LittleEndian(CharWidth(x), x.chars[i])
  {
    seq(|x.chars|, i requires 0 <= i < |x.chars| => LittleEndian(CharWidth(x), x.chars[i]))
  }

  function CharWidth(x: Text): nat {
    if x.Ascii? then 1 else 4
  }

  function TextBytes(x: Text): bytes {
    LittleEndian(4, |x.chars|) + Join(CharBytes(x)) + LittleEndian(CharWidth(x), 0)
  }

  function VectorBytes(s: State, v: CValue): bytes
    requires IsHeapVector(v.typ)
  {
    LittleEndian(4, |ItemsOf(s, v)|) + Join(ItemsBytes(s, v))
  }

  function SetBytes(s: State, x: CSet): bytes
    requires IsHandle(s, x.hashVector) && IsHandle(s, x.keyVector)
  {
    LittleEndian(4, |x.keys|) + LittleEndian(4, 0) + ValueBytes(ToRead(s, x.hashVector)) + ValueBytes(ToRead(s, x.keyVector))
  }

  function MapBytes(s: State, x: CMap): bytes
    requires IsHandle(s, x.hashVector) && IsHandle(s, x.keyVector) && IsHandle(s, x.valueVector)
  {
    LittleEndian(4, |x.keys|) + LittleEndian(4, 0) + ValueBytes(ToRead(s, x.hashVector)) + ValueBytes(ToRead(s, x.keyVector))
    + ValueBytes(ToRead(s, x.valueVector))
  }

  /** What stands on the heap for handle h, before padding. */
  ghost function Object(s: State, h: int): bytes
    requires IsHandle(s, h) && GoodValue(s, h)
  {
    var v := s.values[h];
    match KindOf(v)
    case InWord => []
    case TextBuffer => TextBytes(s.texts[v.data])
    case BitBuffer => LittleEndian(4, s.bitvectors[v.data].n) + s.bitvectors[v.data].bytes
    case OutsideVector => VectorBytes(s, v)
    case PrivateVector => VectorBytes(s, v)
    case SetTable => SetBytes(s, s.sets[v.data])
    case MapTable => MapBytes(s, s.maps[v.data])
  }

  /** The padded object of every handle. */
  ghost function AllObjects(s: State): (parts: seq<bytes>)
    requires Good(s)
    ensures |parts| == |s.values| && forall h :: 0 <= h < |parts| ==> parts[h] == Pad(Object(s, h))
  {
    seq(|s.values|, h requires 0 <= h < |s.values| => Pad(Object(s, h)))
  }

  /** What belongs to the values of one kind among the first n values, in the order of their handles. */
  function Select<T>(values: seq<CValue>, xs: seq<T>, k: Kind, n: nat): seq<T>
    requires n <= |values| == |xs|
  {
    if n == 0 then []
    else Select(values, xs, k, n - 1) + if KindOf(values[n - 1]) == k then [xs[n - 1]] else []
  }

  lemma {:induction false} SelectRanked<T>(values: seq<CValue>, xs: seq<T>, k: Kind, n: nat)
    requires n <= |values| == |xs|
    ensures |Select(values, xs, k, n)| == Rank(values, k, n)
    ensures forall h :: 0 <= h < n && KindOf(values[h]) == k ==>
      Rank(values, k, h) < Rank(values, k, n) && Select(values, xs, k, n)[Rank(values, k, h)] == xs[h]
  {
    if n > 0 {
      SelectRanked(values, xs, k, n - 1);
    }
  }

  /** The order in which the kinds of objects are written. */
  const KINDS: seq<Kind> := [TextBuffer, PrivateVector, OutsideVector, BitBuffer, SetTable, MapTable]

  function Position(k: Kind): (m: nat)
    requires k != InWord
    ensures m < 6 && KINDS[m] == k
  {
    match k
    case TextBuffer => 0
    case PrivateVector => 1
    case OutsideVector => 2
    case BitBuffer => 3
    case SetTable => 4
    case MapTable => 5
  }

  /** What belongs to the values of the first m kinds, one kind after the other. */
  function ByKind<T>(values: seq<CValue>, xs: seq<T>, m: nat): seq<T>
    requires |values| == |xs| && m <= 6
  {
    if m == 0 then [] else ByKind(values, xs, m - 1) + Select(values, xs, KINDS[m - 1], |xs|)
  }

  /** The number of values of the first m kinds. */
  function TotalBefore(values: seq<CValue>, m: nat): nat
    requires m <= 6
  {
    if m == 0 then 0 else TotalBefore(values, m - 1) + Total(values, KINDS[m - 1])
  }

  lemma {:induction false} ByKindLength<T>(values: seq<CValue>, xs: seq<T>, m: nat)
    requires |values| == |xs| && m <= 6
    ensures |ByKind(values, xs, m)| == TotalBefore(values, m)
  {
    if m > 0 {
      ByKindLength(values, xs, m - 1);
      SelectRanked(values, xs, KINDS[m - 1], |xs|);
    }
  }

  lemma {:induction false} ByKindRanked<T>(values: seq<CValue>, xs: seq<T>, m: nat, h: nat)
    requires |values| == |xs| && m <= 6 && h < |xs| && KindOf(values[h]) != InWord
    ensures var k := KindOf(values[h]);
      Position(k) < m ==>
        var i := TotalBefore(values, Position(k)) + Rank(values, k, h);
        i < |ByKind(values, xs, m)| && ByKind(values, xs, m)[i] == xs[h]
  {
    hide Select, Rank, KindOf;
    if m > 0 {
      var front, part := ByKind(values, xs, m - 1), Select(values, xs, KINDS[m - 1], |xs|);
      ByKindLength(values, xs, m - 1);
      ByKindLength(values, xs, m);
      ByKindRanked(values, xs, m - 1, h);
      SelectRanked(values, xs, KINDS[m - 1], |xs|);
      assert ByKind(values, xs, m) == front + part;
    }
  }

  /** The whole heap. */
  ghost function HeapObjects(s: State): seq<bytes>
    requires Good(s)
  {
    ByKind(s.values, AllObjects(s), 6)
  }

  /** The index in the offset tables of the first object of a kind. */
  function FirstIndex(s: State, k: Kind): nat {
    match k
    case InWord => 0
    case TextBuffer => 0
    case PrivateVector => |s.texts|
    case OutsideVector => |s.texts| + |s.priv|
    case BitBuffer => |s.texts| + |s.priv| + |s.outside|
    case SetTable => |s.texts| + |s.priv| + |s.outside| + |s.bitvectors|
    case MapTable => |s.texts| + |s.priv| + |s.outside| + |s.bitvectors| + |s.sets|
  }

  lemma FirstIndexIsTotal(s: State, k: Kind)
    requires Numbered(s) && k != InWord
    ensures FirstIndex(s, k) == TotalBefore(s.values, Position(k))
    ensures TotalBefore(s.values, 6) == FirstIndex(s, MapTable) + |s.maps|
  {
    hide Rank;
    assert TotalBefore(s.values, 1) == |s.texts|;
    assert TotalBefore(s.values, 2) == |s.texts| + |s.priv|;
    assert TotalBefore(s.values, 3) == FirstIndex(s, BitBuffer);
    assert TotalBefore(s.values, 4) == FirstIndex(s, SetTable);
    assert TotalBefore(s.values, 5) == FirstIndex(s, MapTable);
  }

  /** The object of handle h is where its data word says. */
  lemma ObjectIndex(s: State, h: int)
    requires Good(s) && IsHandle(s, h) && KindOf(s.values[h]) != InWord
    ensures var i := FirstIndex(s, KindOf(s.values[h])) + s.values[h].data;
      i < |HeapObjects(s)| && HeapObjects(s)[i] == Pad(Object(s, h))
  {
    hide Object, GoodValue, TotalBefore, ByKind, Rank, FirstIndex, KindOf;
    var k := KindOf(s.values[h]);
    assert s.values[h].data == Rank(s.values, k, h);
    FirstIndexIsTotal(s, k);
    var parts := AllObjects(s);
    ByKindRanked(s.values, parts, 6, h);
  }

  lemma HeapObjectCount(s: State)
    requires Good(s)
    ensures |HeapObjects(s)| == |s.texts| + |s.priv| + |s.outside| + |s.bitvectors| + |s.sets| + |s.maps|
  {
    FirstIndexIsTotal(s, MapTable);
    var parts := AllObjects(s);
    ByKindLength(s.values, parts, 6);
    hide Object, GoodValue, TotalBefore, ByKind, Rank, KindOf;
  }

  // ---- the buffer ----

  /** The eight 32-bit words of the header. */
  function HeaderWords(s: State, root: int): (r: seq<nat>)
    requires IsHandle(s, root)
    ensures |r| == 8
  {
    [ToRead(s, root).typ, ToRead(s, root).data, |s.texts|, |s.priv| + |s.outside|, |s.bitvectors|, |s.sets|, |s.maps|, VERSION_64_NEWHASH]
  }

  function Words(width: nat, xs: seq<nat>): (parts: seq<bytes>)
    ensures |parts| == |xs| && forall i :: 0 <= i < |xs| ==> parts[i] == LittleEndian(width, xs[i]) && |parts[i]| == width
  {
    seq(|xs|, i requires 0 <= i < |xs| => LittleEndian(width, xs[i]))
  }

  /** Where the parts of a heap start. */
  function Starts(parts: seq<bytes>): (r: seq<nat>)
    ensures |r| == |parts| && forall i :: 0 <= i < |parts| ==> r[i] == StartOf(parts, i)
  {
    seq(|parts|, i requires 0 <= i < |parts| => StartOf(parts, i))
  }

  /** Header, offset tables, heap. */
  function Buffer(header: seq<nat>, parts: seq<bytes>): bytes {
    Join(Words(4, header)) + Join(Words(8, Starts(parts))) + Join(parts)
  }

  ghost function Serialized(s: State, root: int): bytes
    requires Good(s) && IsHandle(s, root)
  {
    Buffer(HeaderWords(s, root), HeapObjects(s))
  }

  // ---- sizes ----

  /** Every length fits its 32-bit field and every offset its 64-bit one. */
  ghost predicate Sized(s: State)
    requires Good(s)
  {
    && (forall h :: IsHandle(s, h) ==> SizedValue(s, s.values[h]))
    && |Join(HeapObjects(s))| < 0x1_0000_0000_0000_0000
  }

  ghost predicate SizedValue(s: State, v: CValue) {
    && (IsHeapVector(v.typ) ==> 4 + |ItemsOf(s, v)| * Width(v.typ) < 0x1_0000_0000)
    && (KindOf(v) == SetTable && v.data < |s.sets| ==> |s.sets[v.data].keys| < 0x1_0000_0000)
    && (KindOf(v) == MapTable && v.data < |s.maps| ==> |s.maps[v.data].keys| < 0x1_0000_0000)
  }

  lemma {:induction false} RanksAddUp(values: seq<CValue>, n: nat)
    requires n <= |values|
    ensures Rank(values, TextBuffer, n) + Rank(values, PrivateVector, n) + Rank(values, OutsideVector, n) + Rank(values, BitBuffer, n)
            + Rank(values, SetTable, n) + Rank(values, MapTable, n) <= n
  {
    if n > 0 { RanksAddUp(values, n - 1); }
  }
}

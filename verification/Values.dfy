/**
  The value model shared by creating, writing and reading: type codes, the create-time state as a value, and
  the graph of create-time values.
 */
module Values {
  import opened PowersOfTwo
  import opened Bitvector
  import opened Unfolding

  // ---- type codes ----

  const VECTOR_VALUE: u32 := 0
  const VECTOR_VALUE_HASHABLE: u32 := 1
  const VECTOR_I8: u32 := 2
  const VECTOR_U8: u32 := 3
  const VECTOR_I16: u32 := 4
  const VECTOR_U16: u32 := 5
  const VECTOR_I32: u32 := 6
  const VECTOR_U32: u32 := 7
  const VECTOR_FLOAT: u32 := 8
  const VECTOR_EMPTY: u32 := 9
  const UNICODE: u32 := 10
  const SET_VALUE: u32 := 17
  const MAP_VALUE_VALUE: u32 := 18
  const EMPTY_SLOT: u32 := 19
  const I32: u32 := 20
  const U32: u32 := 21
  const FLOAT: u32 := 22
  const BOOLEAN: u32 := 23
  const NULL: u32 := 24
  const VECTOR_I64: u32 := 25
  const VECTOR_U64: u32 := 26
  const STRING: u32 := 29

  /** Vectors of handles. */
  predicate IsValueVector(t: u32) {
    t == VECTOR_VALUE || t == VECTOR_VALUE_HASHABLE
  }

  /** Vectors of numbers; floats are kept as their 32-bit patterns. */
  predicate IsNumberVector(t: u32) {
    VECTOR_I8 <= t <= VECTOR_FLOAT || t == VECTOR_I64 || t == VECTOR_U64
  }

  predicate IsHeapVector(t: u32) {
    IsValueVector(t) || IsNumberVector(t)
  }

  predicate IsText(t: u32) {
    t == STRING || t == UNICODE
  }

  /** Values that are complete in themselves: type and data word. */
  predicate IsInline(t: u32) {
    t == I32 || t == U32 || t == FLOAT || t == BOOLEAN || t == NULL || t == EMPTY_SLOT || t == VECTOR_EMPTY
    || (IsBitvectorType(t) && t != BITVECTOR)
  }

  /** The data word of an inline value is one the library writes. */
  predicate CleanWord(t: u32, data: nat) {
    && (t == BITVECTOR_PACKED ==> data % 32 <= 27)
    && (t == VECTOR_EMPTY || t == NULL || t == EMPTY_SLOT ==> data == 0)
    && (t == BOOLEAN ==> data <= 1)
  }

  predicate IsKnown(t: u32) {
    IsHeapVector(t) || IsText(t) || IsInline(t) || t == BITVECTOR || t == SET_VALUE || t == MAP_VALUE_VALUE
  }

  /** Bytes of one item on the heap. */
  function Width(t: u32): nat
    requires IsHeapVector(t)
  {
    if IsValueVector(t) then 8
    else if t == VECTOR_I8 || t == VECTOR_U8 then 1
    else if t == VECTOR_I16 || t == VECTOR_U16 then 2
    else if t == VECTOR_I64 || t == VECTOR_U64 then 8
    else 4
  }

  predicate IsSigned(t: u32) {
    t == VECTOR_I8 || t == VECTOR_I16 || t == VECTOR_I32 || t == VECTOR_I64
  }

  /** 2^(8 * width): the size of the number range of an item. */
  function Range(t: u32): int
    requires IsNumberVector(t)
  {
    if Width(t) == 1 then 0x100 else if Width(t) == 2 then 0x1_0000
    else if Width(t) == 4 then 0x1_0000_0000 else 0x1_0000_0000_0000_0000
  }

  predicate Fits(t: u32, x: int)
    requires IsNumberVector(t)
  {
    if IsSigned(t) then -(Range(t) / 2) <= x < Range(t) / 2 else 0 <= x < Range(t)
  }

  // ---- nodes of a value graph ----

  /** A value, or one item of a vector of numbers, which reads as a value of its own. */
  datatype Node<+V> = Ref(v: V) | Number(t: u32, x: int)

  function Refs<V>(vs: seq<V>): (r: seq<Node<V>>)
    ensures |r| == |vs| && forall i :: 0 <= i < |vs| ==> r[i] == Ref(vs[i])
  {
    seq(|vs|, i requires 0 <= i < |vs| => Ref(vs[i]))
  }

  function Numbers<V>(t: u32, xs: seq<int>): (r: seq<Node<V>>)
    ensures |r| == |xs| && forall i :: 0 <= i < |xs| ==> r[i] == Number(t, xs[i])
  {
    seq(|xs|, i requires 0 <= i < |xs| => Number(t, xs[i]))
  }

  /** Numbers of all integer types are the same kind of leaf; floats are kept as their 32-bit patterns. */
  function NumberShape<N>(t: u32, x: int): Shape<N> {
    if !IsNumberVector(t) || !Fits(t, x) then Broken
    else if t == VECTOR_FLOAT then Leaf(TFloat(x)) else Leaf(TInt(x))
  }

  function AsI32(data: u32): int {
    if data < 0x8000_0000 then data else data - 0x1_0000_0000
  }

  function InlineShape<N>(t: u32, data: u32): Shape<N>
    requires IsInline(t)
  {
    if t == I32 then Leaf(TInt(AsI32(data)))
    else if t == U32 then Leaf(TInt(data))
    else if t == FLOAT then Leaf(TFloat(data))
    else if t == BOOLEAN then Leaf(TBool(data))
    else if t == NULL then Leaf(TNull)
    else if t == EMPTY_SLOT then Leaf(TEmptySlot)
    else if t == VECTOR_EMPTY then Vector([])
    else Leaf(TBits(Decode(t, data, 0, [])))
  }

  // ---- texts and raw bitvectors ----

  ghost predicate ValidText(t: u32, x: Text) {
    && (t == STRING <==> x.Ascii?)
    && |x.chars| < 0x1_0000_0000
    && forall i :: 0 <= i < |x.chars| ==> 0 < x.chars[i] && (x.Ascii? ==> x.chars[i] < 256)
  }

  /** A raw bitvector: its length and the bytes it was given, unused bits of the last byte included. */
  datatype RawBitvector = RawBitvector(n: u32, bytes: seq<byte>)

  predicate ValidBits(b: RawBitvector) {
    |b.bytes| == CeilDiv8(b.n)
  }

  function BitsShape<N>(b: RawBitvector): Shape<N> {
    if ValidBits(b) then Leaf(TBits(RawBits(b.bytes, b.n))) else Broken
  }

  // ---- create-time state ----

  datatype CValue = CValue(typ: u32, outside: bool, setMap: bool, compressed: bool, data: u32)

  datatype CSet = CSet(keys: seq<int>, hashVector: int, keyVector: int)

  datatype CMap = CMap(keys: seq<int>, values: seq<int>, hashVector: int, keyVector: int, valueVector: int)

  datatype State = State(
    values: seq<CValue>,
    priv: seq<seq<int>>,        // items of library-owned vectors: handles or numbers, by the vector's type
    outside: seq<seq<int>>,     // items of caller-owned vectors
    sets: seq<CSet>,
    maps: seq<CMap>,
    texts: seq<Text>,
    bitvectors: seq<RawBitvector>)

  /** The table a value's data word points into. */
  datatype Kind = InWord | PrivateVector | OutsideVector | TextBuffer | BitBuffer | SetTable | MapTable

  function KindOf(v: CValue): Kind {
    if IsHeapVector(v.typ) then (if v.outside then OutsideVector else PrivateVector)
    else if IsText(v.typ) then TextBuffer
    else if v.typ == BITVECTOR then BitBuffer
    else if v.typ == SET_VALUE then SetTable
    else if v.typ == MAP_VALUE_VALUE then MapTable
    else InWord
  }

  /** How many of the first n values have kind k. */
  function Rank(values: seq<CValue>, k: Kind, n: nat): nat
    requires n <= |values|
  {
    if n == 0 then 0 else Rank(values, k, n - 1) + if KindOf(values[n - 1]) == k then 1 else 0
  }

  function Total(values: seq<CValue>, k: Kind): nat {
    Rank(values, k, |values|)
  }

  predicate IsHandle(s: State, h: int) {
    0 <= h < |s.values|
  }

  /** A handle the create API has given out: not one of the vectors that sets and maps keep for themselves. */
  predicate IsPublic(s: State, h: int) {
    IsHandle(s, h) && !s.values[h].setMap
  }

  predicate AllPublic(s: State, hs: seq<int>) {
    forall i :: 0 <= i < |hs| ==> IsPublic(s, hs[i])
  }

  predicate HoldsHandles(v: CValue) {
    IsValueVector(v.typ) || v.compressed
  }

  /** The graph of create-time values. Items of a compressed vector are still handles. */
  function CShape(s: State, n: Node<int>): Shape<Node<int>> {
    match n
    case Number(t, x) => NumberShape(t, x)
    case Ref(h) =>
      if !IsHandle(s, h) then Broken else
        var v := s.values[h];
        match KindOf(v)
        case InWord => if IsInline(v.typ) then InlineShape(v.typ, v.data) else Broken
        case TextBuffer => if v.data < |s.texts| then Leaf(TText(s.texts[v.data])) else Broken
        case BitBuffer => if v.data < |s.bitvectors| then BitsShape(s.bitvectors[v.data]) else Broken
        case OutsideVector => if v.data < |s.outside| then Vector(ItemNodes(v, s.outside[v.data])) else Broken
        case PrivateVector => if v.data < |s.priv| then Vector(ItemNodes(v, s.priv[v.data])) else Broken
        case SetTable => if v.data < |s.sets| then SetOf(Refs(s.sets[v.data].keys)) else Broken
        case MapTable => if v.data < |s.maps| then MapOf(Refs(s.maps[v.data].keys), Refs(s.maps[v.data].values)) else Broken
  }

  function ItemNodes(v: CValue, items: seq<int>): seq<Node<int>> {
    if HoldsHandles(v) then Refs(items) else Numbers(v.typ, items)
  }

  ghost function CGraph(s: State): Graph<Node<int>> {
    n => CShape(s, n)
  }

  /** The meaning of handle h, d levels deep. */
  ghost function CUnfold(s: State, h: int, d: nat): Tree {
    Unfold(CGraph(s), Ref(h), d)
  }
}

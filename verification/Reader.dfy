/**
  Reading values in place from a buffer: the header, the offset tables, the objects on the heap, and the graph
  of values they make up. A read that leaves the buffer, or an index past its table, yields a broken value.
 */
module Reader {
  import opened Wrappers
  import opened PowersOfTwo
  import opened Bitvector
  import opened Unfolding
  import opened Values
  import opened CreateState
  import opened Bytes
  import opened Heap

  type RNode = Node<RValue>

  // ---- header ----

  function Field(buf: bytes, i: nat): nat
    requires |buf| >= HEADER_SIZE && i < 8
  {
    Word(buf, 4 * i, 4)
  }

  function Root(buf: bytes): RValue
    requires |buf| >= HEADER_SIZE
  {
    var typ := Field(buf, 0);
    RValue(if typ < 0x1_0000_0000 then typ else 0, Field(buf, 1))
  }

  function TextCount(buf: bytes): nat requires |buf| >= HEADER_SIZE { Field(buf, 2) }
  function VectorCount(buf: bytes): nat requires |buf| >= HEADER_SIZE { Field(buf, 3) }
  function BitvectorCount(buf: bytes): nat requires |buf| >= HEADER_SIZE { Field(buf, 4) }
  function SetCount(buf: bytes): nat requires |buf| >= HEADER_SIZE { Field(buf, 5) }
  function MapCount(buf: bytes): nat requires |buf| >= HEADER_SIZE { Field(buf, 6) }

  function ObjectCount(buf: bytes): nat
    requires |buf| >= HEADER_SIZE
  {
    TextCount(buf) + VectorCount(buf) + BitvectorCount(buf) + SetCount(buf) + MapCount(buf)
  }

  function HeapBase(buf: bytes): nat
    requires |buf| >= HEADER_SIZE
  {
    HEADER_SIZE + 8 * ObjectCount(buf)
  }

  /**
    The buffers that initialisation accepts, validation apart. Version 1, with 32-bit offsets, sets an
    error message but is not refused.
   */
  predicate Opens(buf: bytes) {
    && |buf| >= HEADER_SIZE
    && (Field(buf, 7) == 1 || Field(buf, 7) == VERSION_64_NEWHASH)
    && HeapBase(buf) <= |buf|
  }

  /** Where object i of all offset tables is. */
  function ObjectAt(buf: bytes, i: nat): (at: nat)
    requires Opens(buf) && i < ObjectCount(buf)
    ensures at >= HeapBase(buf)
  {
    HeapBase(buf) + Word(buf, HEADER_SIZE + 8 * i, 8)
  }

  // ---- objects ----

  function ValueAt(buf: bytes, at: nat): RValue
    requires Within(buf, at, 8)
  {
    var typ := Word(buf, at, 4);
    RValue(if typ < 0x1_0000_0000 then typ else 0, Word(buf, at + 4, 4))
  }

  function ItemAt(buf: bytes, t: u32, at: nat): RNode
    requires IsHeapVector(t) && Within(buf, at, Width(t))
  {
    if IsValueVector(t) then Ref(ValueAt(buf, at)) else Number(t, Unwrap(Range(t), IsSigned(t), Word(buf, at, Width(t))))
  }

  lemma ItemWithin(w: nat, i: nat, n: nat)
    requires i < n
    ensures w * i + w <= w * n
  {
    MulMonotone(w, i + 1, n);
  }

  /** Every word read as a number of type t is one. */
  lemma NumberFits(buf: bytes, t: u32, at: nat)
    requires IsNumberVector(t) && Within(buf, at, Width(t))
    ensures Fits(t, Unwrap(Range(t), IsSigned(t), Word(buf, at, Width(t))))
  {
    WordInRange(buf, at, Width(t));
    WordRanges();
    hide Word, WordRange;
  }

  /** n items of type t in a row. */
  function ItemsAt(buf: bytes, t: u32, at: nat, n: nat): (r: seq<RNode>)
    requires IsHeapVector(t) && Within(buf, at, Width(t) * n)
    ensures |r| == n
    ensures forall i :: 0 <= i < n ==> 0 <= Width(t) * i && Within(buf, at + Width(t) * i, Width(t)) && r[i] == ItemAt(buf, t, at + Width(t) * i)
  {
    seq(n, i requires 0 <= i < n => (ItemWithin(Width(t), i, n); ItemAt(buf, t, at + Width(t) * i)))
  }

  function CharsAt(buf: bytes, w: nat, at: nat, n: nat): (r: seq<u32>)
    requires (w == 1 || w == 4) && Within(buf, at, w * n)
    ensures |r| == n
    ensures forall i :: 0 <= i < n ==> 0 <= w * i && Within(buf, at + w * i, w) && r[i] == CharOf(Word(buf, at + w * i, w))
  {
    seq(n, i requires 0 <= i < n => (ItemWithin(w, i, n); CharOf(Word(buf, at + w * i, w))))
  }

  /** The items of a vector of type t at a heap position. */
  function VectorAt(buf: bytes, t: u32, at: nat): Option<seq<RNode>>
    requires IsHeapVector(t)
  {
    if !Within(buf, at, 4) then None else
      var n := Word(buf, at, 4);
      if !Within(buf, at + 4, Width(t) * n) then None
      else Some(ItemsAt(buf, t, at + 4, n))
  }

  function TextAt(buf: bytes, t: u32, at: nat): Option<Text>
    requires IsText(t)
  {
    if !Within(buf, at, 4) then None else
      var n := Word(buf, at, 4);
      var w := if t == STRING then 1 else 4;
      if !Within(buf, at + 4, w * n) then None else
        var chars := CharsAt(buf, w, at + 4, n);
        Some(if t == STRING then Ascii(chars) else Ucs4(chars))
  }

  function CharOf(x: nat): u32 {
    if x < 0x1_0000_0000 then x else 0
  }

  function BitvectorAt(buf: bytes, at: nat): Option<RawBitvector> {
    if !Within(buf, at, 4) then None else
      var n := Word(buf, at, 4);
      if n < 0x1_0000_0000 && Within(buf, at + 4, CeilDiv8(n)) then Some(RawBitvector(n, buf[at + 4..at + 4 + CeilDiv8(n)]))
      else None
  }

  /** The values of a value vector that a set or map header points to. */
  function PartAt(buf: bytes, r: RValue): Option<seq<RNode>>
    requires Opens(buf)
  {
    if IsValueVector(r.typ) && r.data < VectorCount(buf) then VectorAt(buf, r.typ, ObjectAt(buf, TextCount(buf) + r.data))
    else None
  }

  predicate IsFilled(k: RNode) {
    k.Ref? && k.v.typ != EMPTY_SLOT
  }

  /** The buckets that iteration does not skip. */
  function Filled(ks: seq<RNode>): (r: seq<bool>)
    ensures |r| == |ks| && forall i :: 0 <= i < |ks| ==> r[i] == IsFilled(ks[i])
  {
    seq(|ks|, i requires 0 <= i < |ks| => IsFilled(ks[i]))
  }

  function SetAt(buf: bytes, at: nat): Shape<RNode>
    requires Opens(buf)
  {
    if !Within(buf, at, 24) then Broken else
      match PartAt(buf, ValueAt(buf, at + 16))
      case None => Broken
      case Some(ks) => SetOf(Kept(Filled(ks), ks))
  }

  function MapAt(buf: bytes, at: nat): Shape<RNode>
    requires Opens(buf)
  {
    if !Within(buf, at, 32) then Broken else
      match (PartAt(buf, ValueAt(buf, at + 16)), PartAt(buf, ValueAt(buf, at + 24)))
      case (Some(ks), Some(vs)) =>
        if |ks| == |vs| then MapOf(Kept(Filled(ks), ks), Kept(Filled(ks), vs)) else Broken
      case _ => Broken
  }

  // ---- the graph ----

  function RShape(buf: bytes, n: RNode): Shape<RNode>
    requires Opens(buf)
  {
    match n
    case Number(t, x) => NumberShape(t, x)
    case Ref(r) => ValueShape(buf, r)
  }

  function ValueShape(buf: bytes, r: RValue): Shape<RNode>
    requires Opens(buf)
  {
    var texts, vectors, bitvectors, sets := TextCount(buf), VectorCount(buf), BitvectorCount(buf), SetCount(buf);
    if IsInline(r.typ) then
      if r.data < 0x1_0000_0000 then InlineShape(r.typ, r.data) else Broken
    else if IsText(r.typ) && r.data < texts then
      match TextAt(buf, r.typ, ObjectAt(buf, r.data)) case Some(x) => Leaf(TText(x)) case None => Broken
    else if IsHeapVector(r.typ) && r.data < vectors then
      match VectorAt(buf, r.typ, ObjectAt(buf, texts + r.data)) case Some(items) => Vector(items) case None => Broken
    else if r.typ == BITVECTOR && r.data < bitvectors then
      match BitvectorAt(buf, ObjectAt(buf, texts + vectors + r.data)) case Some(b) => BitsShape(b) case None => Broken
    else if r.typ == SET_VALUE && r.data < sets then
      SetAt(buf, ObjectAt(buf, texts + vectors + bitvectors + r.data))
    else if r.typ == MAP_VALUE_VALUE && r.data < MapCount(buf) then
      MapAt(buf, ObjectAt(buf, texts + vectors + bitvectors + sets + r.data))
    else Broken
  }

  ghost function RGraph(buf: bytes): Graph<RNode>
    requires Opens(buf)
  {
    n => RShape(buf, n)
  }

  /** The meaning of the root of a buffer, d levels deep. */
  ghost function RUnfold(buf: bytes, d: nat): Tree
    requires Opens(buf)
  {
    Unfold(RGraph(buf), Ref(Root(buf)), d)
  }
}

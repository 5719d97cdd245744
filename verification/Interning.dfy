/**
  Interning: strings share one table keyed by their buffers, bitvectors another, small integers and singletons
  have caches. A lookup only ever finds a handle that denotes what was asked for.
 */
module Interning {
  import opened Wrappers
  import opened PowersOfTwo
  import opened Bitvector
  import opened Unfolding
  import opened Values
  import opened CreateState
  import opened Tables
  import opened Bytes
  import opened Heap
  import opened Reader
  import opened ReadBack
  import opened Building

  function TypeOf(x: Text): u32 {
    if x.Ascii? then STRING else UNICODE
  }

  /** Buffers of different texts differ, also between single-byte and 4-byte texts. */
  lemma TextBuffersDiffer(x: Text, y: Text)
    requires ValidText(TypeOf(x), x) && ValidText(TypeOf(y), y)
    ensures TextBytes(x) == TextBytes(y) <==> x == y
  {
    if TextBytes(x) == TextBytes(y) {
      var buf := TextBytes(x);
      assert buf[0..|buf|] == buf;
      CountedRow(buf, 0, CharBytes(x), CharWidth(x), LittleEndian(CharWidth(x), 0));
      CountedRow(buf, 0, CharBytes(y), CharWidth(y), LittleEndian(CharWidth(y), 0));
      TextReads(TypeOf(x), x, buf, 0);
      TextReads(TypeOf(y), y, buf, 0);
    }
  }

  function BitsBytes(b: RawBitvector): bytes {
    LittleEndian(4, b.n) + b.bytes
  }

  lemma BitsBuffersDiffer(a: RawBitvector, b: RawBitvector)
    requires ValidBits(a) && ValidBits(b)
    ensures BitsBytes(a) == BitsBytes(b) <==> a == b
  {
    if BitsBytes(a) == BitsBytes(b) {
      var buf := BitsBytes(a);
      assert buf[0..|buf|] == buf;
      BitvectorReads(a, buf, 0);
      BitvectorReads(b, buf, 0);
    }
  }

  // ---- the tables ----

  ghost predicate IsTextHandle(s: State, h: int) {
    IsPublic(s, h) && KindOf(s.values[h]) == TextBuffer && s.values[h].data < |s.texts|
  }

  ghost predicate IsBitsHandle(s: State, h: int) {
    IsPublic(s, h) && KindOf(s.values[h]) == BitBuffer && s.values[h].data < |s.bitvectors|
  }

  /** The string table knows every text there is, under its buffer. */
  ghost predicate TextsInterned(s: State, table: map<bytes, int>) {
    && (forall k :: k in table ==> IsTextHandle(s, table[k]) && TextBytes(s.texts[s.values[table[k]].data]) == k)
    && (forall h :: IsTextHandle(s, h) ==> TextBytes(s.texts[s.values[h].data]) in table && table[TextBytes(s.texts[s.values[h].data])] == h)
  }

  /** The bitvector table leads to bitvectors with the buffer asked for; it need not know all of them. */
  ghost predicate BitsInterned(s: State, table: map<bytes, int>) {
    forall k :: k in table ==> IsBitsHandle(s, table[k]) && BitsBytes(s.bitvectors[s.values[table[k]].data]) == k
  }

  const NO_HANDLE: int := -1

  /** h is unknown, or a handle of just this inline value. */
  ghost predicate Caches(s: State, h: int, v: CValue) {
    h == NO_HANDLE || (IsPublic(s, h) && s.values[h] == v)
  }

  const N_U32 := 10000
  const MIN_I32 := -10000
  const MAX_I32 := 10000

  /** The data word of a signed number. */
  function WordOf(x: int): u32 {
    x % 0x1_0000_0000
  }

  ghost predicate NumbersCached(s: State, u32s: seq<int>, i32s: seq<int>) {
    && |u32s| == N_U32 && (forall i :: 0 <= i < N_U32 ==> Caches(s, u32s[i], Inline(U32, i)))
    && |i32s| == MAX_I32 - MIN_I32 + 1 && (forall i :: 0 <= i < MAX_I32 - MIN_I32 + 1 ==> Caches(s, i32s[i], Inline(I32, WordOf(i + MIN_I32))))
  }

  /** All that is cached stays right when values and table entries are only added. */
  lemma GrowingKeepsCaches(s: State, t: State, u32s: seq<int>, i32s: seq<int>, bits: map<bytes, int>)
    requires s.values <= t.values && s.bitvectors <= t.bitvectors
    ensures NumbersCached(s, u32s, i32s) ==> NumbersCached(t, u32s, i32s)
    ensures BitsInterned(s, bits) ==> BitsInterned(t, bits)
    ensures forall h, v :: Caches(s, h, v) ==> Caches(t, h, v)
  {
  }

  lemma GrowingKeepsTexts(s: State, t: State, texts: map<bytes, int>)
    requires TextsInterned(s, texts) && s.values <= t.values && s.texts == t.texts
    requires forall h :: |s.values| <= h < |t.values| ==> KindOf(t.values[h]) != TextBuffer
    ensures TextsInterned(t, texts)
  {
    forall h | IsTextHandle(t, h) ensures IsTextHandle(s, h) {
    }
    hide TextBytes;
  }

  /** A new text under its buffer. */
  lemma TextAdded(s: State, t: State, texts: map<bytes, int>, x: Text)
    requires UnderConstruction(s) && TextsInterned(s, texts) && TextBytes(x) !in texts && |s.texts| <= |s.values| < 0xFFFF_FFFE
    requires t == s.(values := s.values + [Inline(TypeOf(x), |s.texts|)], texts := s.texts + [x])
    ensures TextsInterned(t, texts[TextBytes(x) := |s.values|])
  {
    hide TextBytes, UnderConstruction;
    var table := texts[TextBytes(x) := |s.values|];
    forall h | IsTextHandle(t, h) ensures TextBytes(t.texts[t.values[h].data]) in table && table[TextBytes(t.texts[t.values[h].data])] == h {
      if h < |s.values| {
        NotTheNewText(s, t, h);
      }
    }
  }

  lemma NotTheNewText(s: State, t: State, h: int)
    requires UnderConstruction(s) && s.values <= t.values && h < |s.values| && IsTextHandle(t, h)
    ensures IsTextHandle(s, h)
  {
    assert GoodValue(s, h);
  }

  /** What a cache knows about a value is a handle of that value. */
  lemma CachedDenotes(s: State, h: int, v: CValue)
    requires Caches(s, h, v) && h != NO_HANDLE && IsInline(v.typ)
    ensures IsPublic(s, h) && s.values[h] == v && CShape(s, Ref(h)) == InlineShape(v.typ, v.data) && SamePublicShapes(s, s)
  {
    hide InlineShape;
  }

  lemma CachedU32(s: State, u32s: seq<int>, i32s: seq<int>, x: u32, h: int)
    requires NumbersCached(s, u32s, i32s) && x < N_U32
    ensures |u32s| == N_U32 && Caches(s, u32s[x], Inline(U32, x))
    ensures Caches(s, h, Inline(U32, x)) ==> NumbersCached(s, u32s[x := h], i32s)
  {
    hide Caches;
  }

  lemma CachedI32(s: State, u32s: seq<int>, i32s: seq<int>, x: int, h: int)
    requires NumbersCached(s, u32s, i32s) && MIN_I32 <= x <= MAX_I32
    ensures |i32s| == MAX_I32 - MIN_I32 + 1 && Caches(s, i32s[x - MIN_I32], Inline(I32, WordOf(x)))
    ensures Caches(s, h, Inline(I32, WordOf(x))) ==> NumbersCached(s, u32s, i32s[x - MIN_I32 := h])
  {
    hide Caches;
  }

  lemma SignedWord(x: int)
    requires -0x8000_0000 <= x < 0x8000_0000
    ensures AsI32(WordOf(x)) == x
  {
    if x < 0 { ModOfMultiple(x, x + 0x1_0000_0000, 0x1_0000_0000, -1); }
  }

  ghost predicate HasText(s: State, x: Text) {
    exists h :: IsTextHandle(s, h) && s.texts[s.values[h].data] == x
  }

  /** A text the table knows is found; a text it does not know is new. */
  lemma TextFound(s: State, texts: map<bytes, int>, x: Text)
    requires UnderConstruction(s) && TextsInterned(s, texts) && ValidText(TypeOf(x), x)
    ensures TextBytes(x) in texts <==> HasText(s, x)
    ensures TextBytes(x) in texts ==>
      var h := texts[TextBytes(x)]; IsPublic(s, h) && CShape(s, Ref(h)) == Leaf(TText(x)) && SamePublicShapes(s, s)
  {
    hide TextBytes, ValidText, UnderConstruction, CShape;
    if TextBytes(x) in texts {
      var h := texts[TextBytes(x)];
      TextOfHandle(s, h);
      TextBuffersDiffer(x, s.texts[s.values[h].data]);
    }
  }

  lemma TextOfHandle(s: State, h: int)
    requires UnderConstruction(s) && IsTextHandle(s, h)
    ensures var x := s.texts[s.values[h].data];
      ValidText(TypeOf(x), x) && CShape(s, Ref(h)) == Leaf(TText(x)) && SamePublicShapes(s, s)
  {
    assert GoodValue(s, h);
    hide UnderConstruction;
  }

  /** A bitvector the table knows is found with just these bytes. */
  lemma BitsFound(s: State, table: map<bytes, int>, b: RawBitvector)
    requires UnderConstruction(s) && BitsInterned(s, table) && ValidBits(b) && BitsBytes(b) in table
    ensures var h := table[BitsBytes(b)];
      IsPublic(s, h) && s.values[h].typ == BITVECTOR && CShape(s, Ref(h)) == Leaf(TBits(RawBits(b.bytes, b.n))) && SamePublicShapes(s, s)
  {
    var h := table[BitsBytes(b)];
    var y := s.bitvectors[s.values[h].data];
    assert GoodValue(s, h);
    hide UnderConstruction, BitsBytes, BitsInterned, RawBits;
    BitsBuffersDiffer(b, y);
  }

  lemma BitsAdded(s: State, t: State, table: map<bytes, int>, b: RawBitvector)
    requires BitsInterned(s, table)
    requires |s.bitvectors| < 0x1_0000_0000
    requires t == s.(values := s.values + [Inline(BITVECTOR, |s.bitvectors|)], bitvectors := s.bitvectors + [b])
    ensures BitsInterned(t, table) && BitsInterned(t, table[BitsBytes(b) := |s.values|])
  {
    hide BitsBytes;
  }

  lemma InlineBits(typ: u32, data: u32, n: u32, b: bytes)
    requires IsBitvectorType(typ) && typ != BITVECTOR && |Decode(typ, data, n, b)| == n && (typ == BITVECTOR_PACKED ==> n <= 27)
    ensures CleanWord(typ, data)
    ensures Decode(typ, data, n, b) == Decode(typ, data, 0, [])
    ensures IsInline(typ) && InlineShape<Node<int>>(typ, data) == Leaf(TBits(Decode(typ, data, 0, [])))
  {
  }
}

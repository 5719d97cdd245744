/**
  What validation is for: when every reachable value passes, all reads from them stay in the buffer and yield
  proper values.
 */
module ValidatedSound {
  import opened Wrappers
  import opened PowersOfTwo
  import opened Bitvector
  import opened Unfolding
  import opened Values
  import opened CreateState
  import opened Bytes
  import opened Heap
  import opened Reader
  import opened Copying
  import opened Validate

  lemma VectorPasses(buf: bytes, S: set<RValue>, r: RValue)
    requires Opens(buf) && PassedSet(buf, S) && r in S && IsHeapVector(r.typ)
    ensures VectorAt(buf, r.typ, ObjectAt(buf, TableIndex(buf, r))).Some?
    ensures AllIn(S, VectorAt(buf, r.typ, ObjectAt(buf, TableIndex(buf, r))).value)
  {
    var at := ObjectAt(buf, TableIndex(buf, r));
    assert VectorHeapOk(buf, r.typ, TableIndex(buf, r));
    var n := Word(buf, at, 4);
    assert Within(buf, at + 4, Width(r.typ) * n);
    var items := ItemsAt(buf, r.typ, at + 4, n);
    if IsValueVector(r.typ) {
      assert ChildrenSeen(buf, S, r);
      ItemsAreChildren(buf, r);
    } else {
      hide PassedSet, Word, ObjectAt, Unwrap, Fits;
      forall i | 0 <= i < n ensures items[i].Number? && IsNumberVector(items[i].t) && Fits(items[i].t, items[i].x) {
        NumberFits(buf, r.typ, at + 4 + Width(r.typ) * i);
      }
    }
  }

  lemma ItemsAreChildren(buf: bytes, r: RValue)
    requires Opens(buf) && Passes(buf, r) && IsValueVector(r.typ)
    ensures VectorAt(buf, r.typ, ObjectAt(buf, TableIndex(buf, r))).Some?
    ensures var items := VectorAt(buf, r.typ, ObjectAt(buf, TableIndex(buf, r))).value;
      forall i :: 0 <= i < |items| ==> items[i].Ref? && items[i].v in Children(buf, r)
  {
    var at := ObjectAt(buf, TableIndex(buf, r));
    assert VectorHeapOk(buf, r.typ, TableIndex(buf, r));
    var n := Word(buf, at, 4);
    assert Children(buf, r) == ItemValues(buf, at + 4, n);
    hide Word, ObjectAt, Passes, Children, TableIndex;
    var items := ItemsAt(buf, r.typ, at + 4, n);
    forall i | 0 <= i < n ensures items[i].Ref? && items[i].v == ItemValues(buf, at + 4, n)[i] {
    }
  }

  lemma TextPasses(buf: bytes, r: RValue)
    requires Opens(buf) && Passes(buf, r) && IsText(r.typ)
    ensures TextAt(buf, r.typ, ObjectAt(buf, r.data)).Some? && ValidText(r.typ, TextAt(buf, r.typ, ObjectAt(buf, r.data)).value)
  {
    hide Passes, TextHeapOk, ObjectAt, Word, TextCount, ObjectCount, Opens;
    TextHeapPasses(buf, r);
    var at, w := ObjectAt(buf, r.data), if r.typ == STRING then 1 else 4;
    TextHeapReads(buf, w, r.data);
    CharsInRange(buf, w, at + 4, Word(buf, at, 4));
  }

  lemma TextHeapPasses(buf: bytes, r: RValue)
    requires Opens(buf) && Passes(buf, r) && IsText(r.typ)
    ensures r.data < TextCount(buf) && r.data < ObjectCount(buf) && TextHeapOk(buf, if r.typ == STRING then 1 else 4, r.data)
    ensures |buf| >= HEADER_SIZE
  {
  }

  lemma TextHeapReads(buf: bytes, w: nat, i: nat)
    requires Opens(buf) && i < ObjectCount(buf) && (w == 1 || w == 4) && TextHeapOk(buf, w, i)
    ensures var at := ObjectAt(buf, i);
      && Within(buf, at, 4) && Word(buf, at, 4) < 0x1_0000_0000 && Within(buf, at + 4, w * Word(buf, at, 4))
      && 0 !in CharsAt(buf, w, at + 4, Word(buf, at, 4))
  {
    WordInRange(buf, ObjectAt(buf, i), 4);
    WordRanges();
    hide WordRange, Word, CharsAt;
  }

  lemma CharsInRange(buf: bytes, w: nat, at: nat, n: nat)
    requires (w == 1 || w == 4) && Within(buf, at, w * n) && 0 !in CharsAt(buf, w, at, n)
    ensures forall j :: 0 <= j < n ==> CharsAt(buf, w, at, n)[j] > 0 && (w == 1 ==> CharsAt(buf, w, at, n)[j] < 256)
  {
    var chars := CharsAt(buf, w, at, n);
    WordRanges();
    hide Word, WordRange;
    forall j | 0 <= j < n ensures chars[j] > 0 && (w == 1 ==> chars[j] < 256) {
      assert chars[j] in chars;
      WordInRange(buf, at + w * j, w);
    }
  }

  lemma BitsPass(buf: bytes, r: RValue)
    requires Opens(buf) && Passes(buf, r) && r.typ == BITVECTOR
    ensures BitvectorAt(buf, ObjectAt(buf, TableIndex(buf, r))).Some? && ValidBits(BitvectorAt(buf, ObjectAt(buf, TableIndex(buf, r))).value)
  {
    WordInRange(buf, ObjectAt(buf, TableIndex(buf, r)), 4);
    WordRanges();
    hide WordRange, Word, ObjectAt;
  }

  // ---- sets and maps ----

  /** The key and value vector of a map have one length: one of the things pass 3 looks at. */
  ghost predicate EvenMap(buf: bytes, r: RValue)
    requires Opens(buf) && Passes(buf, r)
  {
    r.typ == MAP_VALUE_VALUE ==>
      var at := ObjectAt(buf, TableIndex(buf, r));
      match (PartAt(buf, ValueAt(buf, at + 16)), PartAt(buf, ValueAt(buf, at + 24)))
      case (Some(ks), Some(vs)) => |ks| == |vs|
      case _ => true
  }

  lemma PartPasses(buf: bytes, S: set<RValue>, r: RValue)
    requires Opens(buf) && PassedSet(buf, S) && r in S && IsValueVector(r.typ)
    ensures PartAt(buf, r).Some? && AllIn(S, PartAt(buf, r).value)
  {
    VectorPasses(buf, S, r);
    assert TableIndex(buf, r) == TextCount(buf) + r.data;
    hide PassedSet, VectorAt, ObjectAt, AllIn;
  }

  lemma KeptStaysIn(S: set<RValue>, marks: seq<bool>, xs: seq<RNode>)
    requires |marks| == |xs| && AllIn(S, xs)
    ensures AllIn(S, Kept(marks, xs))
  {
    forall i | 0 <= i < |Kept(marks, xs)|
      ensures var n := Kept(marks, xs)[i]; if n.Ref? then n.v in S else IsNumberVector(n.t) && Fits(n.t, n.x)
    {
      var j := KeptFrom(marks, xs, i);
    }
  }

  lemma SetPasses(buf: bytes, S: set<RValue>, r: RValue)
    requires Opens(buf) && PassedSet(buf, S) && r in S && r.typ == SET_VALUE
    ensures SetAt(buf, ObjectAt(buf, TableIndex(buf, r))).SetOf? && AllIn(S, SetAt(buf, ObjectAt(buf, TableIndex(buf, r))).keys)
  {
    var at := ObjectAt(buf, TableIndex(buf, r));
    assert SetHeapOk(buf, TableIndex(buf, r)) && ChildrenSeen(buf, S, r);
    assert ValueAt(buf, at + 16) in Children(buf, r);
    hide PassedSet, ValueAt, ObjectAt, AllIn, Kept, Filled, TableIndex, PartAt;
    PartPasses(buf, S, ValueAt(buf, at + 16));
    var ks := PartAt(buf, ValueAt(buf, at + 16)).value;
    KeptStaysIn(S, Filled(ks), ks);
  }

  lemma MapPasses(buf: bytes, S: set<RValue>, r: RValue)
    requires Opens(buf) && PassedSet(buf, S) && r in S && r.typ == MAP_VALUE_VALUE && EvenMap(buf, r)
    ensures var x := MapAt(buf, ObjectAt(buf, TableIndex(buf, r))); x.MapOf? && |x.keys| == |x.values| && AllIn(S, x.keys) && AllIn(S, x.values)
  {
    var at := ObjectAt(buf, TableIndex(buf, r));
    assert MapHeapOk(buf, TableIndex(buf, r)) && ChildrenSeen(buf, S, r);
    assert ValueAt(buf, at + 16) in Children(buf, r) && ValueAt(buf, at + 24) in Children(buf, r);
    assert Within(buf, at, 32);
    var rk, rv := ValueAt(buf, at + 16), ValueAt(buf, at + 24);
    hide PassedSet, ValueAt, ObjectAt, AllIn, Kept, Filled, TableIndex, PartAt, Passes, Children, MapHeapOk, Opens;
    PartPasses(buf, S, rk);
    PartPasses(buf, S, rv);
    var ks, vs := PartAt(buf, rk).value, PartAt(buf, rv).value;
    KeptStaysIn(S, Filled(ks), ks);
    KeptStaysIn(S, Filled(ks), vs);
    KeptLength(Filled(ks), ks, vs);
  }

  lemma InlinePasses(buf: bytes, S: set<RValue>, r: RValue)
    requires Opens(buf) && Passes(buf, r) && IsInline(r.typ)
    ensures SoundValue(buf, S, r)
  {
    hide Decode;
  }

  /** Values that pass, with maps of even vectors, are sound to read and to copy. */
  lemma PassedIsSound(buf: bytes, S: set<RValue>)
    requires Opens(buf) && PassedSet(buf, S) && forall r :: r in S ==> EvenMap(buf, r)
    ensures Sound(buf, S)
  {
    forall r | r in S ensures SoundValue(buf, S, r) {
      assert Passes(buf, r);
      ValuePasses(buf, S, r);
    }
  }

  lemma VectorSound(buf: bytes, S: set<RValue>, r: RValue)
    requires Opens(buf) && PassedSet(buf, S) && r in S && Passes(buf, r) && IsHeapVector(r.typ)
    ensures SoundValue(buf, S, r)
  {
    hide PassedSet, ObjectAt, VectorAt, TextAt, BitvectorAt, SetAt, MapAt, AllIn, ValidText, EvenMap, HeapOk, InlineOk, RawBits;
    VectorPasses(buf, S, r);
    assert ReferenceOk(buf, r);
    hide Passes, TextCount, VectorCount, BitvectorCount, SetCount, MapCount;
  }

  lemma TextSound(buf: bytes, S: set<RValue>, r: RValue)
    requires Opens(buf) && PassedSet(buf, S) && r in S && Passes(buf, r) && IsText(r.typ)
    ensures SoundValue(buf, S, r)
  {
    hide PassedSet, ObjectAt, VectorAt, TextAt, BitvectorAt, SetAt, MapAt, AllIn, ValidText, EvenMap, HeapOk, InlineOk, RawBits;
    TextPasses(buf, r);
    assert ReferenceOk(buf, r);
    hide Passes, TextCount, VectorCount, BitvectorCount, SetCount, MapCount;
  }

  lemma BitsSound(buf: bytes, S: set<RValue>, r: RValue)
    requires Opens(buf) && PassedSet(buf, S) && r in S && Passes(buf, r) && r.typ == BITVECTOR
    ensures SoundValue(buf, S, r)
  {
    hide PassedSet, ObjectAt, VectorAt, TextAt, BitvectorAt, SetAt, MapAt, AllIn, ValidText, EvenMap, HeapOk, InlineOk, RawBits;
    BitsPass(buf, r);
    assert ReferenceOk(buf, r);
    hide Passes, TextCount, VectorCount, BitvectorCount, SetCount, MapCount;
  }

  lemma SetSound(buf: bytes, S: set<RValue>, r: RValue)
    requires Opens(buf) && PassedSet(buf, S) && r in S && Passes(buf, r) && r.typ == SET_VALUE
    ensures SoundValue(buf, S, r)
  {
    hide PassedSet, ObjectAt, VectorAt, TextAt, BitvectorAt, SetAt, MapAt, AllIn, ValidText, EvenMap, HeapOk, InlineOk, RawBits;
    SetPasses(buf, S, r);
    assert ReferenceOk(buf, r);
    hide Passes, TextCount, VectorCount, BitvectorCount, SetCount, MapCount;
  }

  lemma MapSound(buf: bytes, S: set<RValue>, r: RValue)
    requires Opens(buf) && PassedSet(buf, S) && r in S && Passes(buf, r) && r.typ == MAP_VALUE_VALUE && EvenMap(buf, r)
    ensures SoundValue(buf, S, r)
  {
    hide PassedSet, ObjectAt, VectorAt, TextAt, BitvectorAt, SetAt, MapAt, AllIn, ValidText, EvenMap, HeapOk, InlineOk, RawBits;
    MapPasses(buf, S, r);
    assert ReferenceOk(buf, r);
    hide Passes, TextCount, VectorCount, BitvectorCount, SetCount, MapCount;
  }

  lemma ValuePasses(buf: bytes, S: set<RValue>, r: RValue)
    requires Opens(buf) && PassedSet(buf, S) && r in S && Passes(buf, r) && EvenMap(buf, r)
    ensures SoundValue(buf, S, r)
  {
    assert InlineOk(r) && IsKnown(r.typ);
    hide PassedSet, Passes, SoundValue, EvenMap;
    if IsInline(r.typ) {
      InlinePasses(buf, S, r);
    } else if IsHeapVector(r.typ) {
      VectorSound(buf, S, r);
    } else if IsText(r.typ) {
      TextSound(buf, S, r);
    } else if r.typ == BITVECTOR {
      BitsSound(buf, S, r);
    } else if r.typ == SET_VALUE {
      SetSound(buf, S, r);
    } else {
      MapSound(buf, S, r);
    }
  }

  // ---- what validation keeps out ----

  /** A string that passes has no zero among its characters, and a zero, within the buffer, after them. */
  lemma PassedTextIsTerminated(buf: bytes, r: RValue)
    requires Opens(buf) && Passes(buf, r) && IsText(r.typ)
    ensures TextAt(buf, r.typ, ObjectAt(buf, r.data)).Some? && ValidText(r.typ, TextAt(buf, r.typ, ObjectAt(buf, r.data)).value)
    ensures var x := TextAt(buf, r.typ, ObjectAt(buf, r.data)).value;
      EndsInZero(buf, ObjectAt(buf, r.data) + 4, if r.typ == STRING then 1 else 4, |x.chars|)
  {
    hide Passes, Word, TextCount, Opens;
    TextPasses(buf, r);
    TextHeapPasses(buf, r);
  }

  /** After n characters of width w there is one more, a zero. */
  predicate EndsInZero(buf: bytes, at: nat, w: nat, n: nat) {
    0 <= w * n && Within(buf, at + w * n, w) && Word(buf, at + w * n, w) == 0
  }

  /** Of the values held in a data word, bitvectors apart, just one of each type and meaning passes. */
  lemma OneWordForEachMeaning(r: RValue, s: RValue)
    requires InlineOk(r) && InlineOk(s) && r.typ == s.typ && IsInline(r.typ) && !IsBitvectorType(r.typ)
    requires InlineShape<RNode>(r.typ, r.data) == InlineShape<RNode>(s.typ, s.data)
    ensures r == s && (r.typ == BOOLEAN ==> r.data <= 1)
  {
  }

  /** A packed bitvector that passes is no longer than the bits its word has room for. */
  lemma PackedBitsFit(r: RValue)
    requires InlineOk(r) && r.typ == BITVECTOR_PACKED
    ensures |Decode(r.typ, r.data, 0, [])| <= 27
  {
  }

  /** The hashes of a set or map that passes are numbers, its keys those of a vector that can be hashed, its values values. */
  lemma PassedTableParts(buf: bytes, r: RValue)
    requires Opens(buf) && Passes(buf, r) && (r.typ == SET_VALUE || r.typ == MAP_VALUE_VALUE)
    ensures var parts := Children(buf, r);
      && |parts| == (if r.typ == SET_VALUE then 2 else 3)
      && parts[0].typ == VECTOR_U32 && parts[1].typ == VECTOR_VALUE_HASHABLE
      && (r.typ == MAP_VALUE_VALUE ==> IsValueVector(parts[2].typ))
  {
    hide Opens, Word, TextCount, VectorCount, BitvectorCount, SetCount, MapCount;
  }
}

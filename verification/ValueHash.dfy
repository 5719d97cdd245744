/**
  Hashes of values, as they are computed from a create-state and from a buffer. Both are a function of what
  the value looks like, whatever its representation, so keys hash alike before and after writing.
 */
module ValueHash {
  import opened Wrappers
  import opened PowersOfTwo
  import opened Bitvector
  import opened Unfolding
  import opened Values
  import opened CreateState
  import opened Bytes
  import opened Heap
  import opened Reader
  import opened ReadBack
  import opened RoundTrip

  const WORD: nat := 0x1_0000_0000

  /** Exclusive or of the k low bits. */
  function XorBits(a: nat, b: nat, k: nat): (r: nat)
    ensures r < Pow2(k)
  {
    if k == 0 then 0 else (a + b) % 2 + 2 * XorBits(a / 2, b / 2, k - 1)
  }

  function Xor(a: u32, b: u32): u32 {
    Pow2_32();
    XorBits(a, b, 32)
  }

  function Mul32(a: nat, b: nat): u32 {
    (a * b) % 0x1_0000_0000
  }

  // ---- strings ----

  function CharsFrom(x: u32, chars: seq<u32>): u32
    decreases |chars|
  {
    if chars == [] then x else CharsFrom(Xor(Mul32(1000003, x), chars[0]), chars[1..])
  }

  function StringHash(chars: seq<u32>): u32 {
    Xor(CharsFrom(if chars == [] then 0 else Mul32(chars[0], 128), chars), |chars| % WORD)
  }

  method HashChars(chars: seq<u32>) returns (h: u32)
    ensures h == StringHash(chars)
  {
    var x: u32 := if chars == [] then 0 else Mul32(chars[0], 128);
    var start := x;
    for i := 0 to |chars|
      invariant CharsFrom(x, chars[i..]) == CharsFrom(start, chars)
    {
      assert chars[i..][1..] == chars[i + 1..];
      x := Xor(Mul32(1000003, x), chars[i]);
    }
    h := Xor(x, |chars| % WORD);
  }

  // ---- vectors ----

  datatype VectorState = VectorState(mult: u32, x: u32, len: u32) {
    function Next(hash: u32): VectorState {
      VectorState((mult + 82520 + len + len) % WORD, Mul32(Xor(x, hash), mult), len)
    }

    function End(): u32 {
      (x + 97531) % WORD
    }
  }

  function StartVector(n: nat): VectorState {
    VectorState(1000003, 0x345678, n % WORD)
  }

  function VectorFrom(state: VectorState, hashes: seq<u32>): VectorState {
    if hashes == [] then state else VectorFrom(state, hashes[..|hashes| - 1]).Next(hashes[|hashes| - 1])
  }

  // ---- hashes by shape ----

  /** Hashes of floats are not part of this model: a function of the bit pattern. */
  type FloatHash = u32 -> u32

  function LeafHash(fh: FloatHash, t: Tree): Option<u32> {
    match t
    case TInt(v) => Some(v % WORD)
    case TFloat(p) => Some(fh(p))
    case TBool(flag) => Some(flag)
    case TNull => Some(0)
    case TEmptySlot => Some(0)
    case TText(x) => Some(StringHash(x.chars))
    case TBits(bits) => Some(HashFrom(bits, 0, 1, WORD) % WORD)
    case _ => None
  }

  /** The hash of a node whose vectors nest at most d deep: defined for leaves and for vectors that may be hashed. */
  ghost function NodeHash<N>(g: Graph<N>, hashable: N -> bool, fh: FloatHash, n: N, d: nat): Option<u32>
    decreases d, 0
  {
    match g(n)
    case Leaf(t) => LeafHash(fh, t)
    case Vector(items) =>
      if !hashable(n) || d == 0 then None
      else
        (match ItemHashes(g, hashable, fh, items, d - 1)
         case None => None
         case Some(hs) => Some(VectorFrom(StartVector(|items|), hs).End()))
    case _ => None
  }

  ghost function ItemHashes<N>(g: Graph<N>, hashable: N -> bool, fh: FloatHash, items: seq<N>, d: nat): (r: Option<seq<u32>>)
    ensures r.Some? <==> forall i :: 0 <= i < |items| ==> NodeHash(g, hashable, fh, items[i], d).Some?
    ensures r.Some? ==> |r.value| == |items| && forall i :: 0 <= i < |items| ==> r.value[i] == NodeHash(g, hashable, fh, items[i], d).value
    decreases d, 1, |items|
  {
    if items == [] then Some([])
    else
      var n := |items| - 1;
      match (ItemHashes(g, hashable, fh, items[..n], d), NodeHash(g, hashable, fh, items[n], d))
      case (Some(hs), Some(h)) => Some(hs + [h])
      case _ => None
  }

  predicate IsHashableLeaf(t: Tree) {
    t.TInt? || t.TFloat? || t.TBool? || t.TNull? || t.TEmptySlot? || t.TText? || t.TBits?
  }

  /** A value that can be hashed: a leaf, or a vector of a hashable type, nested at most d deep, of such values. */
  ghost predicate HashableTo<N>(g: Graph<N>, hashable: N -> bool, n: N, d: nat) {
    match g(n)
    case Leaf(t) => IsHashableLeaf(t)
    case Vector(items) => hashable(n) && d > 0 && forall i :: 0 <= i < |items| ==> HashableTo(g, hashable, items[i], d - 1)
    case _ => false
  }

  lemma LeafHashedIff<N>(g: Graph<N>, hashable: N -> bool, fh: FloatHash, n: N, d: nat)
    requires !g(n).Vector?
    ensures NodeHash(g, hashable, fh, n, d).Some? <==> HashableTo(g, hashable, n, d)
  {
    hide VectorFrom, StringHash, HashFrom, ItemHashes;
  }

  lemma VectorHashedIff<N>(g: Graph<N>, hashable: N -> bool, fh: FloatHash, n: N, d: nat)
    requires g(n).Vector?
    ensures NodeHash(g, hashable, fh, n, d).Some? <==>
      hashable(n) && d > 0 && forall i :: 0 <= i < |g(n).items| ==> NodeHash(g, hashable, fh, g(n).items[i], d - 1).Some?
  {
    hide VectorFrom, LeafHash;
    if hashable(n) && d > 0 {
      assert NodeHash(g, hashable, fh, n, d).Some? <==> ItemHashes(g, hashable, fh, g(n).items, d - 1).Some?;
      hide NodeHash;
    }
  }

  /** Just those values have a hash. */
  lemma {:induction false} HashedIff<N>(g: Graph<N>, hashable: N -> bool, fh: FloatHash, n: N, d: nat)
    ensures NodeHash(g, hashable, fh, n, d).Some? <==> HashableTo(g, hashable, n, d)
    decreases d
  {
    hide NodeHash;
    if g(n).Vector? {
      VectorHashedIff(g, hashable, fh, n, d);
      if d > 0 {
        forall i | 0 <= i < |g(n).items|
          ensures NodeHash(g, hashable, fh, g(n).items[i], d - 1).Some? <==> HashableTo(g, hashable, g(n).items[i], d - 1)
        {
          HashedIff(g, hashable, fh, g(n).items[i], d - 1);
        }
      }
    } else {
      LeafHashedIff(g, hashable, fh, n, d);
    }
  }

  // ---- hashing from a create-state ----

  /** Types the library hashes. The create-time hash of an empty vector looks at a vector that is not its own. */
  ghost predicate CreateHashable(s: State, n: Node<int>) {
    n.Ref? && IsHandle(s, n.v) && s.values[n.v].typ != VECTOR_VALUE && s.values[n.v].typ != VECTOR_EMPTY
  }

  ghost function CreateNodeHash(s: State, fh: FloatHash, n: Node<int>, d: nat): Option<u32> {
    NodeHash(CGraph(s), m => CreateHashable(s, m), fh, n, d)
  }

  lemma CreateLeafHash(s: State, fh: FloatHash, n: Node<int>, d: nat)
    ensures CShape(s, n).Leaf? ==> CreateNodeHash(s, fh, n, d) == LeafHash(fh, CShape(s, n).tree)
    ensures CShape(s, n).SetOf? || CShape(s, n).MapOf? || CShape(s, n).Broken? ==> CreateNodeHash(s, fh, n, d) == None
    ensures CShape(s, n).Vector? && (!CreateHashable(s, n) || d == 0) ==> CreateNodeHash(s, fh, n, d) == None
  {
    hide CShape, LeafHash;
  }

  lemma CompressedItemHash(s: State, fh: FloatHash, t: u32, item: int, d: nat)
    requires IsNumberVector(t) && IsHandle(s, item) && CompressesTo(t, s.values[item])
    ensures CreateNodeHash(s, fh, Ref(item), d) == Some(if t == VECTOR_FLOAT then fh(s.values[item].data) else IntOf(s.values[item]) % WORD)
  {
    CreateLeafHash(s, fh, Ref(item), d);
    hide CreateNodeHash;
  }

  lemma NumberItemHash(s: State, fh: FloatHash, t: u32, x: int, d: nat)
    requires IsNumberVector(t) && Fits(t, x)
    ensures CreateNodeHash(s, fh, Number(t, x), d) == Some(if t == VECTOR_FLOAT then fh(x) else x % WORD)
  {
    CreateLeafHash(s, fh, Number(t, x), d);
    hide CreateNodeHash;
  }

  /** The hash of one item of a vector, by the type of the vector. */
  method HashItem(s: State, v: CValue, item: int, d: nat, fh: FloatHash) returns (r: Option<u32>)
    requires Good(s) && IsHeapVector(v.typ) && v.typ != VECTOR_VALUE && d > 0
    requires GoodVectorItem(s, v, item)
    ensures r == CreateNodeHash(s, fh, if HoldsHandles(v) then Ref(item) else Number(v.typ, item), d - 1)
    decreases d, 1
  {
    hide CreateNodeHash, Good;
    if v.compressed {
      CompressedItemHash(s, fh, v.typ, item, d - 1);
      r := Some(if v.typ == VECTOR_FLOAT then fh(s.values[item].data) else IntOf(s.values[item]) % WORD);
    } else if IsValueVector(v.typ) {
      r := HashCreate(s, item, d - 1, fh);
    } else {
      NumberItemHash(s, fh, v.typ, item, d - 1);
      r := Some(if v.typ == VECTOR_FLOAT then fh(item) else item % WORD);
    }
  }

  lemma RawDecode(b: RawBitvector)
    requires ValidBits(b)
    ensures b.n <= 8 * |b.bytes| && Decode(BITVECTOR, 0, b.n, b.bytes) == RawBits(b.bytes, b.n)
  {
  }

  method HashCreate(s: State, h: int, d: nat, fh: FloatHash) returns (r: Option<u32>)
    requires Good(s) && IsPublic(s, h)
    ensures r == CreateNodeHash(s, fh, Ref(h), d)
    decreases d, 3
  {
    var v := s.values[h];
    if IsHeapVector(v.typ) {
      if v.typ != VECTOR_VALUE && d > 0 {
        r := HashCreateVector(s, h, d, fh);
      } else {
        VectorNotHashed(s, h, d, fh);
        r := None;
      }
    } else {
      r := HashCreateLeaf(s, h, d, fh);
    }
  }

  lemma VectorNotHashed(s: State, h: int, d: nat, fh: FloatHash)
    requires Good(s) && IsPublic(s, h) && IsHeapVector(s.values[h].typ) && (s.values[h].typ == VECTOR_VALUE || d == 0)
    ensures CreateNodeHash(s, fh, Ref(h), d) == None
  {
    assert GoodValue(s, h);
    CreateLeafHash(s, fh, Ref(h), d);
    hide CreateNodeHash, Good, GoodItems, LeafHash;
  }

  lemma TextLeaf(s: State, h: int)
    requires Good(s) && IsPublic(s, h) && IsText(s.values[h].typ)
    ensures s.values[h].data < |s.texts| && CShape(s, Ref(h)) == Leaf(TText(s.texts[s.values[h].data]))
  {
    assert GoodValue(s, h);
    hide Good;
  }

  lemma TextHashed(s: State, h: int, d: nat, fh: FloatHash)
    requires Good(s) && IsPublic(s, h) && IsText(s.values[h].typ)
    ensures s.values[h].data < |s.texts| && CreateNodeHash(s, fh, Ref(h), d) == Some(StringHash(s.texts[s.values[h].data].chars))
  {
    hide CreateNodeHash, Good, StringHash, CShape, HashFrom, IsText, IsPublic;
    TextLeaf(s, h);
    CreateLeafHash(s, fh, Ref(h), d);
  }

  lemma RawHashed(s: State, h: int, d: nat, fh: FloatHash)
    requires Good(s) && IsPublic(s, h) && s.values[h].typ == BITVECTOR
    ensures s.values[h].data < |s.bitvectors|
    ensures var b := s.bitvectors[s.values[h].data];
      && b.n <= 8 * |b.bytes|
      && CreateNodeHash(s, fh, Ref(h), d) == Some(HashFrom(Decode(BITVECTOR, 0, b.n, b.bytes), 0, 1, WORD) % WORD)
  {
    assert GoodValue(s, h);
    CreateLeafHash(s, fh, Ref(h), d);
    hide CreateNodeHash, Good, HashFrom, Decode, RawBits;
    RawDecode(s.bitvectors[s.values[h].data]);
  }

  lemma InlineHashed(s: State, h: int, d: nat, fh: FloatHash)
    requires IsPublic(s, h)
    ensures var v, r := s.values[h], CreateNodeHash(s, fh, Ref(h), d);
      && (v.typ == I32 ==> r == Some(AsI32(v.data) % WORD))
      && (v.typ == U32 || v.typ == BOOLEAN ==> r == Some(v.data))
      && (v.typ == FLOAT ==> r == Some(fh(v.data)))
      && (v.typ == NULL || v.typ == EMPTY_SLOT ==> r == Some(0))
      && (IsBitvectorType(v.typ) && v.typ != BITVECTOR ==> r == Some(HashFrom(Decode(v.typ, v.data, 0, []), 0, 1, WORD) % WORD))
  {
    CreateLeafHash(s, fh, Ref(h), d);
    hide CreateNodeHash, HashFrom, Decode;
  }

  /** What is neither an inline value nor a text, a bitvector or a vector with items has no hash. */
  lemma OthersNotHashed(s: State, h: int, d: nat, fh: FloatHash)
    requires Good(s) && IsPublic(s, h) && !IsHeapVector(s.values[h].typ) && !IsText(s.values[h].typ) && !IsBitvectorType(s.values[h].typ)
    requires s.values[h].typ !in {I32, U32, BOOLEAN, FLOAT, NULL, EMPTY_SLOT}
    ensures CreateNodeHash(s, fh, Ref(h), d) == None
  {
    CreateLeafHash(s, fh, Ref(h), d);
    hide CreateNodeHash, Good;
  }

  method HashCreateLeaf(s: State, h: int, d: nat, fh: FloatHash) returns (r: Option<u32>)
    requires Good(s) && IsPublic(s, h) && !IsHeapVector(s.values[h].typ)
    ensures r == CreateNodeHash(s, fh, Ref(h), d)
  {
    hide CreateNodeHash, Good, StringHash, HashFrom, Decode;
    var v := s.values[h];
    InlineHashed(s, h, d, fh);
    if IsText(v.typ) {
      TextHashed(s, h, d, fh);
      var x := HashChars(s.texts[v.data].chars);
      r := Some(x);
    } else if v.typ == I32 {
      r := Some(AsI32(v.data) % WORD);
    } else if v.typ == U32 || v.typ == BOOLEAN {
      r := Some(v.data);
    } else if v.typ == FLOAT {
      r := Some(fh(v.data));
    } else if v.typ == NULL || v.typ == EMPTY_SLOT {
      r := Some(0);
    } else if v.typ == BITVECTOR {
      RawHashed(s, h, d, fh);
      var b := s.bitvectors[v.data];
      var x := HashBits(BITVECTOR, 0, b.n, b.bytes, WORD);
      r := Some(x % WORD);
    } else if IsBitvectorType(v.typ) {
      var x := HashBits(v.typ, v.data, 0, [], WORD);
      r := Some(x % WORD);
    } else {
      OthersNotHashed(s, h, d, fh);
      r := None;
    }
  }

  ghost predicate VectorOf(s: State, h: int, nodes: seq<Node<int>>) {
    CShape(s, Ref(h)) == Vector(nodes) && CreateHashable(s, Ref(h))
  }

  lemma VectorHashed(s: State, fh: FloatHash, h: int, d: nat, nodes: seq<Node<int>>, hs: seq<u32>)
    requires VectorOf(s, h, nodes) && d > 0
    requires |hs| == |nodes| && forall i :: 0 <= i < |nodes| ==> CreateNodeHash(s, fh, nodes[i], d - 1) == Some(hs[i])
    ensures CreateNodeHash(s, fh, Ref(h), d) == Some(VectorFrom(StartVector(|nodes|), hs).End())
  {
    hide CShape, VectorFrom, CreateHashable;
    var all := ItemHashes(CGraph(s), m => CreateHashable(s, m), fh, nodes, d - 1);
    assert all.Some? && all.value == hs;
  }

  lemma VectorUnhashed(s: State, fh: FloatHash, h: int, d: nat, nodes: seq<Node<int>>, i: nat)
    requires VectorOf(s, h, nodes) && d > 0 && i < |nodes| && CreateNodeHash(s, fh, nodes[i], d - 1) == None
    ensures CreateNodeHash(s, fh, Ref(h), d) == None
  {
    hide CShape, VectorFrom, CreateHashable;
    assert ItemHashes(CGraph(s), m => CreateHashable(s, m), fh, nodes, d - 1) == None;
  }

  method HashCreateVector(s: State, h: int, d: nat, fh: FloatHash) returns (r: Option<u32>)
    requires Good(s) && 0 <= h < |s.values| && IsHeapVector(s.values[h].typ) && s.values[h].typ != VECTOR_VALUE && !s.values[h].setMap && d > 0
    ensures r == CreateNodeHash(s, fh, Ref(h), d)
    decreases d, 2
  {
    hide *;
    var v := s.values[h];
    var items := ItemsOf(s, v);
    ghost var nodes := ItemNodes(v, items);
    VectorItems(s, h);
    var state := StartVector(|items|);
    ghost var hs: seq<u32> := [];
    NoHashes(state);
    for i := 0 to |items|
      invariant |hs| == i && state == VectorFrom(StartVector(|items|), hs)
      invariant forall j :: 0 <= j < i ==> CreateNodeHash(s, fh, nodes[j], d - 1) == Some(hs[j])
    {
      VectorItem(s, h, i);
      var x := HashItem(s, v, items[i], d, fh);
      if x == None {
        VectorUnhashed(s, fh, h, d, nodes, i);
        return None;
      }
      OneMoreHash(StartVector(|items|), hs, x.value);
      state := state.Next(x.value);
      hs := hs + [x.value];
    }
    VectorHashed(s, fh, h, d, nodes, hs);
    r := Some(state.End());
  }

  lemma NoHashes(state: VectorState)
    ensures VectorFrom(state, []) == state
  {
  }

  lemma OneMoreHash(state: VectorState, hs: seq<u32>, h: u32)
    ensures VectorFrom(state, hs + [h]) == VectorFrom(state, hs).Next(h)
  {
    assert (hs + [h])[..|hs|] == hs;
  }

  /** An item that may be hashed by the vector's type. */
  ghost predicate GoodVectorItem(s: State, v: CValue, item: int) {
    if v.compressed then IsNumberVector(v.typ) && IsHandle(s, item) && CompressesTo(v.typ, s.values[item])
    else if IsValueVector(v.typ) then IsPublic(s, item)
    else IsNumberVector(v.typ) && Fits(v.typ, item)
  }

  lemma VectorItems(s: State, h: int)
    requires Good(s) && 0 <= h < |s.values| && IsHeapVector(s.values[h].typ) && s.values[h].typ != VECTOR_VALUE && !s.values[h].setMap
    ensures VectorOf(s, h, ItemNodes(s.values[h], ItemsOf(s, s.values[h])))
    ensures |ItemNodes(s.values[h], ItemsOf(s, s.values[h]))| == |ItemsOf(s, s.values[h])|
  {
    assert GoodValue(s, h);
    hide Good;
  }

  lemma VectorItem(s: State, h: int, i: nat)
    requires Good(s) && 0 <= h < |s.values| && IsHeapVector(s.values[h].typ) && !s.values[h].setMap && i < |ItemsOf(s, s.values[h])|
    ensures var v, items := s.values[h], ItemsOf(s, s.values[h]);
      && GoodVectorItem(s, v, items[i]) && i < |ItemNodes(v, items)|
      && ItemNodes(v, items)[i] == (if HoldsHandles(v) then Ref(items[i]) else Number(v.typ, items[i]))
  {
    assert GoodValue(s, h);
    hide Good;
  }

  // ---- hashing from a buffer ----

  ghost predicate ReadHashable(n: RNode) {
    n.Ref? && n.v.typ != VECTOR_VALUE
  }

  ghost function ReadNodeHash(buf: bytes, fh: FloatHash, n: RNode, d: nat): Option<u32>
    requires Opens(buf)
  {
    NodeHash(RGraph(buf), m => ReadHashable(m), fh, n, d)
  }

  lemma ReadLeafHash(buf: bytes, fh: FloatHash, n: RNode, d: nat)
    requires Opens(buf)
    ensures RShape(buf, n).Leaf? ==> ReadNodeHash(buf, fh, n, d) == LeafHash(fh, RShape(buf, n).tree)
    ensures RShape(buf, n).SetOf? || RShape(buf, n).MapOf? || RShape(buf, n).Broken? ==> ReadNodeHash(buf, fh, n, d) == None
    ensures RShape(buf, n).Vector? && (!ReadHashable(n) || d == 0) ==> ReadNodeHash(buf, fh, n, d) == None
  {
    hide RShape, LeafHash;
  }

  lemma ReadVectorHashed(buf: bytes, fh: FloatHash, n: RNode, d: nat, nodes: seq<RNode>, hs: seq<u32>)
    requires Opens(buf) && RShape(buf, n) == Vector(nodes) && ReadHashable(n) && d > 0
    requires |hs| == |nodes| && forall i :: 0 <= i < |nodes| ==> ReadNodeHash(buf, fh, nodes[i], d - 1) == Some(hs[i])
    ensures ReadNodeHash(buf, fh, n, d) == Some(VectorFrom(StartVector(|nodes|), hs).End())
  {
    hide RShape, VectorFrom, ReadHashable;
    var all := ItemHashes(RGraph(buf), m => ReadHashable(m), fh, nodes, d - 1);
    assert all.Some? && all.value == hs;
  }

  lemma ReadVectorUnhashed(buf: bytes, fh: FloatHash, n: RNode, d: nat, nodes: seq<RNode>, i: nat)
    requires Opens(buf) && RShape(buf, n) == Vector(nodes) && ReadHashable(n) && d > 0
    requires i < |nodes| && ReadNodeHash(buf, fh, nodes[i], d - 1) == None
    ensures ReadNodeHash(buf, fh, n, d) == None
  {
    hide RShape, VectorFrom, ReadHashable;
    assert ItemHashes(RGraph(buf), m => ReadHashable(m), fh, nodes, d - 1) == None;
  }

  /** Numbers that are read from a vector are numbers of its type. */
  lemma ReadNumbersFit(buf: bytes, r: RValue, i: nat)
    requires Opens(buf) && ValueShape(buf, r).Vector? && i < |ValueShape(buf, r).items| && ValueShape(buf, r).items[i].Number?
    ensures var n := ValueShape(buf, r).items[i]; IsNumberVector(n.t) && Fits(n.t, n.x)
  {
    hide ObjectAt, Word, Unwrap, Fits, TextAt, BitvectorAt, PartAt, Kept, Decode, ItemsAt;
    if IsHeapVector(r.typ) {
      var at := ObjectAt(buf, TextCount(buf) + r.data);
      ItemFits(buf, r.typ, at + 4, Word(buf, at, 4), i);
    }
  }

  lemma ItemFits(buf: bytes, t: u32, at: nat, n: nat, i: nat)
    requires IsHeapVector(t) && Within(buf, at, Width(t) * n) && i < n
    ensures var x := ItemsAt(buf, t, at, n)[i]; x.Number? ==> IsNumberVector(x.t) && Fits(x.t, x.x)
  {
    hide Fits, Unwrap, Word;
    var x := ItemsAt(buf, t, at, n)[i];
    if x.Number? { NumberFits(buf, t, at + Width(t) * i); }
  }

  method HashReadItem(buf: bytes, n: RNode, d: nat, fh: FloatHash) returns (h: Option<u32>)
    requires Opens(buf) && (n.Number? ==> IsNumberVector(n.t) && Fits(n.t, n.x))
    ensures h == ReadNodeHash(buf, fh, n, d)
    decreases d, 1
  {
    match n
    case Ref(r) =>
      h := HashRead(buf, r, d, fh);
    case Number(t, x) =>
      ReadLeafHash(buf, fh, n, d);
      hide ReadNodeHash, Opens;
      h := Some(if t == VECTOR_FLOAT then fh(x) else x % WORD);
  }

  method HashRead(buf: bytes, r: RValue, d: nat, fh: FloatHash) returns (h: Option<u32>)
    requires Opens(buf)
    ensures h == ReadNodeHash(buf, fh, Ref(r), d)
    decreases d, 0
  {
    ReadLeafHash(buf, fh, Ref(r), d);
    hide ReadNodeHash, Opens, ValueShape, StringHash, HashFrom, VectorFrom;
    match ValueShape(buf, r) {
      case Leaf(TText(x)) =>
        var y := HashChars(x.chars);
        h := Some(y);
      case Leaf(TBits(bits)) =>
        h := Some(HashFrom(bits, 0, 1, WORD) % WORD);
      case Leaf(TInt(v)) => h := Some(v % WORD);
      case Leaf(TFloat(p)) => h := Some(fh(p));
      case Leaf(TBool(flag)) => h := Some(flag);
      case Leaf(TNull) => h := Some(0);
      case Leaf(TEmptySlot) => h := Some(0);
      case Vector(items) =>
        if r.typ == VECTOR_VALUE || d == 0 {
          h := None;
        } else {
          h := HashReadVector(buf, r, items, d, fh);
        }
      case _ => h := None;
    }
  }

  lemma IsReadVector(buf: bytes, r: RValue, items: seq<RNode>)
    requires Opens(buf) && ValueShape(buf, r) == Vector(items) && r.typ != VECTOR_VALUE
    ensures RShape(buf, Ref(r)) == Vector(items) && ReadHashable(Ref(r))
  {
    hide ValueShape, Opens;
  }

  method HashReadVector(buf: bytes, r: RValue, items: seq<RNode>, d: nat, fh: FloatHash) returns (h: Option<u32>)
    requires Opens(buf) && ValueShape(buf, r) == Vector(items) && r.typ != VECTOR_VALUE && d > 0
    ensures h == ReadNodeHash(buf, fh, Ref(r), d)
    decreases d - 1, 2
  {
    hide *;
    var state := StartVector(|items|);
    ghost var hs: seq<u32> := [];
    NoHashes(state);
    IsReadVector(buf, r, items);
    for i := 0 to |items|
      invariant |hs| == i && state == VectorFrom(StartVector(|items|), hs)
      invariant forall j :: 0 <= j < i ==> ReadNodeHash(buf, fh, items[j], d - 1) == Some(hs[j])
    {
      if items[i].Number? { ReadNumbersFit(buf, r, i); }
      var x := HashReadItem(buf, items[i], d - 1, fh);
      if x == None {
        ReadVectorUnhashed(buf, fh, Ref(r), d, items, i);
        return None;
      }
      OneMoreHash(StartVector(|items|), hs, x.value);
      state := state.Next(x.value);
      hs := hs + [x.value];
    }
    ReadVectorHashed(buf, fh, Ref(r), d, items, hs);
    h := Some(state.End());
  }

  // ---- agreement ----

  lemma {:induction false} HashedAlike(s: State, root: int, fh: FloatHash, a: Node<int>, b: RNode, d: nat)
    requires Writable(s) && IsHandle(s, root) && Same(s, a, b) && CreateNodeHash(s, fh, a, d).Some?
    ensures Opens(Serialized(s, root)) && ReadNodeHash(Serialized(s, root), fh, b, d) == CreateNodeHash(s, fh, a, d)
    decreases d
  {
    SameMatches(s, root, a, b);
    var buf := Serialized(s, root);
    hide Writable, Good, Opens, Serialized, Same, SameIn, CreateNodeHash, ReadNodeHash, LeafHash, CShape, RShape;
    CreateLeafHash(s, fh, a, d);
    ReadLeafHash(buf, fh, b, d);
    if CShape(s, a).Vector? {
      VectorsAgree(s, root, fh, a, b, d);
    }
  }

  lemma {:induction false} VectorsAgree(s: State, root: int, fh: FloatHash, a: Node<int>, b: RNode, d: nat)
    requires Writable(s) && IsHandle(s, root) && Same(s, a, b) && CreateNodeHash(s, fh, a, d).Some? && CShape(s, a).Vector? && d > 0
    requires Opens(Serialized(s, root)) && Matches(SameIn(s), CShape(s, a), RShape(Serialized(s, root), b))
    ensures ReadNodeHash(Serialized(s, root), fh, b, d) == CreateNodeHash(s, fh, a, d)
    decreases d, 0
  {
    hide *;
    HeaderOpens(s, root);
    var buf := Serialized(s, root);
    RelatedItems(s, CShape(s, a), RShape(buf, b));
    var xs, ys := CShape(s, a).items, RShape(buf, b).items;
    HashableAlike(s, a, b, fh, d);
    var hs := CreateVectorItems(s, fh, a, d);
    forall i | 0 <= i < |xs| ensures ReadNodeHash(buf, fh, ys[i], d - 1) == Some(hs[i]) {
      HashedAlike(s, root, fh, xs[i], ys[i], d - 1);
    }
    ReadVectorHashed(buf, fh, b, d, ys, hs);
  }

  /**
    A value hashes alike before and after writing, whenever it can be hashed at create time: it is nested at most d deep
    and holds no set or map, and no vector that is empty or not marked hashable.
   */
  lemma HashesAgree(s: State, root: int, fh: FloatHash, a: Node<int>, b: RNode, d: nat)
    requires Writable(s) && IsHandle(s, root) && Same(s, a, b) && HashableTo(CGraph(s), m => CreateHashable(s, m), a, d)
    ensures CreateNodeHash(s, fh, a, d).Some?
    ensures Opens(Serialized(s, root)) && ReadNodeHash(Serialized(s, root), fh, b, d) == CreateNodeHash(s, fh, a, d)
  {
    hide Writable, Opens, Serialized, Same, HashableTo, NodeHash;
    HashedIff(CGraph(s), m => CreateHashable(s, m), fh, a, d);
    HashedAlike(s, root, fh, a, b, d);
  }

  lemma RelatedItems(s: State, x: Shape<Node<int>>, y: Shape<RNode>)
    requires Matches(SameIn(s), x, y) && x.Vector?
    ensures y.Vector? && |y.items| == |x.items| && forall i :: 0 <= i < |x.items| ==> Same(s, x.items[i], y.items[i])
  {
  }

  /** A vector that was hashed had all its items hashed. */
  lemma CreateVectorItems(s: State, fh: FloatHash, a: Node<int>, d: nat) returns (hs: seq<u32>)
    requires CShape(s, a).Vector? && CreateNodeHash(s, fh, a, d).Some? && d > 0
    ensures var xs := CShape(s, a).items;
      && |hs| == |xs| && (forall i :: 0 <= i < |xs| ==> CreateNodeHash(s, fh, xs[i], d - 1) == Some(hs[i]))
      && CreateNodeHash(s, fh, a, d) == Some(VectorFrom(StartVector(|xs|), hs).End())
  {
    hide CShape, VectorFrom, CreateHashable, LeafHash;
    hs := ItemHashes(CGraph(s), m => CreateHashable(s, m), fh, CShape(s, a).items, d - 1).value;
  }

  lemma HashableAlike(s: State, a: Node<int>, b: RNode, fh: FloatHash, d: nat)
    requires Same(s, a, b) && CShape(s, a).Vector? && CreateNodeHash(s, fh, a, d).Some?
    ensures ReadHashable(b) && CreateHashable(s, a)
  {
    CreateLeafHash(s, fh, a, d);
    hide CreateNodeHash;
  }

  /** Nodes that are the same value look the same one level down. */
  lemma SameMatches(s: State, root: int, a: Node<int>, b: RNode)
    requires Writable(s) && IsHandle(s, root) && Same(s, a, b)
    ensures Opens(Serialized(s, root)) && Matches(SameIn(s), CShape(s, a), RShape(Serialized(s, root), b))
  {
    HeaderOpens(s, root);
    if a.Ref? && b.Number? { NumbersMatch(s, a.v, b.t, b.x); }
    if a.Number? { NumberIsLeaf(a.t, a.x); }
    hide Writable, Good, Opens, ToRead, CShape, ValueShape, CompressesTo, NumberShape, Serialized, Matches;
    if a.Ref? && b.Ref? {
      ValuesMatch(s, root, a.v);
    } else {
      LeavesMatch(s, CShape(s, a), RShape(Serialized(s, root), b));
    }
  }

  lemma LeavesMatch(s: State, x: Shape<Node<int>>, y: Shape<RNode>)
    requires x.Leaf? && y.Leaf? && x.tree == y.tree
    ensures Matches(SameIn(s), x, y)
  {
  }

  lemma HeaderOpens(s: State, root: int)
    requires Writable(s) && IsHandle(s, root)
    ensures Good(s) && Opens(Serialized(s, root))
  {
    HeaderReads(s, root);
  }

  /** The hash of a vector of integers is that of its integers, whatever type holds them. */
  lemma HashIgnoresRepresentation<N, M>(g: Graph<N>, ok: N -> bool, n: N, g': Graph<M>, ok': M -> bool, m: M, fh: FloatHash, d: nat)
    requires ok(n) && ok'(m) && g(n).Vector? && g'(m).Vector? && |g(n).items| == |g'(m).items|
    requires forall i :: 0 <= i < |g(n).items| ==> g(g(n).items[i]).Leaf? && g'(g'(m).items[i]).Leaf? && g(g(n).items[i]).tree == g'(g'(m).items[i]).tree
    ensures NodeHash(g, ok, fh, n, d) == NodeHash(g', ok', fh, m, d)
  {
    if d > 0 {
      var xs, ys := g(n).items, g'(m).items;
      forall i | 0 <= i < |xs| ensures NodeHash(g, ok, fh, xs[i], d - 1) == NodeHash(g', ok', fh, ys[i], d - 1) {
      }
      hide LeafHash, VectorFrom;
      var hs, hs' := ItemHashes(g, ok, fh, xs, d - 1), ItemHashes(g', ok', fh, ys, d - 1);
      assert hs.Some? == hs'.Some?;
      if hs.Some? { assert hs.value == hs'.value; }
    }
  }
}

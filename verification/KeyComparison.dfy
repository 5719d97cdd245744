/**
  What the comparison means for keys: the hash of a value is a function of its key; in a buffer, values compare equal
  when they have one key; at create time, different keys can be taken for one, and exactly which. What populate makes
  of that is in `TableComparison`.
 */
module KeyComparison {
  import opened Wrappers
  import opened PowersOfTwo
  import opened Bitvector
  import opened Unfolding
  import opened Values
  import opened CreateState
  import opened Bytes
  import opened Heap
  import opened Reader
  import opened ValueHash
  import opened ValueComparison

  // ---- hashes of keys ----

  function HashKey(k: Key): u32 {
    match k
    case KNumber(n) => n % WORD
    case KText(chars) => StringHash(chars)
    case KBits(bits) => HashFrom(bits, 0, 1, WORD) % WORD
    case KNull => 0
    case KEmptySlot => 0
    case KVector(items) => VectorFrom(StartVector(|items|), HashKeys(items)).End()
  }

  function HashKeys(ks: seq<Key>): (r: seq<u32>)
    ensures |r| == |ks| && forall i :: 0 <= i < |ks| ==> r[i] == HashKey(ks[i])
  {
    if ks == [] then [] else [HashKey(ks[0])] + HashKeys(ks[1..])
  }

  lemma LeafHashOfKey(fh: FloatHash, t: Tree, k: Key)
    requires KeyOf(t) == Some(k) && LeafHash(fh, t).Some?
    ensures LeafHash(fh, t) == Some(HashKey(k))
  {
    hide StringHash, HashFrom, KeysOf, NoZero;
  }

  lemma VectorHashParts<N>(p: View<N>, hashable: N -> bool, fh: FloatHash, n: N, d: nat) returns (hs: seq<u32>)
    requires p.shape(n).Vector? && NodeHash(p.shape, hashable, fh, n, d).Some?
    ensures d > 0 && |hs| == |p.shape(n).items|
    ensures forall i :: 0 <= i < |hs| ==> NodeHash(p.shape, hashable, fh, p.shape(n).items[i], d - 1) == Some(hs[i])
    ensures NodeHash(p.shape, hashable, fh, n, d) == Some(VectorFrom(StartVector(|hs|), hs).End())
  {
    hide VectorFrom, LeafHash;
    hs := ItemHashes(p.shape, hashable, fh, p.shape(n).items, d - 1).value;
  }

  /** The hash of a value is a function of its key. */
  lemma {:induction false} HashOfKey<N(!new)>(p: View<N>, hashable: N -> bool, fh: FloatHash, n: N, d: nat, k: Key)
    requires WellTyped(p) && KeyAt(p, n, d) == Some(k) && NodeHash(p.shape, hashable, fh, n, d).Some?
    ensures NodeHash(p.shape, hashable, fh, n, d) == Some(HashKey(k))
    decreases d
  {
    hide WellTyped, VectorFrom, KeyTyped, LeafHash, StringHash, HashFrom, NodeHash, KeyAt, HashKeys;
    KeyedShape(p, n, d, k);
    if p.shape(n).Leaf? {
      LeafIsHashed(p, hashable, fh, n, d, k);
    } else {
      var items := p.shape(n).items;
      var hs := VectorHashParts(p, hashable, fh, n, d);
      forall i | 0 <= i < |items|
        ensures hs[i] == HashKey(k.items[i])
      {
        HashOfKey(p, hashable, fh, items[i], d - 1, k.items[i]);
      }
      assert hs == HashKeys(k.items);
    }
  }

  lemma LeafIsHashed<N>(p: View<N>, hashable: N -> bool, fh: FloatHash, n: N, d: nat, k: Key)
    requires p.shape(n).Leaf? && KeyAt(p, n, d) == Some(k) && NodeHash(p.shape, hashable, fh, n, d).Some?
    ensures NodeHash(p.shape, hashable, fh, n, d) == Some(HashKey(k))
  {
    hide LeafHash, HashKey;
    LeafHashOfKey(fh, p.shape(n).tree, k);
  }

  // ---- views ----

  function ReadType(n: RNode): u32 {
    match n case Ref(r) => r.typ case Number(t, _) => ItemType(t)
  }

  ghost function ReadView(buf: bytes): View<RNode>
    requires Opens(buf)
  {
    View(RGraph(buf), n => ReadType(n), _ => Items)
  }

  function CreateType(s: State, n: Node<int>): u32 {
    match n case Ref(h) => if IsHandle(s, h) then s.values[h].typ else NULL case Number(t, _) => ItemType(t)
  }

  /**
    The items of a vector that the library owns are looked up as handles. That is what they are in a value vector or a
    compressed one, but not in a vector created for numbers. An empty vector has no items of its own.
   */
  function CreateAccess(s: State, n: Node<int>): Access {
    if n.Number? || !IsHandle(s, n.v) then Items
    else if s.values[n.v].typ == VECTOR_EMPTY then Elsewhere
    else if KindOf(s.values[n.v]) == PrivateVector && !HoldsHandles(s.values[n.v]) then NumberOnly
    else Items
  }

  ghost function CreateView(s: State): View<Node<int>> {
    View(CGraph(s), n => CreateType(s, n), n => CreateAccess(s, n))
  }

  lemma NumberTyped<N>(t: u32, x: int)
    ensures TypedAt(ItemType(t), NumberShape<N>(t, x))
  {
  }

  lemma InlineTyped<N>(t: u32, data: u32)
    requires IsInline(t)
    ensures TypedAt(t, InlineShape<N>(t, data))
  {
    hide Decode;
  }

  lemma RefTyped(buf: bytes, r: RValue)
    requires Opens(buf)
    ensures TypedAt(r.typ, ValueShape(buf, r))
  {
    hide Opens, VectorAt, TextAt, BitvectorAt, ObjectAt, PartAt, Decode, InlineShape, Kept, Filled, Within, ValueAt;
    if IsInline(r.typ) && r.data < 0x1_0000_0000 { InlineTyped<RNode>(r.typ, r.data); }
  }

  lemma ReadViewWellTyped(buf: bytes)
    requires Opens(buf)
    ensures WellTyped(ReadView(buf))
  {
    forall n: RNode
      ensures TypedAt(ReadType(n), RShape(buf, n))
    {
      hide Opens, ValueShape, TypedAt, NumberShape;
      match n
      case Number(t, x) => NumberTyped<RNode>(t, x);
      case Ref(r) => RefTyped(buf, r);
    }
  }

  lemma CreateViewWellTyped(s: State)
    ensures WellTyped(CreateView(s))
  {
    forall n: Node<int>
      ensures TypedAt(CreateType(s, n), CShape(s, n))
    {
      match n
      case Number(t, x) => NumberTyped<Node<int>>(t, x);
      case Ref(h) =>
        if IsHandle(s, h) && IsInline(s.values[h].typ) { InlineTyped<Node<int>>(s.values[h].typ, s.values[h].data); }
    }
  }

  // ---- comparing what is in a buffer ----

  /** No bitvector in it. */
  predicate WithoutBits(k: Key) {
    !k.KBits? && (k.KVector? ==> forall i :: 0 <= i < |k.items| ==> WithoutBits(k.items[i]))
  }

  /** Reading a buffer, values without bitvectors are never misread. */
  lemma {:induction false} WithoutBitsNotMisled(bufA: bytes, a: RNode, bufB: bytes, b: RNode, d: nat, x: Key)
    requires Opens(bufA) && Opens(bufB) && KeyAt(ReadView(bufA), a, d) == Some(x) && WithoutBits(x)
    ensures !Misled(false, ReadView(bufA), a, ReadView(bufB), b, d)
    decreases d
  {
    hide Opens, KeyAt, WellTyped, KeyTyped, Unfold, RShape, WithoutBits;
    ReadViewWellTyped(bufA);
    KeyedShape(ReadView(bufA), a, d, x);
    var s, t := RShape(bufA, a), RShape(bufB, b);
    if s.Vector? && t.Vector? {
      forall i | 0 <= i < |s.items| && i < |t.items|
        ensures !Misled(false, ReadView(bufA), s.items[i], ReadView(bufB), t.items[i], d - 1)
      {
        PartsWithoutBits(x, i);
        WithoutBitsNotMisled(bufA, s.items[i], bufB, t.items[i], d - 1, x.items[i]);
      }
    } else if s.Leaf? {
      LeafKey(ReadView(bufA), a, d, x);
      assert !s.tree.TBits? by { PartsWithoutBits(x, 0); }
    }
  }

  lemma PartsWithoutBits(x: Key, i: nat)
    requires WithoutBits(x)
    ensures !x.KBits? && (x.KVector? && i < |x.items| ==> WithoutBits(x.items[i]))
  {
  }

  lemma LeafKey<N>(p: View<N>, n: N, d: nat, x: Key)
    requires KeyAt(p, n, d) == Some(x) && p.shape(n).Leaf?
    ensures KeyOf(p.shape(n).tree) == Some(x) && (p.shape(n).tree.TBits? ==> x.KBits?)
  {
  }

  /**
    Values of one or two buffers, not misread for bitvectors of different encodings, compare equal exactly when they
    have one key, and then they hash alike.
   */
  lemma ReadEqualMeansSameKey(floats: FloatOrder, fh: FloatHash, bufA: bytes, a: RNode, bufB: bytes, b: RNode, d: nat)
    requires Opens(bufA) && Opens(bufB) && 2 * d < MAX_DEPTH
    requires KeyAt(ReadView(bufA), a, d).Some? && KeyAt(ReadView(bufB), b, d).Some?
    ensures Compare(false, floats, ReadView(bufA), a, ReadView(bufB), b, 0) == Misread <==> Misled(false, ReadView(bufA), a, ReadView(bufB), b, d)
    ensures !Misled(false, ReadView(bufA), a, ReadView(bufB), b, d) ==>
      (Compare(false, floats, ReadView(bufA), a, ReadView(bufB), b, 0) == Order(0) <==>
       KeyAt(ReadView(bufA), a, d) == KeyAt(ReadView(bufB), b, d))
    ensures !Misled(false, ReadView(bufA), a, ReadView(bufB), b, d) ==>
      ReadNodeHash(bufA, fh, a, d).Some? && ReadNodeHash(bufB, fh, b, d).Some? ==>
      Compare(false, floats, ReadView(bufA), a, ReadView(bufB), b, 0) == Order(0) ==> ReadNodeHash(bufA, fh, a, d) == ReadNodeHash(bufB, fh, b, d)
  {
    hide Compare, KeyAt, WellTyped, HashKey, Opens, NodeHash, Misled;
    ReadViewWellTyped(bufA);
    ReadViewWellTyped(bufB);
    var x, y := KeyAt(ReadView(bufA), a, d).value, KeyAt(ReadView(bufB), b, d).value;
    ComparedExactly(false, floats, ReadView(bufA), a, ReadView(bufB), b, 0, d, x, y);
    if ReadNodeHash(bufA, fh, a, d).Some? && ReadNodeHash(bufB, fh, b, d).Some? {
      HashOfKey(ReadView(bufA), m => ReadHashable(m), fh, a, d, x);
      HashOfKey(ReadView(bufB), m => ReadHashable(m), fh, b, d, y);
    }
  }

  // ---- comparing at create time ----

  /** Keys whose parts are of the same kinds, as far as both go. */
  predicate SameKind(x: Key, y: Key) {
    match x
    case KNumber(_) => y.KNumber?
    case KText(_) => y.KText?
    case KBits(_) => y.KBits?
    case KNull => y.KNull?
    case KEmptySlot => y.KEmptySlot?
    case KVector(items) => y.KVector? && forall i :: 0 <= i < |items| && i < |y.items| ==> SameKind(items[i], y.items[i])
  }

  /** Keys of the same kind are loosely equal only if they are equal. */
  lemma {:induction false} SameKindComparesRight(x: Key, y: Key)
    requires SameKind(x, y)
    ensures LooseEqual(x, y) <==> x == y
  {
    if x.KVector? && |x.items| == |y.items| {
      forall i | 0 <= i < |x.items|
        ensures LooseEqual(x.items[i], y.items[i]) <==> x.items[i] == y.items[i]
      {
        SameKindComparesRight(x.items[i], y.items[i]);
      }
    }
  }

  /** Keys that are taken for any key of another kind: null, the empty slot, strings, zero, and a bitvector of no bits. */
  predicate TakesAnything(k: Key) {
    k.KNull? || k.KEmptySlot? || k.KText? || k == KNumber(0) || k == KBits([])
  }

  /**
    Keys of different kinds of which the first takes anything; or different vectors of one length in which every pair
    of items is equal or confused.
   */
  predicate Confused(x: Key, y: Key) {
    if x.KVector? && y.KVector? then
      && x != y && |x.items| == |y.items|
      && forall i :: 0 <= i < |x.items| ==> x.items[i] == y.items[i] || Confused(x.items[i], y.items[i])
    else !SameKind(x, y) && TakesAnything(x)
  }

  /** Keys are loosely equal exactly when they are equal or confused. */
  lemma {:induction false} LooseEqualIff(x: Key, y: Key)
    ensures LooseEqual(x, y) <==> x == y || Confused(x, y)
  {
    if x.KVector? && y.KVector? && |x.items| == |y.items| {
      forall i | 0 <= i < |x.items|
        ensures LooseEqual(x.items[i], y.items[i]) <==> x.items[i] == y.items[i] || Confused(x.items[i], y.items[i])
      {
        LooseEqualIff(x.items[i], y.items[i]);
      }
    }
  }

  // ---- the procedures ----

  /** The whole comparison of two vectors is that of what is left of them after equal items. */
  lemma ItemsFrom<N, M>(create: bool, floats: FloatOrder, p: View<N>, xs: seq<N>, q: View<M>, ys: seq<M>, depth: nat, i: nat)
    requires depth < MAX_DEPTH + 2 && i < |xs| && i < |ys|
    ensures Compare(create, floats, p, xs[i], q, ys[i], depth) == Order(0) ==>
      CompareItems(create, floats, p, xs[i..], q, ys[i..], depth) == CompareItems(create, floats, p, xs[i + 1..], q, ys[i + 1..], depth)
    ensures Compare(create, floats, p, xs[i], q, ys[i], depth) != Order(0) ==>
      CompareItems(create, floats, p, xs[i..], q, ys[i..], depth) == Compare(create, floats, p, xs[i], q, ys[i], depth)
  {
    hide Compare;
    assert xs[i..][1..] == xs[i + 1..] && ys[i..][1..] == ys[i + 1..];
  }

  lemma ItemsEnd<N, M>(create: bool, floats: FloatOrder, p: View<N>, xs: seq<N>, q: View<M>, ys: seq<M>, depth: nat, i: nat)
    requires depth < MAX_DEPTH + 2 && (i == |xs| <= |ys| || i == |ys| <= |xs|)
    ensures CompareItems(create, floats, p, xs[i..], q, ys[i..], depth) == Order(SimpleCmp(|xs|, |ys|))
  {
  }

  /** Vectors are compared item by item: the first difference decides, and without one the lengths. */
  lemma {:induction false} FirstDifferenceDecides<N, M>(create: bool, floats: FloatOrder, p: View<N>, xs: seq<N>, q: View<M>, ys: seq<M>, depth: nat, i: nat)
    requires depth < MAX_DEPTH + 2 && i <= |xs| && i <= |ys|
    requires forall j :: 0 <= j < i ==> Compare(create, floats, p, xs[j], q, ys[j], depth) == Order(0)
    ensures i < |xs| && i < |ys| && Compare(create, floats, p, xs[i], q, ys[i], depth) != Order(0) ==>
      CompareItems(create, floats, p, xs, q, ys, depth) == Compare(create, floats, p, xs[i], q, ys[i], depth)
    ensures i == |xs| == |ys| ==> CompareItems(create, floats, p, xs, q, ys, depth) == Order(0)
    ensures i == |xs| < |ys| ==> CompareItems(create, floats, p, xs, q, ys, depth) == Order(-1)
    ensures i == |ys| < |xs| ==> CompareItems(create, floats, p, xs, q, ys, depth) == Order(1)
  {
    hide Compare, CompareItems;
    for k := 0 to i
      invariant CompareItems(create, floats, p, xs, q, ys, depth) == CompareItems(create, floats, p, xs[k..], q, ys[k..], depth)
    {
      ItemsFrom(create, floats, p, xs, q, ys, depth, k);
    }
    if i < |xs| && i < |ys| {
      ItemsFrom(create, floats, p, xs, q, ys, depth, i);
    } else {
      ItemsEnd(create, floats, p, xs, q, ys, depth, i);
    }
  }

  /** In a buffer, values of different kinds are ordered by their type codes. */
  lemma KindsAreOrderedByType<N, M>(floats: FloatOrder, p: View<N>, a: N, q: View<M>, b: M, depth: nat)
    requires depth < MAX_DEPTH && GroupOf(false, p.typ(a)) != GroupOf(false, q.typ(b))
    ensures Compare(false, floats, p, a, q, b, depth) == Order(if p.typ(a) < q.typ(b) then -1 else 1)
  {
    assert p.typ(a) != q.typ(b);
  }

  /** A level of vectors takes two of the depth: two vectors of one leaf each are compared unless fewer than three are left. */
  lemma VectorsTakeTwoLevels<N, M>(floats: FloatOrder, p: View<N>, a: N, x: N, q: View<M>, b: M, y: M, depth: nat)
    requires GroupOf(false, p.typ(a)) == GroupOf(false, q.typ(b)) == Vectors && p.access(a) == q.access(b) == Items
    requires p.shape(a) == Vector([x]) && q.shape(b) == Vector([y]) && depth < MAX_DEPTH
    requires GroupOf(false, p.typ(x)) == GroupOf(false, q.typ(y)) == Nulls
    ensures Compare(false, floats, p, a, q, b, depth) == if depth + 2 < MAX_DEPTH then Order(0) else TooDeep
  {
    var c := Compare(false, floats, p, x, q, y, depth + 2);
    assert c == if depth + 2 < MAX_DEPTH then Order(0) else TooDeep;
    FirstDifferenceDecides(false, floats, p, [x], q, [y], depth + 2, if c == Order(0) then 1 else 0);
    hide GroupOf;
  }

  method CompareLeaves(floats: FloatOrder, group: Group, ta: u32, a: Tree, tb: u32, b: Tree) returns (c: Outcome)
    ensures c == CompareLeaf(floats, group, ta, a, tb, b)
  {
    if group == Texts && a.TText? && b.TText? {
      var sign := CompareStrings(a.text.chars, b.text.chars);
      c := Order(sign);
    } else if group == Bitvectors && ta == tb && a.TBits? && b.TBits? {
      var sign := CompareBitvectors(a.bits, b.bits);
      c := Order(sign);
    } else {
      c := CompareLeaf(floats, group, ta, a, tb, b);
    }
  }

  method CompareRead(floats: FloatOrder, bufA: bytes, a: RNode, bufB: bytes, b: RNode, depth: nat) returns (c: Outcome)
    requires Opens(bufA) && Opens(bufB) && depth < MAX_DEPTH + 2
    ensures c == Compare(false, floats, ReadView(bufA), a, ReadView(bufB), b, depth)
    decreases MAX_DEPTH + 2 - depth, 0
  {
    hide Opens, RShape, CompareLeaf, GroupOf, CompareItems;
    if depth >= MAX_DEPTH {
      return TooDeep;
    }
    var ta, tb := ReadType(a), ReadType(b);
    var group := GroupOf(false, ta);
    if group != GroupOf(false, tb) {
      return Order(SimpleCmp(ta, tb));
    }
    var x, y := RShape(bufA, a), RShape(bufB, b);
    if group != Vectors {
      c := CompareLeaves(floats, group, ta, LeafOf(x), tb, LeafOf(y));
    } else if x.Vector? && y.Vector? {
      c := CompareReadItems(floats, bufA, x.items, bufB, y.items, depth + 2);
    } else {
      c := Misread;
    }
  }

  method CompareReadItems(floats: FloatOrder, bufA: bytes, xs: seq<RNode>, bufB: bytes, ys: seq<RNode>, depth: nat) returns (c: Outcome)
    requires Opens(bufA) && Opens(bufB) && depth < MAX_DEPTH + 2
    ensures c == CompareItems(false, floats, ReadView(bufA), xs, ReadView(bufB), ys, depth)
    decreases MAX_DEPTH + 2 - depth, 1
  {
    hide *;
    var n := if |xs| < |ys| then |xs| else |ys|;
    for i := 0 to n
      invariant CompareItems(false, floats, ReadView(bufA), xs, ReadView(bufB), ys, depth)
        == CompareItems(false, floats, ReadView(bufA), xs[i..], ReadView(bufB), ys[i..], depth)
    {
      ItemsFrom(false, floats, ReadView(bufA), xs, ReadView(bufB), ys, depth, i);
      c := CompareRead(floats, bufA, xs[i], bufB, ys[i], depth);
      if c != Order(0) {
        return;
      }
    }
    ItemsEnd(false, floats, ReadView(bufA), xs, ReadView(bufB), ys, depth, n);
    c := Order(SimpleCmp(|xs|, |ys|));
  }

  method CompareCreated(floats: FloatOrder, s: State, a: Node<int>, b: Node<int>, depth: nat) returns (c: Outcome)
    requires depth < MAX_DEPTH + 2
    ensures c == Compare(true, floats, CreateView(s), a, CreateView(s), b, depth)
    decreases MAX_DEPTH + 2 - depth, 0
  {
    hide CShape, CompareLeaf, GroupOf, CompareItems;
    if depth >= MAX_DEPTH {
      return TooDeep;
    }
    var ta, tb := CreateType(s, a), CreateType(s, b);
    var group := GroupOf(true, ta);
    var x, y := CShape(s, a), CShape(s, b);
    if group != Vectors {
      c := CompareLeaves(floats, group, ta, LeafOf(x), tb, LeafOf(y));
    } else if CreateAccess(s, a) == Elsewhere || CreateAccess(s, b) == Elsewhere || !x.Vector? || !y.Vector? {
      c := Misread;
    } else if (CreateAccess(s, a) == NumberOnly || CreateAccess(s, b) == NumberOnly) && x.items != [] && y.items != [] {
      c := Misread;
    } else {
      c := CompareCreatedItems(floats, s, x.items, y.items, depth + 2);
    }
  }

  method CompareCreatedItems(floats: FloatOrder, s: State, xs: seq<Node<int>>, ys: seq<Node<int>>, depth: nat) returns (c: Outcome)
    requires depth < MAX_DEPTH + 2
    ensures c == CompareItems(true, floats, CreateView(s), xs, CreateView(s), ys, depth)
    decreases MAX_DEPTH + 2 - depth, 1
  {
    hide *;
    var n := if |xs| < |ys| then |xs| else |ys|;
    for i := 0 to n
      invariant CompareItems(true, floats, CreateView(s), xs, CreateView(s), ys, depth)
        == CompareItems(true, floats, CreateView(s), xs[i..], CreateView(s), ys[i..], depth)
    {
      ItemsFrom(true, floats, CreateView(s), xs, CreateView(s), ys, depth, i);
      c := CompareCreated(floats, s, xs[i], ys[i], depth);
      if c != Order(0) {
        return;
      }
    }
    ItemsEnd(true, floats, CreateView(s), xs, CreateView(s), ys, depth, n);
    c := Order(SimpleCmp(|xs|, |ys|));
  }
}

/**
  Writing a create-state and reading it back: every value reads as what it was created as, at every depth,
  however cyclic or shared the graph is.
 */
module RoundTrip {
  import opened Wrappers
  import opened PowersOfTwo
  import opened Bitvector
  import opened Unfolding
  import opened Values
  import opened CreateState
  import opened Bytes
  import opened Heap
  import opened Reader
  import opened ReadBack

  /** The create-time node a and the node b of the buffer are the same value. */
  ghost predicate Same(s: State, a: Node<int>, b: RNode) {
    match a
    case Number(t, x) => IsNumberVector(t) && Fits(t, x) && b == Number(t, x)
    case Ref(h) =>
      IsPublic(s, h) &&
      (b == Ref(ToRead(s, h)) || (b.Number? && CompressesTo(b.t, s.values[h]) && b.x == IntOf(s.values[h])))
  }

  ghost function SameIn(s: State): Relation<Node<int>, RNode> {
    (a, b) => Same(s, a, b)
  }

  lemma ItemsAreSame(s: State, h: int)
    requires Writable(s) && IsPublic(s, h) && IsHeapVector(s.values[h].typ)
    ensures AllRelated(SameIn(s), ItemNodes(s.values[h], ItemsOf(s, s.values[h])), ReadItems(s, s.values[h]))
  {
    assert GoodValue(s, h);
    hide Good, Sized, TablesMade, ToRead;
    var v, items := s.values[h], ItemsOf(s, s.values[h]);
    assert GoodItems(s, v, items);
    forall i | 0 <= i < |items| ensures Same(s, ItemNodes(v, items)[i], ReadItem(s, v, items[i])) {
    }
  }

  lemma VectorFacts(s: State, h: int)
    requires Writable(s) && IsPublic(s, h) && IsHeapVector(s.values[h].typ)
    ensures IsHandle(s, h) && 0 <= h < |s.values| && CShape(s, Ref(h)) == Vector(ItemNodes(s.values[h], ItemsOf(s, s.values[h])))
  {
    assert GoodValue(s, h);
    hide Good, Sized, TablesMade;
  }

  lemma ShapesMatch(s: State, buf: bytes, r: RValue, x: Shape<Node<int>>, y: Shape<RNode>)
    requires Opens(buf) && ValueShape(buf, r) == y && Matches(SameIn(s), x, y)
    ensures Matches(SameIn(s), x, RShape(buf, Ref(r)))
  {
    hide Matches, ValueShape;
  }

  lemma VectorsMatch(s: State, xs: seq<Node<int>>, ys: seq<RNode>)
    requires AllRelated(SameIn(s), xs, ys)
    ensures Matches(SameIn(s), Vector(xs), Vector(ys))
  {
  }

  lemma SetsMatch(s: State, xs: seq<Node<int>>, ys: seq<RNode>)
    requires RelatedInSomeOrder(SameIn(s), xs, ys)
    ensures Matches(SameIn(s), SetOf(xs), SetOf(ys))
  {
  }

  lemma MapsMatch(s: State, ks: seq<Node<int>>, vs: seq<Node<int>>, ks': seq<RNode>, vs': seq<RNode>)
    requires PairsRelatedInSomeOrder(SameIn(s), ks, vs, ks', vs')
    ensures Matches(SameIn(s), MapOf(ks, vs), MapOf(ks', vs'))
  {
  }

  lemma OpensSerialized(s: State, root: int)
    requires Writable(s) && IsHandle(s, root)
    ensures Good(s) && Opens(Serialized(s, root))
  {
    HeaderReads(s, root);
  }

  lemma VectorMatches(s: State, root: int, h: int)
    requires Writable(s) && IsHandle(s, root) && IsPublic(s, h) && IsHeapVector(s.values[h].typ)
    ensures Opens(Serialized(s, root))
    ensures Matches(SameIn(s), CShape(s, Ref(h)), RShape(Serialized(s, root), Ref(ToRead(s, h))))
  {
    hide *;
    OpensSerialized(s, root);
    VectorFacts(s, h);
    ItemsAreSame(s, h);
    VectorValueReads(s, root, h);
    ReadShapes(Serialized(s, root), ToRead(s, h));
    var xs, ys := ItemNodes(s.values[h], ItemsOf(s, s.values[h])), ReadItems(s, s.values[h]);
    VectorsMatch(s, xs, ys);
    ShapesMatch(s, Serialized(s, root), ToRead(s, h), Vector(xs), Vector(ys));
  }

  // ---- sets and maps ----

  /** The buckets of a part, read back, hold the buckets' values. */
  lemma FilledIsOccupied(s: State, v: CValue, ks: seq<int>, read: seq<RNode>)
    requires IsValueVector(v.typ) && |read| == |ks| && forall i :: 0 <= i < |ks| ==> IsHandle(s, ks[i]) && read[i] == ReadItem(s, v, ks[i])
    ensures Filled(read) == Occupied(s, ks)
    ensures read == Apply((k: int) => ReadItem(s, v, k), ks)
  {
  }

  lemma KeysAreSame(s: State, v: CValue, keys: seq<int>)
    requires IsValueVector(v.typ) && AllPublic(s, keys)
    ensures AllRelated(SameIn(s), Refs(keys), Apply((k: int) => ReadItem(s, v, k), keys))
  {
  }

  lemma SetKeysMatch(s: State, v: CValue, keys: seq<int>, ks: seq<int>, read: seq<RNode>)
    requires IsValueVector(v.typ) && |read| == |ks| && (forall i :: 0 <= i < |ks| ==> IsHandle(s, ks[i]) && read[i] == ReadItem(s, v, ks[i]))
    requires AllPublic(s, keys) && multiset(Kept(Occupied(s, ks), ks)) == multiset(keys)
    ensures RelatedInSomeOrder(SameIn(s), Refs(keys), Kept(Filled(read), read))
  {
    var f := (k: int) => ReadItem(s, v, k);
    FilledIsOccupied(s, v, ks, read);
    KeysAreSame(s, v, keys);
    hide ReadItem, AllRelated, AllPublic;
    KeptApply(f, Occupied(s, ks), ks);
    ApplyPermuted(f, keys, Kept(Occupied(s, ks), ks));
    var zs := Apply(f, keys);
    assert multiset(zs) == multiset(Kept(Filled(read), read)) && AllRelated(SameIn(s), Refs(keys), zs);
  }

  lemma MapPairsMatch(s: State, v: CValue, keys: seq<int>, values: seq<int>, ks: seq<int>, vs: seq<int>, readK: seq<RNode>, readV: seq<RNode>)
    requires IsValueVector(v.typ) && |readK| == |readV| == |ks| == |vs| && |keys| == |values|
    requires forall i :: 0 <= i < |ks| ==> IsHandle(s, ks[i]) && readK[i] == ReadItem(s, v, ks[i])
    requires forall i :: 0 <= i < |vs| ==> IsHandle(s, vs[i]) && readV[i] == ReadItem(s, v, vs[i])
    requires AllPublic(s, keys) && AllPublic(s, values)
    requires multiset(Kept(Occupied(s, ks), Zip(ks, vs))) == multiset(Zip(keys, values))
    ensures PairsRelatedInSomeOrder(SameIn(s), Refs(keys), Refs(values), Kept(Filled(readK), readK), Kept(Filled(readK), readV))
  {
    var f := (k: int) => ReadItem(s, v, k);
    var g := (p: (int, int)) => (ReadItem(s, v, p.0), ReadItem(s, v, p.1));
    FilledIsOccupied(s, v, ks, readK);
    FilledIsOccupied(s, v, vs, readV);
    KeysAreSame(s, v, keys);
    KeysAreSame(s, v, values);
    var marks := Occupied(s, ks);
    hide ReadItem, AllRelated, AllPublic, Occupied, Filled;
    KeptLength(marks, readK, readV);
    assert Zip(readK, readV) == Apply(g, Zip(ks, vs));
    KeptApply(g, marks, Zip(ks, vs));
    ApplyPermuted(g, Zip(keys, values), Kept(marks, Zip(ks, vs)));
    var zk, zv := Apply(f, keys), Apply(f, values);
    assert Zip(zk, zv) == Apply(g, Zip(keys, values));
  }

  lemma SetFacts(s: State, h: int)
    requires Writable(s) && IsPublic(s, h) && KindOf(s.values[h]) == SetTable
    ensures IsHandle(s, h) && 1 <= h < |s.values| && IsValueVector(s.values[h - 1].typ) && s.values[h].data < |s.sets|
    ensures var x, ks := s.sets[s.values[h].data], ItemsOf(s, s.values[h - 1]);
      && CShape(s, Ref(h)) == SetOf(Refs(x.keys)) && AllPublic(s, x.keys)
      && multiset(Kept(Occupied(s, ks), ks)) == multiset(x.keys) && forall i :: 0 <= i < |ks| ==> IsHandle(s, ks[i])
  {
    SetIndex(s, h, h);
    PartIsHandles(s);
    hide Good, Sized, TablesMade, GoodValue, Kept, Occupied;
  }

  lemma SetMatches(s: State, root: int, h: int)
    requires Writable(s) && IsHandle(s, root) && IsPublic(s, h) && KindOf(s.values[h]) == SetTable
    ensures Opens(Serialized(s, root))
    ensures Matches(SameIn(s), CShape(s, Ref(h)), RShape(Serialized(s, root), Ref(ToRead(s, h))))
  {
    hide *;
    OpensSerialized(s, root);
    SetFacts(s, h);
    SetValueReads(s, root, h);
    ReadShapes(Serialized(s, root), ToRead(s, h));
    var x, v := s.sets[s.values[h].data], s.values[h - 1];
    var read := ReadItems(s, v);
    SetKeysMatch(s, v, x.keys, ItemsOf(s, v), read);
    SetsMatch(s, Refs(x.keys), Kept(Filled(read), read));
    ShapesMatch(s, Serialized(s, root), ToRead(s, h), SetOf(Refs(x.keys)), SetOf(Kept(Filled(read), read)));
  }

  lemma MapFacts(s: State, h: int)
    requires Writable(s) && IsPublic(s, h) && KindOf(s.values[h]) == MapTable
    ensures IsHandle(s, h) && 2 <= h < |s.values| && IsValueVector(s.values[h - 1].typ) && IsValueVector(s.values[h - 2].typ)
    ensures s.values[h].data < |s.maps|
    ensures var x, ks, vs := s.maps[s.values[h].data], ItemsOf(s, s.values[h - 2]), ItemsOf(s, s.values[h - 1]);
      && CShape(s, Ref(h)) == MapOf(Refs(x.keys), Refs(x.values)) && AllPublic(s, x.keys) && AllPublic(s, x.values)
      && |ks| == |vs| && |x.keys| == |x.values| && multiset(Kept(Occupied(s, ks), Zip(ks, vs))) == multiset(Zip(x.keys, x.values))
      && (forall i :: 0 <= i < |ks| ==> IsHandle(s, ks[i])) && (forall i :: 0 <= i < |vs| ==> IsHandle(s, vs[i]))
  {
    MapIndex(s, h, h);
    PartIsHandles(s);
    hide Good, Sized, TablesMade, GoodValue, Kept, Occupied, Zip;
  }

  /** Reading the value part of a map is reading it like its key part. */
  lemma ReadLikeKeys(s: State, v: CValue, w: CValue)
    requires IsValueVector(v.typ) && IsValueVector(w.typ)
    requires forall i :: 0 <= i < |ItemsOf(s, w)| ==> IsHandle(s, ItemsOf(s, w)[i])
    ensures forall i :: 0 <= i < |ItemsOf(s, w)| ==> ReadItems(s, w)[i] == ReadItem(s, v, ItemsOf(s, w)[i])
  {
  }

  lemma MapMatches(s: State, root: int, h: int)
    requires Writable(s) && IsHandle(s, root) && IsPublic(s, h) && KindOf(s.values[h]) == MapTable
    ensures Opens(Serialized(s, root))
    ensures Matches(SameIn(s), CShape(s, Ref(h)), RShape(Serialized(s, root), Ref(ToRead(s, h))))
  {
    hide *;
    OpensSerialized(s, root);
    MapFacts(s, h);
    MapValueReads(s, root, h);
    ReadShapes(Serialized(s, root), ToRead(s, h));
    var x, vk, vv := s.maps[s.values[h].data], s.values[h - 2], s.values[h - 1];
    var readK, readV := ReadItems(s, vk), ReadItems(s, vv);
    ReadLikeKeys(s, vk, vv);
    MapPairsMatch(s, vk, x.keys, x.values, ItemsOf(s, vk), ItemsOf(s, vv), readK, readV);
    MapsMatch(s, Refs(x.keys), Refs(x.values), Kept(Filled(readK), readK), Kept(Filled(readK), readV));
    ShapesMatch(s, Serialized(s, root), ToRead(s, h), MapOf(Refs(x.keys), Refs(x.values)), MapOf(Kept(Filled(readK), readK), Kept(Filled(readK), readV)));
  }

  lemma PartIsHandles(s: State)
    requires Writable(s)
    ensures forall k :: IsValuePart(s, k) ==> forall i :: 0 <= i < |Part(s, k)| ==> IsHandle(s, Part(s, k)[i])
  {
    forall k | IsValuePart(s, k) ensures forall i :: 0 <= i < |Part(s, k)| ==> IsHandle(s, Part(s, k)[i]) {
      assert TableMade(s, k);
    }
  }

  // ---- the other kinds ----

  lemma TextMatches(s: State, root: int, h: int)
    requires Writable(s) && IsHandle(s, root) && IsPublic(s, h) && KindOf(s.values[h]) == TextBuffer
    ensures Opens(Serialized(s, root))
    ensures Matches(SameIn(s), CShape(s, Ref(h)), RShape(Serialized(s, root), Ref(ToRead(s, h))))
  {
    TextIndex(s, root, h);
    assert CShape(s, Ref(h)) == Leaf(TText(s.texts[s.values[h].data]));
    hide Good, Sized, TablesMade, Serialized, Opens, GoodValue, CShape, ValueShape, ReadsText, KindOf, ToRead;
    TextValueReads(s, root, h);
    ReadShapes(Serialized(s, root), ToRead(s, h));
  }

  lemma BitsMatch(s: State, root: int, h: int)
    requires Writable(s) && IsHandle(s, root) && IsPublic(s, h) && KindOf(s.values[h]) == BitBuffer
    ensures Opens(Serialized(s, root))
    ensures Matches(SameIn(s), CShape(s, Ref(h)), RShape(Serialized(s, root), Ref(ToRead(s, h))))
  {
    BitsIndex(s, root, h);
    var b := s.bitvectors[s.values[h].data];
    assert ValidBits(b) by { assert GoodValue(s, h); }
    assert CShape(s, Ref(h)) == Leaf(TBits(RawBits(b.bytes, b.n)));
    hide Good, Sized, TablesMade, Serialized, Opens, GoodValue, CShape, ValueShape, ReadsBits, KindOf, ToRead, ValidBits, RawBits;
    BitsValueReads(s, root, h);
    ReadShapes(Serialized(s, root), ToRead(s, h));
  }

  lemma WordMatches(s: State, root: int, h: int)
    requires Writable(s) && IsHandle(s, root) && IsPublic(s, h) && KindOf(s.values[h]) == InWord
    ensures Opens(Serialized(s, root))
    ensures Matches(SameIn(s), CShape(s, Ref(h)), RShape(Serialized(s, root), Ref(ToRead(s, h))))
  {
    HeaderReads(s, root);
    assert GoodValue(s, h);
    hide Good, Sized, TablesMade, Serialized, Opens, GoodValue, Decode, Rank;
  }

  /** Every pair of nodes that are the same value look the same one level down. */
  lemma ValuesMatch(s: State, root: int, h: int)
    requires Writable(s) && IsHandle(s, root) && IsPublic(s, h)
    ensures Opens(Serialized(s, root))
    ensures Matches(SameIn(s), CShape(s, Ref(h)), RShape(Serialized(s, root), Ref(ToRead(s, h))))
  {
    hide Writable, Serialized, Opens, CShape, RShape, Matches, ToRead;
    match KindOf(s.values[h])
    case InWord => WordMatches(s, root, h);
    case TextBuffer => TextMatches(s, root, h);
    case BitBuffer => BitsMatch(s, root, h);
    case OutsideVector => VectorMatches(s, root, h);
    case PrivateVector => VectorMatches(s, root, h);
    case SetTable => SetMatches(s, root, h);
    case MapTable => MapMatches(s, root, h);
  }

  /** A number written into a compressed vector looks like the value it was made from. */
  lemma NumbersMatch(s: State, h: int, t: u32, x: int)
    requires IsHandle(s, h) && CompressesTo(t, s.values[h]) && x == IntOf(s.values[h])
    ensures CShape(s, Ref(h)).Leaf? && NumberShape<RNode>(t, x).Leaf? && CShape(s, Ref(h)).tree == NumberShape<RNode>(t, x).tree
  {
  }

  lemma SameIsBisimulation(s: State, root: int)
    requires Writable(s) && IsHandle(s, root)
    ensures Opens(Serialized(s, root))
    ensures Bisimulation(CGraph(s), RGraph(Serialized(s, root)), SameIn(s))
  {
    HeaderReads(s, root);
    var buf := Serialized(s, root);
    forall a: Node<int>, b: RNode | Same(s, a, b)
      ensures Matches(SameIn(s), CGraph(s)(a), RGraph(buf)(b))
    {
      hide Writable, Opens, ToRead, CShape, ValueShape, CompressesTo, NumberShape;
      match (a, b) {
        case (Ref(h), Ref(r)) => ValuesMatch(s, root, h);
        case (Ref(h), Number(t, x)) => NumbersMatch(s, h, t, x);
        case (Number(t, x), _) => NumberIsLeaf(t, x);
      }
    }
    StrictBisimulation(CGraph(s), RGraph(buf), SameIn(s));
  }

  lemma NumberIsLeaf(t: u32, x: int)
    requires IsNumberVector(t) && Fits(t, x)
    ensures NumberShape<Node<int>>(t, x).Leaf? && NumberShape<RNode>(t, x).Leaf? && NumberShape<Node<int>>(t, x).tree == NumberShape<RNode>(t, x).tree
  {
  }

  /**
    Serialize, then read: to every depth, the root of the written buffer unfolds to what the root of the
    create-state unfolds to.
   */
  lemma SerializeThenRead(s: State, root: int, d: nat)
    requires Writable(s) && IsPublic(s, root)
    ensures Opens(Serialized(s, root)) && RUnfold(Serialized(s, root), d) == CUnfold(s, root, d)
  {
    HeaderReads(s, root);
    hide Writable, Opens, ToRead, Serialized, Bisimulation, Root;
    SameIsBisimulation(s, root);
    BisimilarUnfoldAlike(CGraph(s), RGraph(Serialized(s, root)), SameIn(s), Ref(root), Ref(ToRead(s, root)), d);
  }
}

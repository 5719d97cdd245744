/**
  Building a create-state: what adding one value, or one item to a container, changes, and that it keeps the
  state well-formed and every other value what it was.
 */
module Building {
  import opened Wrappers
  import opened PowersOfTwo
  import opened Bitvector
  import opened Unfolding
  import opened Values
  import opened CreateState
  import opened Tables
  import opened Bytes
  import opened Heap

  // ---- adding a value ----

  function Inline(t: u32, data: u32): CValue {
    CValue(t, false, false, false, data)
  }

  /** A table before and after a value was added that does, or does not, live in it. */
  ghost predicate GrowsIf<T>(mine: bool, xs: seq<T>, ys: seq<T>, data: u32) {
    if mine then |ys| == |xs| + 1 && xs <= ys && data == |xs| else ys == xs
  }

  /** t is s with value v added at the end, and with room for it in its table. */
  ghost predicate Pushed(s: State, t: State, v: CValue) {
    && t.values == s.values + [v]
    && GrowsIf(KindOf(v) == PrivateVector, s.priv, t.priv, v.data)
    && GrowsIf(KindOf(v) == OutsideVector, s.outside, t.outside, v.data)
    && GrowsIf(KindOf(v) == TextBuffer, s.texts, t.texts, v.data)
    && GrowsIf(KindOf(v) == BitBuffer, s.bitvectors, t.bitvectors, v.data)
    && GrowsIf(KindOf(v) == SetTable, s.sets, t.sets, v.data)
    && GrowsIf(KindOf(v) == MapTable, s.maps, t.maps, v.data)
  }

  lemma {:induction false} PushedRank(values: seq<CValue>, v: CValue, k: Kind, n: nat)
    requires n <= |values|
    ensures Rank(values + [v], k, n) == Rank(values, k, n)
    ensures Total(values + [v], k) == Total(values, k) + if KindOf(v) == k then 1 else 0
  {
    RankSameKinds(values, values + [v], k, n);
    RankSameKinds(values, values + [v], k, |values|);
  }

  lemma PushedNumbered(s: State, t: State, v: CValue)
    requires Numbered(s) && Pushed(s, t, v)
    ensures Numbered(t)
  {
    hide Rank;
    PushedRank(s.values, v, PrivateVector, |s.values|);
    PushedRank(s.values, v, OutsideVector, |s.values|);
    PushedRank(s.values, v, TextBuffer, |s.values|);
    PushedRank(s.values, v, BitBuffer, |s.values|);
    PushedRank(s.values, v, SetTable, |s.values|);
    PushedRank(s.values, v, MapTable, |s.values|);
    hide KindOf;
    forall h | IsHandle(t, h) && KindOf(t.values[h]) != InWord ensures t.values[h].data == Rank(t.values, KindOf(t.values[h]), h) {
      PushedRank(s.values, v, KindOf(t.values[h]), h);
    }
  }

  lemma PushedGoodValue(s: State, t: State, v: CValue, h: int)
    requires Pushed(s, t, v) && IsHandle(s, h) && GoodValue(s, h)
    ensures GoodValue(t, h) && CShape(s, Ref(h)) == CShape(t, Ref(h))
  {
    forall w: CValue, items: seq<int> ensures (GoodItems(s, w, items) ==> GoodItems(t, w, items)) && (AllPublic(s, items) ==> AllPublic(t, items)) {
      GrownItems(s, t, w, items);
    }
    hide GoodItems, AllPublic;
  }

  /** A state under construction. */
  ghost predicate UnderConstruction(s: State) {
    Good(s) && Unprepared(s)
  }

  /** Adding a well-formed value keeps the state and the shape of every handle. */
  lemma PushKeeps(s: State, t: State, v: CValue)
    requires UnderConstruction(s) && Pushed(s, t, v) && |t.values| < 0xFFFF_FFFF
    requires GoodValue(t, |s.values|) && v.typ != VECTOR_VALUE_HASHABLE && !v.compressed
    requires v.setMap && v.data < |t.priv| ==> t.priv[v.data] == []
    ensures UnderConstruction(t) && SameShapes(s, t) && SamePublicShapes(s, t)
  {
    PushedNumbered(s, t, v);
    forall h | IsHandle(s, h) ensures GoodValue(t, h) && CShape(s, Ref(h)) == CShape(t, Ref(h)) {
      PushedGoodValue(s, t, v, h);
    }
    forall h | IsHandle(t, h) ensures GoodValue(t, h) {
      assert h == |s.values| || IsHandle(s, h);
    }
    assert Unprepared(t) by { PushedUnprepared(s, t, v); }
    hide GoodValue, CShape, Numbered, Unprepared;
  }

  lemma PushedUnprepared(s: State, t: State, v: CValue)
    requires UnderConstruction(s) && Pushed(s, t, v)
    requires v.typ != VECTOR_VALUE_HASHABLE && !v.compressed && (v.setMap && v.data < |t.priv| ==> t.priv[v.data] == [])
    ensures Unprepared(t)
  {
    forall h | IsHandle(t, h)
      ensures t.values[h].typ != VECTOR_VALUE_HASHABLE && !t.values[h].compressed
      ensures t.values[h].setMap && t.values[h].data < |t.priv| ==> t.priv[t.values[h].data] == []
    {
      if h < |s.values| { assert GoodValue(s, h); }
    }
  }

  lemma PushWord(s: State, v: CValue)
    requires UnderConstruction(s) && |s.values| < 0xFFFF_FFFE && IsInline(v.typ) && v == Inline(v.typ, v.data) && CleanWord(v.typ, v.data)
    ensures var t := s.(values := s.values + [v]);
      UnderConstruction(t) && SamePublicShapes(s, t) && IsPublic(t, |s.values|) && CShape(t, Ref(|s.values|)) == InlineShape(v.typ, v.data)
  {
    var t := s.(values := s.values + [v]);
    assert GoodValue(t, |s.values|);
    hide UnderConstruction, GoodValue, InlineShape;
    PushKeeps(s, t, v);
  }

  lemma PushText(s: State, typ: u32, x: Text)
    requires UnderConstruction(s) && |s.values| < 0xFFFF_FFFE && IsText(typ) && ValidText(typ, x)
    ensures |s.texts| <= |s.values|
    ensures var t := s.(values := s.values + [Inline(typ, |s.texts|)], texts := s.texts + [x]);
      UnderConstruction(t) && SamePublicShapes(s, t) && IsPublic(t, |s.values|) && CShape(t, Ref(|s.values|)) == Leaf(TText(x))
  {
    RankMonotone(s.values, TextBuffer, 0, |s.values|);
    var v := Inline(typ, |s.texts|);
    var t := s.(values := s.values + [v], texts := s.texts + [x]);
    assert GoodValue(t, |s.values|);
    hide UnderConstruction, GoodValue;
    PushKeeps(s, t, v);
  }

  lemma PushBits(s: State, b: RawBitvector)
    requires UnderConstruction(s) && |s.values| < 0xFFFF_FFFE && ValidBits(b)
    ensures |s.bitvectors| <= |s.values|
    ensures var t := s.(values := s.values + [Inline(BITVECTOR, |s.bitvectors|)], bitvectors := s.bitvectors + [b]);
      UnderConstruction(t) && SamePublicShapes(s, t) && IsPublic(t, |s.values|) && CShape(t, Ref(|s.values|)) == Leaf(TBits(RawBits(b.bytes, b.n)))
  {
    RankMonotone(s.values, BitBuffer, 0, |s.values|);
    var v := Inline(BITVECTOR, |s.bitvectors|);
    var t := s.(values := s.values + [v], bitvectors := s.bitvectors + [b]);
    assert GoodValue(t, |s.values|);
    hide UnderConstruction, GoodValue, RawBits;
    PushKeeps(s, t, v);
  }

  /** A new, empty vector owned by the library, for the caller or for a set or map. */
  lemma PushVector(s: State, typ: u32, setMap: bool)
    requires UnderConstruction(s) && |s.values| < 0xFFFF_FFFE && IsHeapVector(typ) && typ != VECTOR_VALUE_HASHABLE
    ensures |s.priv| <= |s.values|
    ensures var t := s.(values := s.values + [CValue(typ, false, setMap, false, |s.priv|)], priv := s.priv + [[]]);
      UnderConstruction(t) && SamePublicShapes(s, t) && IsHandle(t, |s.values|) && CShape(t, Ref(|s.values|)) == Vector([])
  {
    RankMonotone(s.values, PrivateVector, 0, |s.values|);
    var v := CValue(typ, false, setMap, false, |s.priv|);
    var t := s.(values := s.values + [v], priv := s.priv + [[]]);
    assert GoodValue(t, |s.values|);
    hide UnderConstruction, GoodValue;
    PushKeeps(s, t, v);
  }

  lemma PushOutside(s: State, typ: u32, items: seq<int>)
    requires UnderConstruction(s) && |s.values| < 0xFFFF_FFFE && IsNumberVector(typ) && forall i :: 0 <= i < |items| ==> Fits(typ, items[i])
    ensures |s.outside| <= |s.values|
    ensures var t := s.(values := s.values + [CValue(typ, true, false, false, |s.outside|)], outside := s.outside + [items]);
      UnderConstruction(t) && SamePublicShapes(s, t) && IsPublic(t, |s.values|) && CShape(t, Ref(|s.values|)) == Vector(Numbers(typ, items))
  {
    RankMonotone(s.values, OutsideVector, 0, |s.values|);
    var v := CValue(typ, true, false, false, |s.outside|);
    var t := s.(values := s.values + [v], outside := s.outside + [items]);
    assert GoodValue(t, |s.values|);
    hide UnderConstruction, GoodValue;
    PushKeeps(s, t, v);
  }

  /** A new, empty set, after the two vectors it keeps. */
  lemma PushSet(s: State)
    requires UnderConstruction(s) && 2 <= |s.values| < 0xFFFF_FFFE && IsHashPart(s, |s.values| - 2) && IsValuePart(s, |s.values| - 1)
    ensures |s.sets| <= |s.values|
    ensures var n := |s.values|;
      var t := s.(values := s.values + [Inline(SET_VALUE, |s.sets|)], sets := s.sets + [CSet([], n - 2, n - 1)]);
      UnderConstruction(t) && SamePublicShapes(s, t) && IsPublic(t, n) && CShape(t, Ref(n)) == SetOf([])
  {
    RankMonotone(s.values, SetTable, 0, |s.values|);
    var n, v := |s.values|, Inline(SET_VALUE, |s.sets|);
    var t := s.(values := s.values + [v], sets := s.sets + [CSet([], n - 2, n - 1)]);
    assert GoodValue(t, n);
    hide UnderConstruction, GoodValue;
    PushKeeps(s, t, v);
  }

  lemma PushMap(s: State)
    requires UnderConstruction(s) && 3 <= |s.values| < 0xFFFF_FFFE
    requires IsHashPart(s, |s.values| - 3) && IsValuePart(s, |s.values| - 2) && IsValuePart(s, |s.values| - 1)
    ensures |s.maps| <= |s.values|
    ensures var n := |s.values|;
      var t := s.(values := s.values + [Inline(MAP_VALUE_VALUE, |s.maps|)], maps := s.maps + [CMap([], [], n - 3, n - 2, n - 1)]);
      UnderConstruction(t) && SamePublicShapes(s, t) && IsPublic(t, n) && CShape(t, Ref(n)) == MapOf([], [])
  {
    RankMonotone(s.values, MapTable, 0, |s.values|);
    var n, v := |s.values|, Inline(MAP_VALUE_VALUE, |s.maps|);
    var t := s.(values := s.values + [v], maps := s.maps + [CMap([], [], n - 3, n - 2, n - 1)]);
    NewMapIsGood(s, t, v);
    hide UnderConstruction, GoodValue;
    PushKeeps(s, t, v);
  }

  lemma NewMapIsGood(s: State, t: State, v: CValue)
    requires 3 <= |s.values| && |s.maps| < 0x1_0000_0000 && v == Inline(MAP_VALUE_VALUE, |s.maps|)
    requires IsHashPart(s, |s.values| - 3) && IsValuePart(s, |s.values| - 2) && IsValuePart(s, |s.values| - 1)
    requires t == s.(values := s.values + [v], maps := s.maps + [CMap([], [], |s.values| - 3, |s.values| - 2, |s.values| - 1)])
    ensures GoodValue(t, |s.values|)
  {
  }

  // ---- adding an item ----

  /** Every public handle but h has the shape it had. */
  ghost predicate OthersSame(s: State, t: State, h: int) {
    s.values == t.values && forall g :: IsPublic(s, g) ==> IsPublic(t, g) && (g != h ==> CShape(s, Ref(g)) == CShape(t, Ref(g)))
  }

  predicate IsOwnVector(s: State, h: int) {
    IsPublic(s, h) && KindOf(s.values[h]) == PrivateVector && s.values[h].data < |s.priv|
  }

  /** Giving a private vector new items changes that vector and nothing else. */
  lemma ItemsKeep(s: State, h: int, items: seq<int>)
    requires UnderConstruction(s) && IsOwnVector(s, h) && GoodItems(s, s.values[h], items)
    ensures var t := s.(priv := s.priv[s.values[h].data := items]);
      UnderConstruction(t) && OthersSame(s, t, h) && CShape(t, Ref(h)) == Vector(ItemNodes(s.values[h], items))
  {
    var t := s.(priv := s.priv[s.values[h].data := items]);
    forall g | IsHandle(s, g) ensures GoodValue(t, g) && (g != h ==> CShape(s, Ref(g)) == CShape(t, Ref(g))) {
      ItemsKeepValue(s, t, h, items, g);
    }
    assert Unprepared(t) by {
      forall g | IsHandle(t, g) && t.values[g].setMap ensures t.values[g].data < |t.priv| ==> t.priv[t.values[g].data] == [] {
        assert GoodValue(s, g);
        if t.values[g].data == t.values[h].data { DataIsUnique(s, g, h); }
      }
    }
    hide GoodValue, Unprepared, GoodItems;
  }

  lemma ItemsKeepValue(s: State, t: State, h: int, items: seq<int>, g: int)
    requires UnderConstruction(s) && IsOwnVector(s, h) && GoodItems(s, s.values[h], items) && IsHandle(s, g)
    requires t == s.(priv := s.priv[s.values[h].data := items])
    ensures GoodValue(t, g) && (g != h ==> CShape(s, Ref(g)) == CShape(t, Ref(g)))
  {
    assert GoodValue(s, g);
    if g != h && KindOf(s.values[g]) == PrivateVector && s.values[g].data == s.values[h].data { DataIsUnique(s, g, h); }
    forall v: CValue, xs: seq<int> ensures GoodItems(s, v, xs) == GoodItems(t, v, xs) && AllPublic(s, xs) == AllPublic(t, xs) {
    }
    hide UnderConstruction, GoodItems, AllPublic;
  }

  lemma KeysKeep(s: State, h: int, keys: seq<int>)
    requires UnderConstruction(s) && IsHandle(s, h) && KindOf(s.values[h]) == SetTable && s.values[h].data < |s.sets| && AllPublic(s, keys)
    ensures var t := s.(sets := s.sets[s.values[h].data := s.sets[s.values[h].data].(keys := keys)]);
      UnderConstruction(t) && OthersSame(s, t, h) && CShape(t, Ref(h)) == SetOf(Refs(keys))
  {
    var t := s.(sets := s.sets[s.values[h].data := s.sets[s.values[h].data].(keys := keys)]);
    forall g | IsHandle(s, g) ensures GoodValue(t, g) && (g != h ==> CShape(s, Ref(g)) == CShape(t, Ref(g))) {
      KeysKeepValue(s, t, h, keys, g);
    }
    hide UnderConstruction, GoodValue, AllPublic;
    SameValuesKeep(s, t);
  }

  lemma SameItems(s: State, t: State)
    requires t.values == s.values
    ensures forall v: CValue, xs: seq<int> :: GoodItems(s, v, xs) == GoodItems(t, v, xs)
    ensures forall xs: seq<int> :: AllPublic(s, xs) == AllPublic(t, xs)
  {
  }

  lemma KeysKeepValue(s: State, t: State, h: int, keys: seq<int>, g: int)
    requires UnderConstruction(s) && IsHandle(s, h) && KindOf(s.values[h]) == SetTable && s.values[h].data < |s.sets| && AllPublic(s, keys) && IsHandle(s, g)
    requires t == s.(sets := s.sets[s.values[h].data := s.sets[s.values[h].data].(keys := keys)])
    ensures GoodValue(t, g) && (g != h ==> CShape(s, Ref(g)) == CShape(t, Ref(g)))
  {
    hide Numbered, Rank;
    assert GoodValue(s, g) && GoodValue(s, h);
    if g != h && KindOf(s.values[g]) == SetTable && s.values[g].data == s.values[h].data { DataIsUnique(s, g, h); }
    SameItems(s, t);
    hide UnderConstruction, GoodItems, AllPublic, Unprepared, Good;
  }

  lemma SameValuesKeep(s: State, t: State)
    requires UnderConstruction(s) && t == s.(sets := t.sets, maps := t.maps) && |t.sets| == |s.sets| && |t.maps| == |s.maps|
    requires forall g :: IsHandle(s, g) ==> GoodValue(t, g)
    ensures UnderConstruction(t)
  {
    hide GoodValue, Rank;
  }

  lemma PairsKeep(s: State, h: int, keys: seq<int>, values: seq<int>)
    requires UnderConstruction(s) && IsHandle(s, h) && KindOf(s.values[h]) == MapTable && s.values[h].data < |s.maps|
    requires |keys| == |values| && AllPublic(s, keys) && AllPublic(s, values)
    ensures var t := s.(maps := s.maps[s.values[h].data := s.maps[s.values[h].data].(keys := keys, values := values)]);
      UnderConstruction(t) && OthersSame(s, t, h) && CShape(t, Ref(h)) == MapOf(Refs(keys), Refs(values))
  {
    var t := s.(maps := s.maps[s.values[h].data := s.maps[s.values[h].data].(keys := keys, values := values)]);
    forall g | IsHandle(s, g) ensures GoodValue(t, g) && (g != h ==> CShape(s, Ref(g)) == CShape(t, Ref(g))) {
      PairsKeepValue(s, t, h, keys, values, g);
    }
    hide UnderConstruction, GoodValue, AllPublic;
    SameValuesKeep(s, t);
  }

  lemma PairsKeepValue(s: State, t: State, h: int, keys: seq<int>, values: seq<int>, g: int)
    requires UnderConstruction(s) && IsHandle(s, h) && KindOf(s.values[h]) == MapTable && s.values[h].data < |s.maps| && IsHandle(s, g)
    requires |keys| == |values| && AllPublic(s, keys) && AllPublic(s, values)
    requires t == s.(maps := s.maps[s.values[h].data := s.maps[s.values[h].data].(keys := keys, values := values)])
    ensures GoodValue(t, g) && (g != h ==> CShape(s, Ref(g)) == CShape(t, Ref(g)))
  {
    hide Numbered, Rank;
    assert GoodValue(s, g) && GoodValue(s, h);
    if g != h && KindOf(s.values[g]) == MapTable && s.values[g].data == s.values[h].data { DataIsUnique(s, g, h); }
    SameItems(s, t);
    hide UnderConstruction, GoodItems, AllPublic, Unprepared, Good;
  }

  /** An item that may be put into the vector. */
  ghost predicate ItemFits(s: State, h: int, item: int)
    requires IsOwnVector(s, h)
  {
    if IsValueVector(s.values[h].typ) then IsPublic(s, item) else IsNumberVector(s.values[h].typ) && Fits(s.values[h].typ, item)
  }

  function ItemNode(v: CValue, item: int): Node<int> {
    if IsValueVector(v.typ) then Ref(item) else Number(v.typ, item)
  }

  /** The vector before, and after, an item is appended. */
  lemma OwnItems(s: State, h: int, item: int)
    requires UnderConstruction(s) && IsOwnVector(s, h)
    ensures var v, items := s.values[h], s.priv[s.values[h].data];
      && CShape(s, Ref(h)) == Vector(ItemNodes(v, items)) && GoodItems(s, v, items)
      && ItemNodes(v, items + [item]) == ItemNodes(v, items) + [ItemNode(v, item)]
      && (ItemFits(s, h, item) ==> GoodItems(s, v, items + [item]))
  {
    assert GoodValue(s, h);
    hide Good;
  }

  /** The vector before, and after, item i is replaced. */
  lemma OwnItem(s: State, h: int, i: nat, item: int)
    requires UnderConstruction(s) && IsOwnVector(s, h) && i < |s.priv[s.values[h].data]|
    ensures var v, items := s.values[h], s.priv[s.values[h].data];
      && CShape(s, Ref(h)) == Vector(ItemNodes(v, items)) && |ItemNodes(v, items)| == |items|
      && ItemNodes(v, items[i := item]) == ItemNodes(v, items)[i := ItemNode(v, item)]
      && (ItemFits(s, h, item) ==> GoodItems(s, v, items[i := item]))
  {
    assert GoodValue(s, h);
    hide Good;
  }

  lemma OwnKeys(s: State, h: int, key: int)
    requires UnderConstruction(s) && IsHandle(s, h) && KindOf(s.values[h]) == SetTable
    ensures s.values[h].data < |s.sets|
    ensures var x := s.sets[s.values[h].data];
      CShape(s, Ref(h)) == SetOf(Refs(x.keys)) && (IsPublic(s, key) ==> AllPublic(s, x.keys + [key])) && Refs(x.keys + [key]) == Refs(x.keys) + [Ref(key)]
  {
    assert GoodValue(s, h);
  }

  lemma OwnPairs(s: State, h: int, key: int, value: int)
    requires UnderConstruction(s) && IsHandle(s, h) && KindOf(s.values[h]) == MapTable
    ensures s.values[h].data < |s.maps|
    ensures var x := s.maps[s.values[h].data];
      && |x.keys| == |x.values| && CShape(s, Ref(h)) == MapOf(Refs(x.keys), Refs(x.values))
      && (IsPublic(s, key) ==> AllPublic(s, x.keys + [key])) && (IsPublic(s, value) ==> AllPublic(s, x.values + [value]))
      && Refs(x.keys + [key]) == Refs(x.keys) + [Ref(key)] && Refs(x.values + [value]) == Refs(x.values) + [Ref(value)]
  {
    assert GoodValue(s, h);
  }
}

/**
  The passes over the create-time state that prepare it for writing: renumbering, marking hashable vectors,
  compressing vectors of numbers. Each keeps the shape, and with it the meaning, of every handle.
 */
module Prepare {
  import opened PowersOfTwo
  import opened Bitvector
  import opened Unfolding
  import opened Values
  import opened CreateState

  // ---- renumbering ----

  /**
    The first n values after renumbering: private vectors without items have become VECTOR_EMPTY, the others
    stand for their items in the new table.
   */
  ghost predicate RenumberedTo(s: State, values: seq<CValue>, priv: seq<seq<int>>, n: nat) {
    && n <= |s.values| == |values|
    && (forall h :: n <= h < |values| ==> values[h] == s.values[h])
    && Rank(values, PrivateVector, n) == |priv|
    && forall h :: 0 <= h < n ==> RenumberedValue(s, values, priv, h)
  }

  ghost predicate RenumberedValue(s: State, values: seq<CValue>, priv: seq<seq<int>>, h: nat)
    requires h < |s.values| == |values|
  {
    var v, w := s.values[h], values[h];
    if KindOf(v) != PrivateVector then w == v
    else if v.data >= |s.priv| then false
    else if s.priv[v.data] == [] && !v.setMap then w == v.(typ := VECTOR_EMPTY, data := 0)
    else w == v.(data := w.data) && w.data == Rank(values, PrivateVector, h) && w.data < |priv| && priv[w.data] == s.priv[v.data]
  }

  lemma RenumberStep(s: State, values: seq<CValue>, priv: seq<seq<int>>, n: nat, values': seq<CValue>, priv': seq<seq<int>>)
    requires RenumberedTo(s, values, priv, n) && n < |values| && |values| == |values'|
    requires forall h :: 0 <= h < |values| && h != n ==> values'[h] == values[h]
    requires priv <= priv'
    requires RenumberedValue(s, values', priv', n)
    requires |priv'| == |priv| + if KindOf(values'[n]) == PrivateVector then 1 else 0
    ensures RenumberedTo(s, values', priv', n + 1)
  {
    RankSameKinds(values, values', PrivateVector, n);
    forall h | 0 <= h < n ensures RenumberedValue(s, values', priv', h) {
      assert RenumberedValue(s, values, priv, h);
      RankSameKinds(values, values', PrivateVector, h);
    }
  }

  lemma RenumberedKinds(s: State, values: seq<CValue>, priv: seq<seq<int>>, h: nat)
    requires RenumberedTo(s, values, priv, |values|) && h < |values|
    ensures KindOf(values[h]) == KindOf(s.values[h])
            || (KindOf(s.values[h]) == PrivateVector && KindOf(values[h]) == InWord && values[h].typ == VECTOR_EMPTY)
    ensures values[h].setMap == s.values[h].setMap && values[h].outside == s.values[h].outside
    ensures values[h].compressed == s.values[h].compressed
    ensures values[h].typ == s.values[h].typ || (values[h].typ == VECTOR_EMPTY && !s.values[h].setMap)
  {
    assert RenumberedValue(s, values, priv, h);
  }

  lemma RenumberedNumbered(s: State, values: seq<CValue>, priv: seq<seq<int>>)
    requires Numbered(s) && RenumberedTo(s, values, priv, |values|)
    ensures Numbered(s.(values := values, priv := priv))
  {
    var n := |values|;
    forall h | 0 <= h < n ensures KindOf(values[h]) == KindOf(s.values[h]) || (KindOf(s.values[h]) == PrivateVector && KindOf(values[h]) == InWord) {
      RenumberedKinds(s, values, priv, h);
    }
    forall k: Kind, m: nat | k != PrivateVector && k != InWord && m <= n ensures Rank(values, k, m) == Rank(s.values, k, m) {
      RankSameKinds(s.values, values, k, m);
    }
    forall h | 0 <= h < n && KindOf(values[h]) != InWord ensures values[h].data == Rank(values, KindOf(values[h]), h) {
      assert RenumberedValue(s, values, priv, h);
    }
  }

  /** Renumbering keeps a state well-formed and every shape what it was, and leaves no empty vector behind. */
  lemma RenumberingKeeps(s: State, values: seq<CValue>, priv: seq<seq<int>>)
    requires Good(s) && Unprepared(s) && RenumberedTo(s, values, priv, |values|)
    ensures var t := s.(values := values, priv := priv);
      Good(t) && Unprepared(t) && NoEmptyVectors(t) && SameShapes(s, t)
  {
    var t := s.(values := values, priv := priv);
    RenumberedNumbered(s, values, priv);
    hide Numbered, Rank;
    forall h | 0 <= h < |values| ensures values[h].setMap == s.values[h].setMap
        && (values[h].typ == s.values[h].typ || (values[h].typ == VECTOR_EMPTY && !s.values[h].setMap)) {
      RenumberedKinds(s, values, priv, h);
    }
    forall h | 0 <= h < |values|
      ensures GoodValue(t, h) && CShape(s, Ref(h)) == CShape(t, Ref(h))
    {
      RenumberedGoodValue(s, values, priv, h);
    }
    forall h | 0 <= h < |values|
      ensures values[h].typ != VECTOR_VALUE_HASHABLE && !values[h].compressed
      ensures values[h].setMap && values[h].data < |priv| ==> priv[values[h].data] == []
      ensures KindOf(values[h]) == PrivateVector && !values[h].setMap && values[h].data < |priv| ==> priv[values[h].data] != []
    {
      assert GoodValue(s, h) && RenumberedValue(s, values, priv, h);
    }
  }

  lemma RenumberedGoodValue(s: State, values: seq<CValue>, priv: seq<seq<int>>, h: nat)
    requires |values| == |s.values| && h < |values| && GoodValue(s, h) && RenumberedValue(s, values, priv, h)
    requires forall g :: 0 <= g < |values| ==> values[g].setMap == s.values[g].setMap
    requires forall g :: 0 <= g < |values| ==> values[g].typ == s.values[g].typ || (values[g].typ == VECTOR_EMPTY && !s.values[g].setMap)
    requires !s.values[h].compressed
    ensures var t := s.(values := values, priv := priv);
      GoodValue(t, h) && CShape(s, Ref(h)) == CShape(t, Ref(h))
  {
    var t := s.(values := values, priv := priv);
    forall hs: seq<int> ensures AllPublic(s, hs) == AllPublic(t, hs) {
    }
  }

  // ---- marking hashable vectors ----

  /** t is s with some private value vectors marked hashable. */
  ghost predicate MarkedTo(s: State, t: State) {
    && t == s.(values := t.values) && |t.values| == |s.values|
    && forall h :: IsHandle(s, h) ==> MarkedValue(s.values[h], t.values[h])
  }

  ghost predicate MarkedValue(v: CValue, w: CValue) {
    w == v || (v.typ == VECTOR_VALUE && !v.outside && w == v.(typ := VECTOR_VALUE_HASHABLE))
  }

  lemma SameKindsNumbered(s: State, t: State)
    requires Numbered(s) && t == s.(values := t.values) && |t.values| == |s.values|
    requires forall h :: IsHandle(s, h) ==> KindOf(t.values[h]) == KindOf(s.values[h]) && t.values[h].data == s.values[h].data
    ensures Numbered(t)
  {
    forall k: Kind, m: nat | m <= |s.values| ensures Rank(t.values, k, m) == Rank(s.values, k, m) {
      RankSameKinds(s.values, t.values, k, m);
    }
  }

  lemma MarkingKeeps(s: State, t: State)
    requires Good(s) && NoEmptyVectors(s) && MarkedTo(s, t)
    ensures Good(t) && NoEmptyVectors(t) && SameShapes(s, t)
  {
    SameKindsNumbered(s, t);
    hide Numbered, Rank;
    forall hs: seq<int> ensures AllPublic(s, hs) == AllPublic(t, hs) {
    }
    forall h | IsHandle(s, h) ensures GoodValue(t, h) && CShape(s, Ref(h)) == CShape(t, Ref(h)) {
      assert GoodValue(s, h);
      MarkedGoodValue(s, t, h);
    }
  }

  lemma MarkedGoodValue(s: State, t: State, h: int)
    requires MarkedTo(s, t) && IsHandle(s, h) && GoodValue(s, h)
    ensures GoodValue(t, h) && CShape(s, Ref(h)) == CShape(t, Ref(h))
  {
    forall hs: seq<int> ensures AllPublic(s, hs) == AllPublic(t, hs) {
    }
  }

  // ---- compressing vectors of numbers ----

  predicate IsIntValue(v: CValue) {
    v.typ == I32 || v.typ == U32
  }

  ghost predicate AllInts(s: State, items: seq<int>) {
    forall i :: 0 <= i < |items| ==> IsHandle(s, items[i]) && IsIntValue(s.values[items[i]])
  }

  ghost predicate AllFloats(s: State, items: seq<int>) {
    forall i :: 0 <= i < |items| ==> IsHandle(s, items[i]) && s.values[items[i]].typ == FLOAT
  }

  ghost predicate AllFit(s: State, items: seq<int>, t: u32) {
    IsNumberVector(t) && forall i :: 0 <= i < |items| ==> IsHandle(s, items[i]) && Fits(t, IntOf(s.values[items[i]]))
  }

  ghost predicate SomeNegative(s: State, items: seq<int>) {
    exists i :: 0 <= i < |items| && IsHandle(s, items[i]) && IntOf(s.values[items[i]]) < 0
  }

  /** r is the narrowest of three types, given from narrow to wide, that holds all items. */
  ghost predicate Narrowest(s: State, items: seq<int>, t8: u32, t16: u32, t32: u32, r: u32) {
    if AllFit(s, items, t8) then r == t8
    else if AllFit(s, items, t16) then r == t16
    else AllFit(s, items, t32) && r == t32
  }

  /**
    The type a value vector of type `was` is written with. Integers that are negative and beyond INT32_MAX
    in one vector fit no 32-bit type: such a vector becomes a plain value vector, even if it was hashable.
   */
  ghost predicate CompressionIs(s: State, items: seq<int>, was: u32, r: u32) {
    if AllFloats(s, items) then r == VECTOR_FLOAT
    else if !AllInts(s, items) then r == was
    else if !SomeNegative(s, items) then Narrowest(s, items, VECTOR_U8, VECTOR_U16, VECTOR_U32, r)
    else if AllFit(s, items, VECTOR_I32) then Narrowest(s, items, VECTOR_I8, VECTOR_I16, VECTOR_I32, r)
    else r == VECTOR_VALUE
  }

  /** Scans the items for their kind and range. */
  method VectorCompression(s: State, items: seq<int>, was: u32) returns (r: u32)
    requires items != [] && forall i :: 0 <= i < |items| ==> IsHandle(s, items[i])
    ensures CompressionIs(s, items, was, r)
  {
    var minInt, maxInt := 0, 0;
    var initInt, initFloat := false, false;
    for i := 0 to |items|
      invariant !(initInt && initFloat) && (i > 0 <==> initInt || initFloat)
      invariant initFloat ==> forall k :: 0 <= k < i ==> s.values[items[k]].typ == FLOAT
      invariant initInt ==> forall k :: 0 <= k < i ==> IsIntValue(s.values[items[k]]) && minInt <= IntOf(s.values[items[k]]) <= maxInt
      invariant initInt ==> exists k :: 0 <= k < i && IntOf(s.values[items[k]]) == minInt
      invariant initInt ==> exists k :: 0 <= k < i && IntOf(s.values[items[k]]) == maxInt
    {
      var v := s.values[items[i]];
      var isInt := IsIntValue(v);
      if v.typ == FLOAT {
        initFloat := true;
      } else if !isInt {
        return was;
      }
      if (isInt || initInt) && initFloat {
        MixedIsNeither(s, items, if v.typ == FLOAT then 0 else i, if v.typ == FLOAT then i else 0);
        return was;
      }
      if isInt {
        var cur := IntOf(v);
        if !initInt {
          minInt, maxInt, initInt := cur, cur, true;
        } else {
          minInt := if minInt < cur then minInt else cur;
          maxInt := if maxInt > cur then maxInt else cur;
        }
      }
    }
    if initFloat {
      return VECTOR_FLOAT;
    }
    IntRange(s, items, minInt, maxInt, was);
    r := TypeForRange(minInt, maxInt);
  }

  lemma MixedIsNeither(s: State, items: seq<int>, i: nat, f: nat)
    requires i < |items| && IsHandle(s, items[i]) && IsIntValue(s.values[items[i]])
    requires f < |items| && IsHandle(s, items[f]) && s.values[items[f]].typ == FLOAT
    ensures !AllFloats(s, items) && !AllInts(s, items)
  {
  }

  function TypeForRange(minInt: int, maxInt: int): u32 {
    if minInt >= 0 then (if maxInt <= 0xFF then VECTOR_U8 else if maxInt <= 0xFFFF then VECTOR_U16 else VECTOR_U32)
    else if -0x80 <= minInt && maxInt <= 0x7F then VECTOR_I8
    else if -0x8000 <= minInt && maxInt <= 0x7FFF then VECTOR_I16
    else if -0x8000_0000 <= minInt && maxInt <= 0x7FFF_FFFF then VECTOR_I32
    else VECTOR_VALUE
  }

  /** What a vector of two values is written as. */
  lemma CompressionOfPairs(s: State, x: int, y: int, was: u32, r: u32)
    requires IsHandle(s, x) && IsHandle(s, y) && CompressionIs(s, [x, y], was, r)
    ensures s.values[x].typ == s.values[y].typ == FLOAT ==> r == VECTOR_FLOAT
    ensures (s.values[x].typ == FLOAT) != (s.values[y].typ == FLOAT) ==> r == was
    ensures IsIntValue(s.values[x]) != IsIntValue(s.values[y]) ==> r == was
    ensures IsIntValue(s.values[x]) && IsIntValue(s.values[y]) ==>
      var least, most := Least(IntOf(s.values[x]), IntOf(s.values[y])), -Least(-IntOf(s.values[x]), -IntOf(s.values[y]));
      r == if 0 <= least && most < 256 then VECTOR_U8
           else if -128 <= least && most < 128 then VECTOR_I8
           else if 0 <= least && most < 65536 then VECTOR_U16
           else if -32768 <= least && most < 32768 then VECTOR_I16
           else if 0 <= least then VECTOR_U32
           else if most < 0x8000_0000 then VECTOR_I32 else VECTOR_VALUE
  {
    var items := [x, y];
    assert items[0] == x && items[1] == y;
    if IsIntValue(s.values[x]) && IsIntValue(s.values[y]) {
      PairFits(s, x, y);
      hide AllFit, Fits;
      assert SomeNegative(s, items) <==> IntOf(s.values[x]) < 0 || IntOf(s.values[y]) < 0 by { PairNegative(s, x, y); }
    }
  }

  function Least(a: int, b: int): int {
    if a < b then a else b
  }

  lemma PairNegative(s: State, x: int, y: int)
    requires IsHandle(s, x) && IsHandle(s, y)
    ensures SomeNegative(s, [x, y]) <==> IntOf(s.values[x]) < 0 || IntOf(s.values[y]) < 0
  {
    var items := [x, y];
    assert items[0] == x && items[1] == y;
  }

  lemma PairFits(s: State, x: int, y: int)
    requires IsHandle(s, x) && IsHandle(s, y)
    ensures forall t :: AllFit(s, [x, y], t) <==> IsNumberVector(t) && Fits(t, IntOf(s.values[x])) && Fits(t, IntOf(s.values[y]))
  {
    var items := [x, y];
    assert items[0] == x && items[1] == y;
  }

  /** The type chosen from the range of the items is the right one for the items. */
  lemma IntRange(s: State, items: seq<int>, minInt: int, maxInt: int, was: u32)
    requires items != [] && AllInts(s, items)
    requires forall i :: 0 <= i < |items| ==> minInt <= IntOf(s.values[items[i]]) <= maxInt
    requires exists i :: 0 <= i < |items| && IntOf(s.values[items[i]]) == minInt
    requires exists i :: 0 <= i < |items| && IntOf(s.values[items[i]]) == maxInt
    ensures CompressionIs(s, items, was, TypeForRange(minInt, maxInt))
  {
    var lo :| 0 <= lo < |items| && IntOf(s.values[items[lo]]) == minInt;
    var hi :| 0 <= hi < |items| && IntOf(s.values[items[hi]]) == maxInt;
    assert !AllFloats(s, items) by { assert IsIntValue(s.values[items[lo]]); }
    assert SomeNegative(s, items) <==> minInt < 0;
    forall t: u32 | IsNumberVector(t) ensures AllFit(s, items, t) <==> Fits(t, minInt) && Fits(t, maxInt) {
      FitByRange(s, items, t, lo, hi);
    }
    hide AllFit, SomeNegative, AllFloats, AllInts, IntOf;
    TypeByRange(s, items, minInt, maxInt, was);
  }

  lemma FitByRange(s: State, items: seq<int>, t: u32, lo: int, hi: int)
    requires IsNumberVector(t) && AllInts(s, items) && 0 <= lo < |items| && 0 <= hi < |items|
    requires forall i :: 0 <= i < |items| ==> IntOf(s.values[items[lo]]) <= IntOf(s.values[items[i]]) <= IntOf(s.values[items[hi]])
    ensures AllFit(s, items, t) <==> Fits(t, IntOf(s.values[items[lo]])) && Fits(t, IntOf(s.values[items[hi]]))
  {
    hide Range;
  }

  lemma TypeByRange(s: State, items: seq<int>, minInt: int, maxInt: int, was: u32)
    requires AllInts(s, items) && !AllFloats(s, items) && (SomeNegative(s, items) <==> minInt < 0) && minInt <= maxInt
    requires forall t: u32 :: IsNumberVector(t) ==> (AllFit(s, items, t) <==> Fits(t, minInt) && Fits(t, maxInt))
    requires -0x8000_0000 <= minInt && maxInt < 0x1_0000_0000
    ensures CompressionIs(s, items, was, TypeForRange(minInt, maxInt))
  {
    hide AllFit, SomeNegative, AllFloats, AllInts;
  }

  ghost predicate AllCompressTo(s: State, items: seq<int>, t: u32) {
    forall i :: 0 <= i < |items| ==> IsHandle(s, items[i]) && CompressesTo(t, s.values[items[i]])
  }

  ghost predicate CompressedValue(s: State, h: int, w: CValue)
    requires IsHandle(s, h)
  {
    var v := s.values[h];
    w == v ||
    (IsValueVector(v.typ) && !v.outside && !v.setMap && v.data < |s.priv| &&
      (w == v.(typ := VECTOR_VALUE) || (w == v.(typ := w.typ, compressed := true) && IsNumberVector(w.typ) && AllCompressTo(s, s.priv[v.data], w.typ))))
  }

  /** t is s with some private value vectors compressed. */
  ghost predicate CompressedTo(s: State, t: State) {
    && t == s.(values := t.values) && |t.values| == |s.values|
    && forall h :: IsHandle(s, h) ==> CompressedValue(s, h, t.values[h])
  }

  /** The chosen type is one the whole vector can be compressed to, or leaves it a value vector. */
  lemma CompressionFits(s: State, items: seq<int>, was: u32, r: u32)
    requires items != [] && (forall i :: 0 <= i < |items| ==> IsHandle(s, items[i])) && CompressionIs(s, items, was, r)
    requires IsValueVector(was)
    ensures r == was || r == VECTOR_VALUE || (IsNumberVector(r) && AllCompressTo(s, items, r))
  {
    if AllFloats(s, items) {
      forall i | 0 <= i < |items| ensures CompressesTo(VECTOR_FLOAT, s.values[items[i]]) {
        assert s.values[items[i]].typ == FLOAT;
      }
    } else if AllInts(s, items) && r != VECTOR_VALUE {
      assert AllFit(s, items, r);
      forall i | 0 <= i < |items| ensures CompressesTo(r, s.values[items[i]]) {
        assert IsIntValue(s.values[items[i]]);
      }
    }
  }

  lemma CompressingKeeps(s: State, t: State)
    requires Good(s) && NoEmptyVectors(s) && CompressedTo(s, t)
    ensures Good(t) && NoEmptyVectors(t) && SameShapes(s, t)
  {
    forall h | IsHandle(s, h)
      ensures KindOf(t.values[h]) == KindOf(s.values[h]) && t.values[h].data == s.values[h].data && t.values[h].setMap == s.values[h].setMap
    {
      assert GoodValue(s, h);
      CompressedKind(s, t, h);
    }
    SameKindsNumbered(s, t);
    hide Numbered, Rank;
    forall h | IsHandle(s, h) ensures GoodValue(t, h) && CShape(s, Ref(h)) == CShape(t, Ref(h)) {
      assert GoodValue(s, h);
      CompressedGoodValue(s, t, h);
    }
  }

  lemma CompressedKind(s: State, t: State, h: int)
    requires CompressedTo(s, t) && IsHandle(s, h) && GoodValue(s, h)
    ensures KindOf(t.values[h]) == KindOf(s.values[h]) && t.values[h].data == s.values[h].data && t.values[h].setMap == s.values[h].setMap
  {
    var v, w := s.values[h], t.values[h];
    assert CompressedValue(s, h, w);
  }

  lemma CompressedGoodValue(s: State, t: State, h: int)
    requires CompressedTo(s, t) && IsHandle(s, h) && GoodValue(s, h)
    requires forall g :: IsHandle(s, g) ==> KindOf(t.values[g]) == KindOf(s.values[g]) && t.values[g].setMap == s.values[g].setMap
    ensures GoodValue(t, h) && CShape(s, Ref(h)) == CShape(t, Ref(h))
  {
    CompressedKind(s, t, h);
    forall hs: seq<int> ensures AllPublic(s, hs) == AllPublic(t, hs) {
    }
    forall g | IsHandle(s, g) && (s.values[g].setMap || !IsValueVector(s.values[g].typ)) ensures t.values[g] == s.values[g] {
      assert CompressedValue(s, g, t.values[g]);
    }
    var v, w := s.values[h], t.values[h];
    assert CompressedValue(s, h, w);
    if w == v {
      UnchangedGoodValue(s, t, h);
    } else {
      CompressedGoodItems(s, t, h);
    }
  }

  lemma UnchangedGoodValue(s: State, t: State, h: int)
    requires t == s.(values := t.values) && |t.values| == |s.values| && IsHandle(s, h) && GoodValue(s, h)
    requires forall hs: seq<int> :: AllPublic(s, hs) == AllPublic(t, hs)
    requires forall g :: IsHandle(s, g) && (s.values[g].setMap || !IsValueVector(s.values[g].typ)) ==> t.values[g] == s.values[g]
    requires t.values[h] == s.values[h]
    ensures GoodValue(t, h) && CShape(s, Ref(h)) == CShape(t, Ref(h))
  {
    hide Rank;
    var v := s.values[h];
    if KindOf(v) == PrivateVector && v.compressed {
      var items := s.priv[v.data];
      forall i | 0 <= i < |items| && GoodItems(s, v, items) ensures CompressesTo(v.typ, t.values[items[i]]) {
        assert CompressesTo(v.typ, s.values[items[i]]);
      }
    }
  }

  lemma CompressedGoodItems(s: State, t: State, h: int)
    requires t == s.(values := t.values) && |t.values| == |s.values| && IsHandle(s, h) && GoodValue(s, h)
    requires forall hs: seq<int> :: AllPublic(s, hs) == AllPublic(t, hs)
    requires forall g :: IsHandle(s, g) && !IsValueVector(s.values[g].typ) ==> t.values[g] == s.values[g]
    requires CompressedValue(s, h, t.values[h]) && t.values[h] != s.values[h] && KindOf(t.values[h]) == KindOf(s.values[h])
    ensures GoodValue(t, h) && CShape(s, Ref(h)) == CShape(t, Ref(h))
  {
    hide Rank;
    var w, items := t.values[h], s.priv[s.values[h].data];
    forall i | 0 <= i < |items| && w.compressed ensures CompressesTo(w.typ, t.values[items[i]]) {
      assert AllCompressTo(s, items, w.typ);
      assert CompressesTo(w.typ, s.values[items[i]]);
    }
  }
}

/**
  Well-formed create-time states: how handles, data words and tables fit together.
 */
module CreateState {
  import opened PowersOfTwo
  import opened Bitvector
  import opened Unfolding
  import opened Values

  // ---- ranks ----

  lemma {:induction false} RankMonotone(values: seq<CValue>, k: Kind, m: nat, n: nat)
    requires m <= n <= |values|
    ensures Rank(values, k, m) <= Rank(values, k, n) <= Rank(values, k, m) + (n - m)
    decreases n - m
  {
    if m < n { RankMonotone(values, k, m, n - 1); }
  }

  /** Values of one kind have different ranks, all below the total. */
  lemma RankStrict(values: seq<CValue>, k: Kind, g: nat, h: nat)
    requires g < h <= |values| && KindOf(values[g]) == k
    ensures Rank(values, k, g) < Rank(values, k, h)
  {
    RankMonotone(values, k, g + 1, h);
  }

  /** Ranks only look at the kinds. */
  lemma {:induction false} RankSameKinds(values: seq<CValue>, values': seq<CValue>, k: Kind, n: nat)
    requires n <= |values| && n <= |values'|
    requires forall h :: 0 <= h < n ==> (KindOf(values[h]) == k <==> KindOf(values'[h]) == k)
    ensures Rank(values, k, n) == Rank(values', k, n)
  {
    if n > 0 { RankSameKinds(values, values', k, n - 1); }
  }

  // ---- well-formedness ----

  function IntOf(v: CValue): int {
    if v.typ == I32 then AsI32(v.data) else v.data
  }

  /** A value that can stand as an item of a compressed vector of type t. */
  predicate CompressesTo(t: u32, v: CValue) {
    && IsNumberVector(t) && t != VECTOR_I64 && t != VECTOR_U64
    && (if t == VECTOR_FLOAT then v.typ == FLOAT else v.typ == I32 || v.typ == U32)
    && Fits(t, IntOf(v))
  }

  ghost predicate GoodItems(s: State, v: CValue, items: seq<int>) {
    if v.compressed then AllPublic(s, items) && forall i :: 0 <= i < |items| ==> CompressesTo(v.typ, s.values[items[i]])
    else if IsValueVector(v.typ) then AllPublic(s, items)
    else IsNumberVector(v.typ) && forall i :: 0 <= i < |items| ==> Fits(v.typ, items[i])
  }

  /** The vector a set or map keeps its hashes in. */
  predicate IsHashPart(s: State, h: int) {
    IsHandle(s, h) && s.values[h].setMap && s.values[h].typ == VECTOR_U32
  }

  /** A vector a set or map keeps its keys or values in. */
  predicate IsValuePart(s: State, h: int) {
    IsHandle(s, h) && s.values[h].setMap && IsValueVector(s.values[h].typ)
  }

  /** Sets and maps are created right after the vectors they own. */
  ghost predicate GoodSet(s: State, h: int, x: CSet) {
    && AllPublic(s, x.keys)
    && x.hashVector == h - 2 && IsHashPart(s, h - 2)
    && x.keyVector == h - 1 && IsValuePart(s, h - 1)
  }

  ghost predicate GoodMap(s: State, h: int, x: CMap) {
    && |x.keys| == |x.values| && AllPublic(s, x.keys) && AllPublic(s, x.values)
    && x.hashVector == h - 3 && IsHashPart(s, h - 3)
    && x.keyVector == h - 2 && IsValuePart(s, h - 2)
    && x.valueVector == h - 1 && IsValuePart(s, h - 1)
  }

  ghost predicate GoodFlags(v: CValue) {
    && IsKnown(v.typ)
    && (v.outside ==> IsNumberVector(v.typ) && !v.setMap && !v.compressed)
    && (v.setMap ==> KindOf(v) == PrivateVector && !v.compressed)
    && (v.compressed ==> KindOf(v) == PrivateVector && IsNumberVector(v.typ))
  }

  ghost predicate GoodValue(s: State, h: int)
    requires IsHandle(s, h)
  {
    var v := s.values[h];
    GoodFlags(v) &&
    match KindOf(v)
    case InWord => IsInline(v.typ) && CleanWord(v.typ, v.data)
    case TextBuffer => v.data < |s.texts| && ValidText(v.typ, s.texts[v.data])
    case BitBuffer => v.data < |s.bitvectors| && ValidBits(s.bitvectors[v.data])
    case OutsideVector => v.data < |s.outside| && GoodItems(s, v, s.outside[v.data])
    case PrivateVector => v.data < |s.priv| && (v.setMap || GoodItems(s, v, s.priv[v.data]))
    case SetTable => v.data < |s.sets| && GoodSet(s, h, s.sets[v.data])
    case MapTable => v.data < |s.maps| && GoodMap(s, h, s.maps[v.data])
  }

  /** The data word of a value that is not inline is its rank among the values of its kind. */
  ghost predicate Numbered(s: State) {
    && (forall h :: IsHandle(s, h) && KindOf(s.values[h]) != InWord ==> s.values[h].data == Rank(s.values, KindOf(s.values[h]), h))
    && Total(s.values, PrivateVector) == |s.priv|
    && Total(s.values, OutsideVector) == |s.outside|
    && Total(s.values, TextBuffer) == |s.texts|
    && Total(s.values, BitBuffer) == |s.bitvectors|
    && Total(s.values, SetTable) == |s.sets|
    && Total(s.values, MapTable) == |s.maps|
  }

  ghost predicate Good(s: State) {
    && |s.values| < 0xFFFF_FFFF
    && Numbered(s)
    && forall h :: IsHandle(s, h) ==> GoodValue(s, h)
  }

  /** A state as the create API leaves it: nothing has been prepared for writing yet. */
  ghost predicate Unprepared(s: State) {
    forall h :: IsHandle(s, h) ==>
      && s.values[h].typ != VECTOR_VALUE_HASHABLE && !s.values[h].compressed
      && (s.values[h].setMap && s.values[h].data < |s.priv| ==> s.priv[s.values[h].data] == [])
  }

  /** Every vector in the private table has items, except the empty vectors of sets and maps. */
  ghost predicate NoEmptyVectors(s: State) {
    forall h :: IsHandle(s, h) && KindOf(s.values[h]) == PrivateVector && !s.values[h].setMap && s.values[h].data < |s.priv| ==>
      s.priv[s.values[h].data] != []
  }

  // ---- filled hash tables ----

  /** The items of a heap vector. */
  function ItemsOf(s: State, v: CValue): seq<int> {
    if KindOf(v) == OutsideVector && v.data < |s.outside| then s.outside[v.data]
    else if KindOf(v) == PrivateVector && v.data < |s.priv| then s.priv[v.data]
    else []
  }

  /** The items of the vector h that a set or map keeps. */
  function Part(s: State, h: int): seq<int> {
    if IsHandle(s, h) then ItemsOf(s, s.values[h]) else []
  }

  /** The elements of xs at the positions that are marked. */
  function Kept<T>(marks: seq<bool>, xs: seq<T>): seq<T>
    requires |marks| == |xs|
  {
    if xs == [] then [] else Kept(marks[..|xs| - 1], xs[..|xs| - 1]) + if marks[|xs| - 1] then [xs[|xs| - 1]] else []
  }

  /** The buckets that hold something other than the empty-slot value. */
  function Occupied(s: State, ks: seq<int>): (r: seq<bool>)
    ensures |r| == |ks| && forall i :: 0 <= i < |ks| ==> r[i] == (IsHandle(s, ks[i]) && s.values[ks[i]].typ != EMPTY_SLOT)
  {
    seq(|ks|, i requires 0 <= i < |ks| => IsHandle(s, ks[i]) && s.values[ks[i]].typ != EMPTY_SLOT)
  }

  /** The buckets of a set hold its keys, each once. */
  ghost predicate SetMade(s: State, x: CSet) {
    var ks := Part(s, x.keyVector);
    && |Part(s, x.hashVector)| == |ks|
    && multiset(Kept(Occupied(s, ks), ks)) == multiset(x.keys)
  }

  /** The buckets of a map hold its key-value pairs, each once. */
  ghost predicate MapMade(s: State, x: CMap) {
    var ks, vs := Part(s, x.keyVector), Part(s, x.valueVector);
    && |Part(s, x.hashVector)| == |ks| == |vs|
    && |x.keys| == |x.values|
    && multiset(Kept(Occupied(s, ks), Zip(ks, vs))) == multiset(Zip(x.keys, x.values))
  }

  ghost predicate GoodPart(s: State, v: CValue, items: seq<int>) {
    if IsValueVector(v.typ) then forall i :: 0 <= i < |items| ==> IsHandle(s, items[i])
    else IsNumberVector(v.typ) && forall i :: 0 <= i < |items| ==> Fits(v.typ, items[i])
  }

  ghost predicate TableMade(s: State, h: int)
    requires IsHandle(s, h)
  {
    var v := s.values[h];
    && (v.setMap ==> GoodPart(s, v, ItemsOf(s, v)))
    && (KindOf(v) == SetTable && v.data < |s.sets| ==> SetMade(s, s.sets[v.data]))
    && (KindOf(v) == MapTable && v.data < |s.maps| ==> MapMade(s, s.maps[v.data]))
  }

  /** Every set and map has been laid out in its buckets. */
  ghost predicate TablesMade(s: State) {
    forall h :: IsHandle(s, h) ==> TableMade(s, h)
  }

  lemma {:induction false} KeptLength<A, B>(marks: seq<bool>, xs: seq<A>, ys: seq<B>)
    requires |marks| == |xs| == |ys|
    ensures |Kept(marks, xs)| == |Kept(marks, ys)|
    ensures Zip(Kept(marks, xs), Kept(marks, ys)) == Kept(marks, Zip(xs, ys))
  {
    if xs != [] {
      var n := |xs| - 1;
      KeptLength(marks[..n], xs[..n], ys[..n]);
      assert Zip(xs, ys)[..n] == Zip(xs[..n], ys[..n]);
    }
  }

  lemma {:induction false} KeptApply<A, B>(f: A -> B, marks: seq<bool>, xs: seq<A>)
    requires |marks| == |xs|
    ensures Kept(marks, Apply(f, xs)) == Apply(f, Kept(marks, xs))
  {
    if xs != [] {
      var n := |xs| - 1;
      KeptApply(f, marks[..n], xs[..n]);
      assert Apply(f, xs)[..n] == Apply(f, xs[..n]);
    }
  }

  /** Different values of one kind never share a data word. */
  lemma DataIsUnique(s: State, g: int, h: int)
    requires Numbered(s) && IsHandle(s, g) && IsHandle(s, h)
    requires KindOf(s.values[g]) == KindOf(s.values[h]) != InWord && s.values[g].data == s.values[h].data
    ensures g == h
  {
    var k := KindOf(s.values[g]);
    if g < h { RankStrict(s.values, k, g, h); }
    if h < g { RankStrict(s.values, k, h, g); }
  }

  /** The shape of every handle, as one predicate. */
  ghost predicate SameShapes(s: State, t: State) {
    |s.values| <= |t.values| && forall h :: IsHandle(s, h) ==> CShape(s, Ref(h)) == CShape(t, Ref(h))
  }
}

/**
  The create-state as the object the library works on, and the passes that turn it into a buffer: renumbering,
  marking, compressing, laying out tables, writing offsets and writing the heap.
 */
module Create {
  import opened Wrappers
  import opened PowersOfTwo
  import opened Bitvector
  import opened Unfolding
  import opened Values
  import opened CreateState
  import opened Prepare
  import opened Tables
  import opened Building
  import opened Interning
  import opened Bytes
  import opened Heap
  import opened Reader
  import opened ReadBack
  import opened RoundTrip
  import opened Output
  import HashTable
  import opened CreatePasses
  import opened LaidOutTables

  class Create {
    var values: seq<CValue>
    var priv: seq<seq<int>>
    var outside: seq<seq<int>>
    var sets: seq<CSet>
    var maps: seq<CMap>
    var texts: seq<Text>
    var bitvectors: seq<RawBitvector>
    var root: int
    var version: u32
    var u32s: seq<int>
    var i32s: seq<int>
    var nullHandle: int
    var emptySlot: int
    var trueHandle: int
    var falseHandle: int
    var textTable: map<bytes, int>
    var bitsTable: map<bytes, int>

    /** The create-state as a value. */
    function Now(): State
      reads this
    {
      State(values, priv, outside, sets, maps, texts, bitvectors)
    }

    /** The state of the create API between calls: everything that is cached denotes what it is cached for. */
    ghost predicate Valid()
      reads this
    {
      && UnderConstruction(Now())
      && NumbersCached(Now(), u32s, i32s) && TextsInterned(Now(), textTable) && BitsInterned(Now(), bitsTable)
      && Caches(Now(), nullHandle, Inline(NULL, 0)) && Caches(Now(), emptySlot, EMPTY_VALUE)
      && Caches(Now(), trueHandle, Inline(BOOLEAN, 1)) && Caches(Now(), falseHandle, Inline(BOOLEAN, 0))
      && (root == NO_HANDLE || IsPublic(Now(), root))
    }

    lemma ValidIsUnderConstruction()
      requires Valid()
      ensures UnderConstruction(Now()) && Caches(Now(), emptySlot, EMPTY_VALUE)
    {
    }

    /** Handles have not run out: n more values can be created. */
    ghost predicate Room(n: nat)
      reads this
    {
      |values| + n < 0xFFFF_FFFF
    }

    /** The call returned h, a handle of the value asked for, and changed the meaning of no handle. */
    ghost predicate Denotes(was: State, h: int, shape: Shape<Node<int>>)
      reads this
    {
      && Valid() && IsPublic(Now(), h) && CShape(Now(), Ref(h)) == shape
      && SamePublicShapes(was, Now()) && was.values <= values
    }

    constructor (version: u32)
      ensures Valid() && Now() == State([], [], [], [], [], [], []) && root == NO_HANDLE && this.version == version
    {
      values, priv, outside, sets, maps, texts, bitvectors := [], [], [], [], [], [], [];
      root, nullHandle, emptySlot, trueHandle, falseHandle := NO_HANDLE, NO_HANDLE, NO_HANDLE, NO_HANDLE, NO_HANDLE;
      u32s, i32s := seq(N_U32, _ => NO_HANDLE), seq(MAX_I32 - MIN_I32 + 1, _ => NO_HANDLE);
      textTable, bitsTable := map[], map[];
      this.version := version;
    }

    // ---- inline values ----

    /** Adds an inline value; all caches stay right. */
    method Push(v: CValue) returns (h: int)
      requires Valid() && Room(1) && IsInline(v.typ) && v == Inline(v.typ, v.data) && CleanWord(v.typ, v.data)
      modifies this`values
      ensures Denotes(old(Now()), h, InlineShape(v.typ, v.data)) && Caches(Now(), h, v) && h != NO_HANDLE
      ensures values == old(values) + [v] && h == |old(values)|
    {
      hide UnderConstruction, NumbersCached, TextsInterned, BitsInterned, SamePublicShapes, CShape, InlineShape;
      ghost var s := Now();
      PushWord(s, v);
      values := values + [v];
      h := |values| - 1;
      GrowingKeepsCaches(s, Now(), u32s, i32s, bitsTable);
      assert KindOf(v) == InWord;
      GrowingKeepsTexts(s, Now(), textTable);
      RootStays(s, Now(), root);
    }

    method CreateU32(x: u32) returns (h: int)
      requires Valid() && Room(1)
      modifies this`values, this`u32s
      ensures Denotes(old(Now()), h, Leaf(TInt(x))) && values[h] == Inline(U32, x)
      ensures x < 10000 ==> |old(u32s)| == |u32s| == 10000 && u32s[x] == h && (old(u32s[x]) != NO_HANDLE ==> values == old(values))
    {
      hide UnderConstruction, NumbersCached, TextsInterned, BitsInterned, SamePublicShapes, CShape, InlineShape;
      assert InlineShape<Node<int>>(U32, x) == Leaf(TInt(x)) by { ShapeOfNumber(x); }
      if x < N_U32 {
        CachedU32(Now(), u32s, i32s, x, NO_HANDLE);
        if u32s[x] != NO_HANDLE {
          h := u32s[x];
          CachedDenotes(Now(), h, Inline(U32, x));
          return;
        }
      }
      h := Push(Inline(U32, x));
      if x < N_U32 {
        CachedU32(Now(), u32s, i32s, x, h);
        u32s := u32s[x := h];
      }
    }

    method CreateI32(x: int) returns (h: int)
      requires Valid() && Room(1) && -0x8000_0000 <= x < 0x8000_0000
      modifies this`values, this`i32s
      ensures Denotes(old(Now()), h, Leaf(TInt(x))) && values[h] == Inline(I32, WordOf(x))
      ensures -10000 <= x <= 10000 ==> |old(i32s)| == |i32s| == 20001 && i32s[x + 10000] == h
      ensures -10000 <= x <= 10000 && old(i32s[x + 10000]) != NO_HANDLE ==> values == old(values)
    {
      hide UnderConstruction, NumbersCached, TextsInterned, BitsInterned, SamePublicShapes, CShape, InlineShape;
      SignedWord(x);
      assert InlineShape<Node<int>>(I32, WordOf(x)) == Leaf(TInt(x)) by { ShapeOfNumber(WordOf(x)); }
      if MIN_I32 <= x <= MAX_I32 {
        CachedI32(Now(), u32s, i32s, x, NO_HANDLE);
        if i32s[x - MIN_I32] != NO_HANDLE {
          h := i32s[x - MIN_I32];
          CachedDenotes(Now(), h, Inline(I32, WordOf(x)));
          return;
        }
      }
      h := Push(Inline(I32, WordOf(x)));
      if MIN_I32 <= x <= MAX_I32 {
        CachedI32(Now(), u32s, i32s, x, h);
        i32s := i32s[x - MIN_I32 := h];
      }
    }

    method CreateNull() returns (h: int)
      requires Valid() && Room(1)
      modifies this`values, this`nullHandle
      ensures Denotes(old(Now()), h, InlineShape(NULL, 0)) && nullHandle == h && values[h] == Inline(NULL, 0)
      ensures old(nullHandle) != NO_HANDLE ==> values == old(values)
    {
      hide UnderConstruction, NumbersCached, TextsInterned, BitsInterned, SamePublicShapes, CShape, InlineShape;
      if nullHandle != NO_HANDLE {
        CachedDenotes(Now(), nullHandle, Inline(NULL, 0));
      } else {
        nullHandle := Push(Inline(NULL, 0));
      }
      h := nullHandle;
    }

    method CreateTrue() returns (h: int)
      requires Valid() && Room(1)
      modifies this`values, this`trueHandle
      ensures Denotes(old(Now()), h, InlineShape(BOOLEAN, 1)) && trueHandle == h && values[h] == Inline(BOOLEAN, 1)
      ensures old(trueHandle) != NO_HANDLE ==> values == old(values)
    {
      hide UnderConstruction, NumbersCached, TextsInterned, BitsInterned, SamePublicShapes, CShape, InlineShape;
      if trueHandle != NO_HANDLE {
        CachedDenotes(Now(), trueHandle, Inline(BOOLEAN, 1));
      } else {
        trueHandle := Push(Inline(BOOLEAN, 1));
      }
      h := trueHandle;
    }

    method CreateFalse() returns (h: int)
      requires Valid() && Room(1)
      modifies this`values, this`falseHandle
      ensures Denotes(old(Now()), h, InlineShape(BOOLEAN, 0)) && falseHandle == h && values[h] == Inline(BOOLEAN, 0)
      ensures old(falseHandle) != NO_HANDLE ==> values == old(values)
    {
      hide UnderConstruction, NumbersCached, TextsInterned, BitsInterned, SamePublicShapes, CShape, InlineShape;
      if falseHandle != NO_HANDLE {
        CachedDenotes(Now(), falseHandle, Inline(BOOLEAN, 0));
      } else {
        falseHandle := Push(Inline(BOOLEAN, 0));
      }
      h := falseHandle;
    }

    // ---- strings and bitvectors ----

    /** A string, under the handle it already has if the same string was created before. */
    method CreateText(x: Text) returns (h: int)
      requires Valid() && Room(1) && ValidText(TypeOf(x), x)
      modifies this`values, this`texts, this`textTable
      ensures Denotes(old(Now()), h, Leaf(TText(x)))
      ensures values == old(values) <==> HasText(old(Now()), x)
    {
      hide UnderConstruction, NumbersCached, TextsInterned, BitsInterned, SamePublicShapes, CShape, InlineShape, TextBytes, ValidText, HasText;
      ghost var s := Now();
      TextFound(s, textTable, x);
      var key := TextBytes(x);
      if key in textTable {
        h := textTable[key];
        return;
      }
      PushText(s, TypeOf(x), x);
      values := values + [Inline(TypeOf(x), |texts|)];
      texts := texts + [x];
      h := |values| - 1;
      textTable := textTable[key := h];
      TextAdded(s, Now(), old(textTable), x);
      GrowingKeepsCaches(s, Now(), u32s, i32s, bitsTable);
      RootStays(s, Now(), root);
    }

    method CreateFloat(pattern: u32) returns (h: int)
      requires Valid() && Room(1)
      modifies this`values
      ensures Denotes(old(Now()), h, Leaf(TFloat(pattern))) && values[h] == Inline(FLOAT, pattern)
    {
      h := Push(Inline(FLOAT, pattern));
    }

    /**
      The handle of the empty-slot value, created on first use. The output passes call it too, when the state
      is no longer one of the create API.
     */
    method CreateEmptySlot() returns (h: int)
      requires Caches(Now(), emptySlot, EMPTY_VALUE) && (emptySlot == NO_HANDLE ==> Room(1))
      modifies this`values, this`emptySlot
      ensures Caches(Now(), h, EMPTY_VALUE) && emptySlot == h != NO_HANDLE
      ensures values == if old(emptySlot) == NO_HANDLE then old(values) + [EMPTY_VALUE] else old(values)
      ensures old(Valid()) ==> Denotes(old(Now()), h, Leaf(TEmptySlot))
    {
      ghost var s, valid := Now(), Valid();
      EmptyShape();
      hide UnderConstruction, NumbersCached, TextsInterned, BitsInterned, SamePublicShapes, CShape, InlineShape;
      if emptySlot == NO_HANDLE {
        values := values + [EMPTY_VALUE];
        emptySlot := |values| - 1;
        if valid {
          PushWord(s, EMPTY_VALUE);
          CachesStay(s, Now(), root, u32s, i32s, textTable, bitsTable);
        }
      } else if valid {
        CachedDenotes(s, emptySlot, EMPTY_VALUE);
      }
      h := emptySlot;
    }

    /** A bitvector: inline if it has a short form, else in a buffer that equal bitvectors may share. */
    method CreateBitvector(b: RawBitvector, normalize: bool) returns (h: int)
      requires Valid() && Room(1) && ValidBits(b)
      modifies this`values, this`bitvectors, this`bitsTable
      ensures Denotes(old(Now()), h, Leaf(TBits(RawBits(b.bytes, b.n))))
      ensures EncodedAs(RawBits(b.bytes, b.n), values[h].typ)
      ensures values[h].typ == BITVECTOR ==> (values == old(values) <==> normalize && BitsBytes(b) in old(bitsTable))
    {
      hide UnderConstruction, NumbersCached, TextsInterned, BitsInterned, SamePublicShapes, CShape, InlineShape, RawBits, All, Step, Decode, EncodedAs;
      ghost var s := Now();
      var typ, data := Encode(b.bytes, b.n);
      if typ != BITVECTOR {
        InlineBits(typ, data, b.n, b.bytes);
        h := Push(Inline(typ, data));
        return;
      }
      var key := LittleEndian(4, b.n) + b.bytes;
      assert key == BitsBytes(b);
      if normalize && key in bitsTable {
        BitsFound(s, bitsTable, b);
        h := bitsTable[key];
        return;
      }
      PushBits(s, b);
      values := values + [Inline(BITVECTOR, |bitvectors|)];
      bitvectors := bitvectors + [b];
      h := |values| - 1;
      if normalize {
        bitsTable := bitsTable[key := h];
      }
      BitsAdded(s, Now(), old(bitsTable), b);
      BitvectorAdded(s, Now(), textTable);
      GrowingKeepsCaches(s, Now(), u32s, i32s, bitsTable);
      RootStays(s, Now(), root);
    }

    // ---- vectors ----

    /** A new vector without items, of handles or of numbers of one type. */
    method CreateVector(typ: u32) returns (h: int)
      requires Valid() && Room(1) && IsHeapVector(typ) && typ != VECTOR_VALUE_HASHABLE
      modifies this`values, this`priv
      ensures Denotes(old(Now()), h, Vector([])) && h == |old(values)| && values == old(values) + [values[h]] && IsOwnVector(Now(), h) && values[h].typ == typ
    {
      hide UnderConstruction, NumbersCached, TextsInterned, BitsInterned, SamePublicShapes, CShape, InlineShape;
      ghost var s := Now();
      PushVector(s, typ, false);
      values := values + [CValue(typ, false, false, false, |priv|)];
      priv := priv + [[]];
      h := |values| - 1;
      CachesStay(s, Now(), root, u32s, i32s, textTable, bitsTable);
    }

    /** A vector for a set or map to keep: created like any other, then flagged. */
    method CreatePart(typ: u32) returns (h: int)
      requires Valid() && Room(1) && (typ == VECTOR_U32 || typ == VECTOR_VALUE)
      modifies this`values, this`priv
      ensures Valid() && SamePublicShapes(old(Now()), Now())
      ensures h == |old(values)| && |values| == |old(values)| + 1 && values[..h] == old(values) && values[h].setMap && values[h].typ == typ
    {
      hide UnderConstruction, NumbersCached, TextsInterned, BitsInterned, SamePublicShapes, CShape, InlineShape;
      ghost var s := Now();
      PushVector(s, typ, true);
      values := values + [CValue(typ, false, true, false, |priv|)];
      priv := priv + [[]];
      h := |values| - 1;
      CachesStay(s, Now(), root, u32s, i32s, textTable, bitsTable);
    }

    /** A vector over items that stay the caller's. */
    method CreateOutsideVector(typ: u32, items: seq<int>) returns (h: int)
      requires Valid() && Room(1) && IsNumberVector(typ) && forall i :: 0 <= i < |items| ==> Fits(typ, items[i])
      modifies this`values, this`outside
      ensures Denotes(old(Now()), h, Vector(Numbers(typ, items))) && h == |old(values)|
      ensures values[h].typ == if items == [] then VECTOR_EMPTY else typ
    {
      hide UnderConstruction, NumbersCached, TextsInterned, BitsInterned, SamePublicShapes, CShape, InlineShape, Numbers;
      if items == [] {
        EmptyVectorShape(typ);
        h := Push(Inline(VECTOR_EMPTY, 0));
        return;
      }
      ghost var s := Now();
      PushOutside(s, typ, items);
      values := values + [CValue(typ, true, false, false, |outside|)];
      outside := outside + [items];
      h := |values| - 1;
      CachesStay(s, Now(), root, u32s, i32s, textTable, bitsTable);
    }

    /** Appends a handle to a vector; fails if there is no such handle. */
    method AppendValue(vector: int, v: int) returns (h: int)
      requires Valid() && IsOwnVector(Now(), vector) && IsValueVector(values[vector].typ)
      requires 0 <= v && (v < |values| ==> !values[v].setMap)
      modifies this`priv
      ensures Valid()
      ensures h == if v < |values| then vector else NO_HANDLE
      ensures h == NO_HANDLE ==> Now() == old(Now())
      ensures h != NO_HANDLE ==> OthersSame(old(Now()), Now(), vector)
      ensures h != NO_HANDLE ==> CShape(Now(), Ref(vector)) == Vector(old(CShape(Now(), Ref(vector))).items + [Ref(v)])
    {
      if v >= |values| {
        return NO_HANDLE;
      }
      Append(vector, v);
      h := vector;
    }

    /** Appends a number of the vector's own type. */
    method AppendNumber(vector: int, x: int)
      requires Valid() && IsOwnVector(Now(), vector) && IsNumberVector(values[vector].typ) && Fits(values[vector].typ, x)
      modifies this`priv
      ensures Valid() && OthersSame(old(Now()), Now(), vector)
      ensures old(CShape(Now(), Ref(vector))).Vector?
      ensures CShape(Now(), Ref(vector)) == Vector(old(CShape(Now(), Ref(vector))).items + [Number(values[vector].typ, x)])
    {
      Append(vector, x);
    }

    method Append(vector: int, item: int)
      requires Valid() && IsOwnVector(Now(), vector) && ItemFits(Now(), vector, item)
      modifies this`priv
      ensures Valid() && OthersSame(old(Now()), Now(), vector)
      ensures old(CShape(Now(), Ref(vector))).Vector?
      ensures CShape(Now(), Ref(vector)) == Vector(old(CShape(Now(), Ref(vector))).items + [ItemNode(values[vector], item)])
    {
      hide UnderConstruction, NumbersCached, TextsInterned, BitsInterned, SamePublicShapes, CShape, InlineShape, OthersSame, GoodItems, AllPublic, ItemNodes;
      ghost var s := Now();
      var d := values[vector].data;
      OwnItems(s, vector, item);
      ItemsKeep(s, vector, s.priv[d] + [item]);
      priv := priv[d := priv[d] + [item]];
      RootKept(s, Now(), vector, root);
      CachesKept(s, Now(), u32s, i32s, textTable, bitsTable);
    }

    /** Replaces item i of a vector of handles. */
    method SetItem(vector: int, i: nat, v: int)
      requires Valid() && IsOwnVector(Now(), vector) && IsValueVector(values[vector].typ) && i < |priv[values[vector].data]| && IsPublic(Now(), v)
      modifies this`priv
      ensures Valid() && OthersSame(old(Now()), Now(), vector)
      ensures old(CShape(Now(), Ref(vector))).Vector? && i < |old(CShape(Now(), Ref(vector))).items|
      ensures CShape(Now(), Ref(vector)) == Vector(old(CShape(Now(), Ref(vector))).items[i := Ref(v)])
    {
      ghost var s := Now();
      hide UnderConstruction, NumbersCached, TextsInterned, BitsInterned, SamePublicShapes, CShape, InlineShape, OthersSame, GoodItems, AllPublic;
      var d := values[vector].data;
      OwnItem(s, vector, i, v);
      ItemsKeep(s, vector, s.priv[d][i := v]);
      priv := priv[d := priv[d][i := v]];
      RootKept(s, Now(), vector, root);
      CachesKept(s, Now(), u32s, i32s, textTable, bitsTable);
    }

    // ---- sets and maps ----

    method CreateSet() returns (h: int)
      requires Valid() && Room(3)
      modifies this`values, this`priv, this`sets
      ensures Denotes(old(Now()), h, SetOf([])) && h >= |old(values)| && KindOf(values[h]) == SetTable
    {
      hide UnderConstruction, NumbersCached, TextsInterned, BitsInterned, SamePublicShapes, CShape, InlineShape;
      ghost var s0 := Now();
      var hash := CreatePart(VECTOR_U32);
      ghost var s1 := Now();
      var key := CreatePart(VECTOR_VALUE);
      ghost var s := Now();
      assert values[hash] == s1.values[hash];
      PushSet(s);
      values := values + [Inline(SET_VALUE, |sets|)];
      sets := sets + [CSet([], hash, key)];
      h := |values| - 1;
      CachesStay(s, Now(), root, u32s, i32s, textTable, bitsTable);
      SamePublicTransitive(s0, s1, s);
      SamePublicTransitive(s0, s, Now());
    }

    method SetAdd(h: int, key: int)
      requires Valid() && IsPublic(Now(), h) && KindOf(values[h]) == SetTable && IsPublic(Now(), key)
      modifies this`sets
      ensures Valid() && OthersSame(old(Now()), Now(), h)
      ensures old(CShape(Now(), Ref(h))).SetOf?
      ensures CShape(Now(), Ref(h)) == SetOf(old(CShape(Now(), Ref(h))).keys + [Ref(key)])
    {
      hide UnderConstruction, NumbersCached, TextsInterned, BitsInterned, SamePublicShapes, CShape, InlineShape, OthersSame, GoodItems, AllPublic;
      ghost var s := Now();
      var d := values[h].data;
      OwnKeys(s, h, key);
      KeysKeep(s, h, s.sets[d].keys + [key]);
      sets := sets[d := sets[d].(keys := sets[d].keys + [key])];
      RootKept(s, Now(), h, root);
      CachesKept(s, Now(), u32s, i32s, textTable, bitsTable);
    }

    method CreateMap() returns (h: int)
      requires Valid() && Room(4)
      modifies this`values, this`priv, this`maps
      ensures Denotes(old(Now()), h, MapOf([], [])) && h >= |old(values)| && KindOf(values[h]) == MapTable
    {
      hide UnderConstruction, NumbersCached, TextsInterned, BitsInterned, SamePublicShapes, CShape, InlineShape;
      ghost var s0 := Now();
      var hash := CreatePart(VECTOR_U32);
      ghost var s1 := Now();
      var key := CreatePart(VECTOR_VALUE);
      ghost var s2 := Now();
      assert values[hash] == s1.values[hash];
      var value := CreatePart(VECTOR_VALUE);
      ghost var s := Now();
      assert values[hash] == s2.values[hash] && values[key] == s2.values[key];
      PushMap(s);
      values := values + [Inline(MAP_VALUE_VALUE, |maps|)];
      maps := maps + [CMap([], [], hash, key, value)];
      h := |values| - 1;
      CachesStay(s, Now(), root, u32s, i32s, textTable, bitsTable);
      SamePublicTransitive(s0, s1, s2);
      SamePublicTransitive(s0, s2, s);
      SamePublicTransitive(s0, s, Now());
    }

    method MapAdd(h: int, key: int, value: int)
      requires Valid() && IsPublic(Now(), h) && KindOf(values[h]) == MapTable && IsPublic(Now(), key) && IsPublic(Now(), value)
      modifies this`maps
      ensures Valid() && OthersSame(old(Now()), Now(), h)
      ensures old(CShape(Now(), Ref(h))).MapOf?
      ensures CShape(Now(), Ref(h)) == MapOf(old(CShape(Now(), Ref(h))).keys + [Ref(key)], old(CShape(Now(), Ref(h))).values + [Ref(value)])
    {
      hide UnderConstruction, NumbersCached, TextsInterned, BitsInterned, SamePublicShapes, CShape, InlineShape, OthersSame, GoodItems, AllPublic;
      ghost var s := Now();
      var d := values[h].data;
      OwnPairs(s, h, key, value);
      PairsKeep(s, h, s.maps[d].keys + [key], s.maps[d].values + [value]);
      maps := maps[d := maps[d].(keys := maps[d].keys + [key], values := maps[d].values + [value])];
      RootKept(s, Now(), h, root);
      CachesKept(s, Now(), u32s, i32s, textTable, bitsTable);
    }

    method SetRoot(h: int)
      requires Valid() && IsPublic(Now(), h)
      modifies this`root
      ensures Valid() && root == h
    {
      root := h;
    }

    /** Hashes the keys of a table, or finds the first one that no table takes. */
    method HashKeys(keys: seq<int>, hash: int -> u32) returns (r: TableResult, hv: seq<u32>)
      requires AllPublic(Now(), keys)
      ensures r == TableDone ==> AllKeysFine(Now(), keys) && hv == Hashes(hash, keys)
      ensures r != TableDone ==> FirstRefusedKey(Now(), keys, r)
    {
      hv := [];
      for i := 0 to |keys|
        invariant |hv| == i && (forall j :: 0 <= j < i ==> hv[j] == hash(keys[j]))
        invariant forall j :: 0 <= j < i ==> KeyFine(Now(), keys[j])
      {
        assert IsPublic(Now(), keys[i]);
        if !IsHashable(values[keys[i]].typ) {
          assert KeyRefused(Now(), keys[i], NotHashable);
          return NotHashable, hv;
        }
        if values[keys[i]].typ == EMPTY_SLOT {
          assert KeyRefused(Now(), keys[i], EmptySlotKey);
          return EmptySlotKey, hv;
        }
        hv := hv + [hash(keys[i])];
      }
      r := TableDone;
    }

    /** Lays out the keys, and the values of a map, in bucket arrays. */
    method FillBuckets(keys: seq<int>, vals: Option<seq<int>>, empty: int, hv: seq<u32>, cmp: Comparator)
      returns (r: TableResult, hs: seq<u32>, ks: seq<Slot>, vs: seq<Slot>, ghost slots: seq<nat>, ghost pos: seq<nat>)
      requires |hv| == |keys| && |keys| + |keys| / 2 <= HashTable.MAX_BUCKETS && (vals.Some? ==> |vals.value| == |keys|)
      ensures r == TableDone <==> HashTable.AllDifferent(cmp, hv, Keys(keys))
      ensures r == DuplicateKey <==> HashTable.FirstBadPair(cmp, hv, Keys(keys), HashTable.Equal)
      ensures r == CompareFailed <==> HashTable.FirstBadPair(cmp, hv, Keys(keys), HashTable.Broken)
      ensures r == TableDone || r == DuplicateKey || r == CompareFailed
      ensures |hs| == |ks| == |vs|
      ensures r == TableDone ==> |slots| == |keys| < |ks| && HashTable.IsTable(hs, ks) && HashTable.Placed(hv, Keys(keys), hs, ks, slots, pos)
      ensures RightSize(|keys|, |ks|)
      ensures r == TableDone && vals.Some? ==> HashTable.ValuesPlaced(Cells(vals.value, empty), vs, slots)
    {
      HashTable.BucketsExceedItems(|keys|);
      var n := HashTable.ComputeBucketCount(|keys|);
      var ha := new u32[n](_ => 0);
      var ka := new Slot[n](_ => HashTable.Empty);
      var va := new Slot[n](_ => HashTable.Empty);
      var p;
      assert HashTable.Acceptable(Keys(keys), vals.None?, vals.None?, ha[..], ka[..], if vals.None? then [] else va[..]);
      p, slots, pos := HashTable.Populate(cmp, hv, Keys(keys), if vals.Some? then Some(Cells(vals.value, empty)) else None,
                                          ha, ka, if vals.Some? then va else null);
      hs, ks, vs := ha[..], ka[..], va[..];
      r := match p case Populated => TableDone case DuplicateKey => DuplicateKey case CompareFailed => CompareFailed case Refused(_) => CompareFailed;
    }

    /** Hashes the keys and lays them out, or reports the keys that are to blame. */
    method LayOut(keys: seq<int>, vals: Option<seq<int>>, empty: int, hash: int -> u32, cmp: Comparator)
      returns (r: TableResult, hv: seq<u32>, hs: seq<u32>, ks: seq<Slot>, vs: seq<Slot>, ghost slots: seq<nat>, ghost pos: seq<nat>)
      requires AllPublic(Now(), keys) && |keys| + |keys| / 2 <= HashTable.MAX_BUCKETS && (vals.Some? ==> |vals.value| == |keys|)
      ensures TableOutcome(Now(), keys, hash, cmp, r)
      ensures |hs| == |ks| == |vs|
      ensures r == TableDone ==> hv == Hashes(hash, keys) && |slots| == |keys| < |ks| && HashTable.IsTable(hs, ks) && RightSize(|keys|, |ks|)
      ensures r == TableDone ==> HashTable.Placed(hv, Keys(keys), hs, ks, slots, pos)
      ensures r == TableDone && vals.Some? ==> HashTable.ValuesPlaced(Cells(vals.value, empty), vs, slots)
    {
      hs, ks, vs, slots, pos := [], [], [], [], [];
      r, hv := HashKeys(keys, hash);
      hide AllKeysFine, FirstRefusedKey, HashTable.Placed, HashTable.IsTable, HashTable.ValuesPlaced, HashTable.AllDifferent, HashTable.FirstBadPair, RightSize;
      if r == TableDone {
        r, hs, ks, vs, slots, pos := FillBuckets(keys, vals, empty, hv, cmp);
      }
    }

    // ---- laying out sets and maps ----

    /** The state after filling the vectors of table h. */
    ghost predicate Filled(was: State, h: int, hs: seq<u32>, ks: seq<Slot>, vs: seq<Slot>, empty: int)
      reads this
    {
      && FilledAt(was, Now(), h)
      && IsHandle(Now(), empty) && values[empty].typ == EMPTY_SLOT
      && if KindOf(was.values[h]) == SetTable then Part(Now(), h - 2) == hs && Part(Now(), h - 1) == Handles(ks, empty)
         else Part(Now(), h - 3) == hs && Part(Now(), h - 2) == Handles(ks, empty) && Part(Now(), h - 1) == Handles(vs, empty)
    }

    /** Hands the bucket arrays over to the vectors that set or map h keeps. */
    method Transfer(h: int, hs: seq<u32>, ks: seq<Slot>, vs: seq<Slot>, empty: int)
      requires Good(Now()) && IsTable(Now(), h) && IsHandle(Now(), empty) && values[empty].typ == EMPTY_SLOT
      modifies this`priv
      ensures Filled(old(Now()), h, hs, ks, vs, empty)
    {
      ghost var s := Now();
      var v := values[h];
      TwoParts(s, h);
      if v.typ == SET_VALUE {
        SetParts(s, h);
        var x := sets[v.data];
        SetTransferred(s, h, hs, Handles(ks, empty));
        priv := priv[values[x.hashVector].data := hs];
        priv := priv[values[x.keyVector].data := Handles(ks, empty)];
      } else {
        MapParts(s, h);
        var x := maps[v.data];
        MapTransferred(s, h, hs, Handles(ks, empty), Handles(vs, empty));
        priv := priv[values[x.hashVector].data := hs];
        priv := priv[values[x.keyVector].data := Handles(ks, empty)];
        priv := priv[values[x.valueVector].data := Handles(vs, empty)];
      }
    }

    /** Room for the empty-slot value. */
    ghost predicate SlotFits()
      reads this
    {
      emptySlot == NO_HANDLE ==> Room(1)
    }

    /** Lays out one set or map; the sets below handle ns and the maps below handle nm are done already. */
    method CreateTable(h: int, hash: int -> u32, cmp: Comparator, ghost ns: int, ghost nm: int) returns (r: TableResult)
      requires Good(Now()) && MadeUpTo(Now(), ns, nm) && IsTable(Now(), h) && h == (if KindOf(values[h]) == SetTable then ns else nm)
      requires Caches(Now(), emptySlot, EMPTY_VALUE) && SlotFits() && TablesFit(Now())
      modifies this`values, this`priv, this`emptySlot
      ensures Caches(Now(), emptySlot, EMPTY_VALUE) && FilledAt(old(Now()), Now(), h) && |values| < 0xFFFF_FFFF
      ensures old(emptySlot) != NO_HANDLE ==> values == old(values)
      ensures emptySlot != NO_HANDLE
      ensures TableOutcome(old(Now()), TableKeys(old(Now()), h), hash, cmp, r)
      ensures r == TableDone ==> if KindOf(old(values[h])) == SetTable then MadeUpTo(Now(), ns + 1, nm) else MadeUpTo(Now(), ns, nm + 1)
      ensures r == TableDone ==> LaidOut(Now(), hash, h)
    {
      ghost var s := Now();
      hide Good, MadeUpTo, AllPublic, TableOutcome, FilledAt, AllKeysFine, FirstRefusedKey;
      hide HashTable.Placed, HashTable.IsTable, HashTable.ValuesPlaced, LaidOut, RightSize;
      var v := values[h];
      TableIsPublic(s, h);
      var keys := TableKeys(Now(), h);
      assert |keys| + |keys| / 2 <= HashTable.MAX_BUCKETS;
      var vals := if v.typ == MAP_VALUE_VALUE then Some(maps[v.data].values) else None;
      var empty := CreateEmptySlot();
      ghost var s1 := Now();
      GrownKeys(s, s1, keys);
      FilledBySlot(s, s1, h);
      hide IsTable, TableKeys, TablesFit;
      var hv, hs, ks, vs;
      ghost var slots, pos;
      r, hv, hs, ks, vs, slots, pos := LayOut(keys, vals, empty, hash, cmp);
      SameOutcome(s, s1, keys, hash, cmp, r);
      if r == TableDone {
        Transfer(h, hs, ks, vs, empty);
        TablePopulated(s, s1, Now(), h, hv, hs, ks, vs, slots, pos, empty, ns, nm);
        TableLaidOut(s, s1, Now(), hash, h, hs, ks, vs, slots, pos, empty);
      }
    }

    /** Lays out the sets among the first n values; stops at the first one with an unacceptable key. */
    method CreateSets(ghost s: State, n: nat, hash: int -> u32, cmp: Comparator) returns (r: TableResult)
      requires n == |s.values| && Good(s) && TablesFit(s)
      requires SameButTables(s, Now(), n) && (values != s.values ==> emptySlot != NO_HANDLE)
      requires Good(Now()) && MadeUpTo(Now(), 0, 0) && Caches(Now(), emptySlot, EMPTY_VALUE) && SlotFits() && TablesFit(Now()) && SamePublicShapes(s, Now())
      modifies this`values, this`priv, this`emptySlot
      ensures Caches(Now(), emptySlot, EMPTY_VALUE) && SlotFits() && SameButTables(s, Now(), n) && (values != s.values ==> emptySlot != NO_HANDLE)
      ensures Good(Now()) && TablesFit(Now()) && SamePublicShapes(s, Now())
      ensures r == TableDone ==> MadeUpTo(Now(), n, 0) && LaidOutUpTo(Now(), hash, SetTable, n)
      ensures r == TableDone <==> AllLaidOut(s, SetTable, n, hash, cmp)
    {
      hide Good, MadeUpTo, TableOutcome, TablesFit, SamePublicShapes, FilledAt, LaidOutUpTo, LaidOut;
      NothingLaidOut(Now(), hash);
      for h := 0 to n
        invariant SameButTables(s, Now(), n) && |values| >= n && (values != s.values ==> emptySlot != NO_HANDLE)
        invariant Good(Now()) && MadeUpTo(Now(), h, 0) && Caches(Now(), emptySlot, EMPTY_VALUE) && SlotFits() && TablesFit(Now()) && SamePublicShapes(s, Now())
        invariant AllLaidOut(s, SetTable, h, hash, cmp) && LaidOutUpTo(Now(), hash, SetTable, h)
      {
        ghost var before := Now();
        if values[h].typ == SET_VALUE {
          r := CreateTable(h, hash, cmp, h, 0);
          TableStep(s, before, Now(), n, h, hash, cmp, r);
          if r != TableDone {
            return;
          }
          OneMoreLaidOut(before, Now(), hash, SetTable, h);
        } else {
          NotASet(Now(), h, 0);
          NotThatKind(Now(), hash, SetTable, h);
        }
      }
      r := TableDone;
    }

    /** The same for maps. */
    method CreateMaps(ghost s: State, n: nat, hash: int -> u32, cmp: Comparator) returns (r: TableResult)
      requires n == |s.values| && Good(s) && TablesFit(s)
      requires SameButTables(s, Now(), n) && (values != s.values ==> emptySlot != NO_HANDLE)
      requires LaidOutUpTo(Now(), hash, SetTable, n)
      requires Good(Now()) && MadeUpTo(Now(), n, 0) && Caches(Now(), emptySlot, EMPTY_VALUE) && SlotFits() && TablesFit(Now()) && SamePublicShapes(s, Now())
      modifies this`values, this`priv, this`emptySlot
      ensures Caches(Now(), emptySlot, EMPTY_VALUE) && SlotFits() && SameButTables(s, Now(), n) && (values != s.values ==> emptySlot != NO_HANDLE)
      ensures Good(Now()) && TablesFit(Now()) && SamePublicShapes(s, Now())
      ensures r == TableDone ==> MadeUpTo(Now(), n, n) && LaidOutUpTo(Now(), hash, SetTable, n) && LaidOutUpTo(Now(), hash, MapTable, n)
      ensures r == TableDone <==> AllLaidOut(s, MapTable, n, hash, cmp)
    {
      hide Good, MadeUpTo, TableOutcome, TablesFit, SamePublicShapes, FilledAt, LaidOutUpTo, LaidOut;
      NothingLaidOut(Now(), hash);
      for h := 0 to n
        invariant SameButTables(s, Now(), n) && |values| >= n && (values != s.values ==> emptySlot != NO_HANDLE)
        invariant Good(Now()) && MadeUpTo(Now(), n, h) && Caches(Now(), emptySlot, EMPTY_VALUE) && SlotFits() && TablesFit(Now()) && SamePublicShapes(s, Now())
        invariant AllLaidOut(s, MapTable, h, hash, cmp) && LaidOutUpTo(Now(), hash, SetTable, n) && LaidOutUpTo(Now(), hash, MapTable, h)
      {
        ghost var before := Now();
        if values[h].typ == MAP_VALUE_VALUE {
          r := CreateTable(h, hash, cmp, n, h);
          TableStep(s, before, Now(), n, h, hash, cmp, r);
          if r != TableDone {
            return;
          }
          OneMoreLaidOut(before, Now(), hash, MapTable, h);
          OthersStayLaidOut(before, Now(), hash, SetTable, h, n);
        } else {
          NotAMap(Now(), n, h);
          NotThatKind(Now(), hash, MapTable, h);
        }
      }
      r := TableDone;
    }

    /** One table after the other, sets first: stops at the first table with an unacceptable key. */
    method CreateTables(n: nat, hash: int -> u32, cmp: Comparator) returns (r: TableResult)
      requires n == |values| && Good(Now()) && MadeUpTo(Now(), 0, 0) && Caches(Now(), emptySlot, EMPTY_VALUE) && SlotFits() && TablesFit(Now())
      modifies this`values, this`priv, this`emptySlot
      ensures Caches(Now(), emptySlot, EMPTY_VALUE) && SameButTables(old(Now()), Now(), n)
      ensures r == TableDone <==> AllLaidOut(old(Now()), SetTable, n, hash, cmp) && AllLaidOut(old(Now()), MapTable, n, hash, cmp)
      ensures r == TableDone ==> Good(Now()) && TablesMade(Now()) && SamePublicShapes(old(Now()), Now()) && AllTablesLaidOut(Now(), hash)
    {
      ghost var s := Now();
      SamePublicRefl(s);
      hide Good, MadeUpTo, TablesFit, SamePublicShapes, AllLaidOut, TablesMade, LaidOutUpTo, AllTablesLaidOut;
      r := CreateSets(s, n, hash, cmp);
      if r == TableDone {
        r := CreateMaps(s, n, hash, cmp);
      }
      if r == TableDone {
        TablesComplete(s, Now(), n);
        BothKindsLaidOut(s, Now(), n, hash);
      }
    }

    // ---- preparing the state for output ----

    /**
      Gives the vectors that have items, and the sets and maps, the data words they are written under. Empty
      vectors become inline values, but for those of sets and maps, which are filled later.
     */
    method Renumber(n: nat)
      requires n == |values| && Good(Now()) && Unprepared(Now())
      modifies this`values, this`priv
      ensures RenumberedTo(old(Now()), values, priv, n) && |values| == n
    {
      ghost var s := Now();
      var newPriv: seq<seq<int>> := [];
      var nSets, nMaps := 0, 0;
      hide Good, GoodValue, Numbered, RenumberedTo, RenumberedValue;
      RenumberStart(s);
      for i := 0 to n
        invariant |values| == n && priv == s.priv && nSets <= i && nMaps <= i
        invariant RenumberedTo(s, values, newPriv, i) && values[i..] == s.values[i..]
        invariant nSets == Rank(s.values, SetTable, i) && nMaps == Rank(s.values, MapTable, i)
      {
        ghost var before, newPrivBefore := values, newPriv;
        var v := values[i];
        assert v == s.values[i..][0] == s.values[i];
        RenumberFacts(s, values, newPriv, i);
        if IsHeapVector(v.typ) {
          if !v.outside {
            if priv[v.data] == [] && !v.setMap {
              values := values[i := v.(typ := VECTOR_EMPTY, data := 0)];
            } else {
              values := values[i := v.(data := |newPriv|)];
              newPriv := newPriv + [priv[v.data]];
            }
          }
        } else if v.typ == SET_VALUE {
          values := values[i := v.(data := nSets)];
          nSets := nSets + 1;
        } else if v.typ == MAP_VALUE_VALUE {
          values := values[i := v.(data := nMaps)];
          nMaps := nMaps + 1;
        }
        RenumberedAt(s, before, newPrivBefore, i, values, newPriv);
        RenumberStep(s, before, newPrivBefore, i, values, newPriv);
        assert values[i + 1..] == before[i..][1..];
      }
      priv := newPriv;
    }

    /** Private value vectors that are not on a cycle are hashable. */
    method MarkHashable(n: nat, cyclic: set<int>)
      requires n == |values|
      modifies this`values
      ensures MarkedTo(old(Now()), Now())
      ensures forall h :: 0 <= h < n && h !in cyclic && old(values)[h].typ == VECTOR_VALUE && !old(values)[h].outside ==> values[h].typ == VECTOR_VALUE_HASHABLE
      ensures forall h :: 0 <= h < n && h in cyclic ==> values[h] == old(values)[h]
    {
      ghost var s := Now();
      for i := 0 to n
        invariant |values| == n && values[i..] == s.values[i..]
        invariant forall h :: 0 <= h < i ==> MarkedValue(s.values[h], values[h])
        invariant forall h :: 0 <= h < i && h !in cyclic && s.values[h].typ == VECTOR_VALUE && !s.values[h].outside ==> values[h].typ == VECTOR_VALUE_HASHABLE
        invariant forall h :: 0 <= h < i && h in cyclic ==> values[h] == s.values[h]
      {
        var v := values[i];
        assert v == s.values[i..][0] == s.values[i];
        if v.typ == VECTOR_VALUE && !v.outside {
          if i !in cyclic {
            values := values[i := v.(typ := VECTOR_VALUE_HASHABLE)];
          }
        }
      }
    }

    /** Gives every value vector of numbers the narrowest type that holds them; a caller never sees the difference. */
    method Compress(n: nat)
      requires n == |values| && Good(Now()) && NoEmptyVectors(Now())
      modifies this`values
      ensures CompressedTo(old(Now()), Now())
      ensures forall h :: 0 <= h < n ==> CompressionChosen(old(Now()), h, values[h].typ)
    {
      ghost var s := Now();
      hide Good, Numbered, CompressionIs, CompressesTo, AllCompressTo;
      for i := 0 to n
        invariant |values| == n && values[i..] == s.values[i..]
        invariant forall h :: 0 <= h < i ==> CompressedValue(s, h, values[h]) && CompressionChosen(s, h, values[h].typ)
      {
        var v := values[i];
        assert v == s.values[i..][0] == s.values[i];
        if IsValueVector(v.typ) {
          CompressFacts(s, i);
          if !v.outside && !v.setMap {
            var t := VectorCompression(Now(), priv[v.data], v.typ);
            CompressChosen(s, Now(), i, t);
            v := v.(typ := t);
            if t != VECTOR_VALUE && t != VECTOR_VALUE_HASHABLE {
              v := v.(compressed := true);
            }
            values := values[i := v];
          }
        }
      }
    }

    // ---- output ----

    /** Everything up to writing: p is the state that decides whether the tables can be laid out. */
    method PrepareForOutput(n: nat, cyclic: set<int>, hash: int -> u32, cmp: Comparator) returns (r: TableResult, ghost p: State)
      requires n == |values| && Good(Now()) && Unprepared(Now()) && Caches(Now(), emptySlot, EMPTY_VALUE) && SlotFits() && TablesFit(Now())
      requires forall h :: h in cyclic && IsHandle(Now(), h) ==> !values[h].setMap
      modifies this`values, this`priv, this`emptySlot
      ensures SamePublicShapes(old(Now()), p)
      ensures r == TableDone <==> TablesLayOut(p, hash, cmp)
      ensures r == TableDone ==> Good(Now()) && TablesMade(Now()) && SamePublicShapes(old(Now()), Now()) && AllTablesLaidOut(Now(), hash) && KeysMarked(Now())
    {
      ghost var s := Now();
      hide Good, Unprepared, NoEmptyVectors, SameShapes, SamePublicShapes, RenumberedTo, MarkedTo, CompressedTo;
      hide TablesMade, MadeUpTo, TablesFit, AllLaidOut, CompressionChosen, AllTablesLaidOut, KeysMarked, SameButTables;
      Renumber(n);
      ghost var s1 := Now();
      RenumberingKeeps(s, values, priv);
      MarkHashable(n, cyclic);
      ghost var s2 := Now();
      MarkingKeeps(s1, s2);
      Compress(n);
      p := Now();
      CompressingKeeps(s2, p);
      PassesKeep(s, s1, s2, p);
      PassesMark(s, s1, s2, p, cyclic);
      r := CreateTables(n, hash, cmp);
      MarksStay(p, Now(), n);
      if r == TableDone {
        SamePublicTransitive(s, p, Now());
      }
    }

    /**
      Turns the create-state into a buffer. Reading the buffer gives back the root, to every depth, as it was
      before the first pass.
     */
    method CreateOutput(cyclic: set<int>, hash: int -> u32, cmp: Comparator) returns (r: OutputResult, out: bytes, ghost p: State)
      requires Valid() && SlotFits() && TablesFit(Now())
      requires forall h :: h in cyclic && IsHandle(Now(), h) ==> !values[h].setMap
      modifies this`values, this`priv, this`emptySlot
      ensures r == UnsupportedVersion <==> version != VERSION_64_NEWHASH
      ensures r == NoRoot <==> version == VERSION_64_NEWHASH && root == NO_HANDLE
      ensures SamePublicShapes(old(Now()), p)
      ensures r == Written <==> version == VERSION_64_NEWHASH && root != NO_HANDLE && TablesLayOut(p, hash, cmp)
      ensures r == Written ==> ReadsBack(old(Now()), Now(), root, out) && TablesMade(Now()) && AllTablesLaidOut(Now(), hash) && KeysMarked(Now())
    {
      ghost var s := Now();
      p := s;
      out := [];
      SamePublicRefl(s);
      if version != VERSION_64_NEWHASH {
        return UnsupportedVersion, out, p;
      }
      if root == NO_HANDLE {
        return NoRoot, out, p;
      }
      var n := |values|;
      hide Good, Unprepared, SamePublicShapes, TablesMade, TablesFit, TablesLayOut, Sized, ReadsBack, Serialized, AllTablesLaidOut, KeysMarked;
      var t;
      t, p := PrepareForOutput(n, cyclic, hash, cmp);
      if t != TableDone {
        return Refused(t), out, p;
      }
      RootStaysPublic(s, Now(), root);
      out := WriteBuffer(Now(), root, |values|);
      r := Written;
      OutputReadsBack(s, Now(), root, out);
    }
  }

  lemma CachesKept(s: State, t: State, u32s: seq<int>, i32s: seq<int>, texts: map<bytes, int>, bits: map<bytes, int>)
    requires t.values == s.values && t.texts == s.texts && t.bitvectors == s.bitvectors
    ensures NumbersCached(s, u32s, i32s) ==> NumbersCached(t, u32s, i32s)
    ensures BitsInterned(s, bits) ==> BitsInterned(t, bits)
    ensures TextsInterned(s, texts) ==> TextsInterned(t, texts)
    ensures forall h, v :: Caches(s, h, v) ==> Caches(t, h, v)
  {
    GrowingKeepsCaches(s, t, u32s, i32s, bits);
    hide TextsInterned;
    if TextsInterned(s, texts) { GrowingKeepsTexts(s, t, texts); }
  }

  /** Adding a value that is no string or bitvector leaves the caches and the root right. */
  lemma CachesStay(s: State, t: State, root: int, u32s: seq<int>, i32s: seq<int>, texts: map<bytes, int>, bits: map<bytes, int>)
    requires t.texts == s.texts && t.bitvectors == s.bitvectors && |t.values| == |s.values| + 1 && s.values <= t.values
    requires KindOf(t.values[|s.values|]) != TextBuffer
    ensures NumbersCached(s, u32s, i32s) ==> NumbersCached(t, u32s, i32s)
    ensures BitsInterned(s, bits) ==> BitsInterned(t, bits)
    ensures TextsInterned(s, texts) ==> TextsInterned(t, texts)
    ensures forall h, v :: Caches(s, h, v) ==> Caches(t, h, v)
    ensures SamePublicShapes(s, t) && IsPublic(s, root) ==> IsPublic(t, root)
  {
    GrowingKeepsCaches(s, t, u32s, i32s, bits);
    hide TextsInterned;
    if TextsInterned(s, texts) { GrowingKeepsTexts(s, t, texts); }
    if SamePublicShapes(s, t) { RootStays(s, t, root); }
  }

  lemma RootKept(s: State, t: State, h: int, root: int)
    requires OthersSame(s, t, h)
    ensures IsPublic(s, root) ==> IsPublic(t, root)
  {
  }

  lemma EmptyVectorShape(typ: u32)
    ensures InlineShape<Node<int>>(VECTOR_EMPTY, 0) == Vector(Numbers(typ, []))
  {
  }

  lemma EmptyShape()
    ensures InlineShape<Node<int>>(EMPTY_SLOT, 0) == Leaf(TEmptySlot)
  {
  }

  lemma BitvectorAdded(s: State, t: State, texts: map<bytes, int>)
    requires TextsInterned(s, texts) && |s.bitvectors| < 0x1_0000_0000 && t.texts == s.texts && t.values == s.values + [Inline(BITVECTOR, |s.bitvectors|)]
    ensures TextsInterned(t, texts)
  {
    hide TextsInterned;
    GrowingKeepsTexts(s, t, texts);
  }

  lemma RootStays(s: State, t: State, root: int)
    requires SamePublicShapes(s, t)
    ensures IsPublic(s, root) ==> IsPublic(t, root)
  {
  }

  lemma ShapeOfNumber(x: u32)
    ensures InlineShape<Node<int>>(U32, x) == Leaf(TInt(x)) && InlineShape<Node<int>>(I32, x) == Leaf(TInt(AsI32(x)))
  {
  }
}

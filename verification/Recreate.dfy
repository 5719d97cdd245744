/**
  Recreating a value of a buffer in a create-state: a copy that visits each container once, so that sharing
  and cycles carry over.
 */
module Recreate {
  import opened Wrappers
  import opened PowersOfTwo
  import opened Bitvector
  import opened Unfolding
  import opened Values
  import opened CreateState
  import opened Tables
  import opened Bytes
  import opened Heap
  import opened Reader
  import opened Building
  import opened Interning
  import opened ReadBack
  import opened RoundTrip
  import opened Copying
  import opened CopyMeaning
  import opened WrittenBuffers
  import opened Validate
  import opened ValidatedSound
  import C = Create

  class Recreator {
    const buf: bytes
    const c: C.Create
    const normalize: bool
    var memo: Memo

    constructor (buf: bytes, c: C.Create)
      ensures this.buf == buf && this.c == c && memo == map[] && normalize
    {
      this.buf, this.c, this.normalize, this.memo := buf, c, true, map[];
    }

    /** The copies made so far, while the containers in `open` are being filled. */
    ghost predicate Copying(S: set<RValue>, open: set<int>)
      reads this, c
    {
      && Opens(buf) && Sound(buf, S) && c.Valid() && Copied(buf, S, c.Now(), memo, open)
      && forall g :: g in open ==> g < |c.values|
    }

    /** What a call that returned h did: h is the copy of v, and nothing that was there before has changed. */
    ghost predicate Converted(v: RValue, h: int, was: State, memoWas: Memo)
      reads this, c
      requires Opens(buf)
    {
      Linked(buf, c.Now(), memo, v, h) && Onward(was, memoWas, c.Now(), memo, -1) && was.values <= c.values
    }

    /**
      The create-time handle of v: the one it has already, or that of a new value. Fails only when the handles
      run out.
     */
    method Convert(v: RValue, ghost S: set<RValue>, ghost open: set<int>) returns (h: int)
      requires Copying(S, open) && v in S
      modifies this`memo, c`values, c`priv, c`outside, c`sets, c`maps, c`texts, c`bitvectors, c`u32s, c`i32s
      modifies c`nullHandle, c`emptySlot, c`trueHandle, c`falseHandle, c`textTable, c`bitsTable
      ensures c.Valid() && (h == NO_HANDLE ==> !c.Room(4))
      ensures h != NO_HANDLE ==> Copying(S, open) && Converted(v, h, old(c.Now()), old(memo))
      decreases |Uncopied(S, memo)|, 1
    {
      hide Sound, Copied, Linked, Onward, CShape, Uncopied, C.Create.Valid, ValueShape;
      LeafIsSound(buf, S, v);
      if PlaceOf(v).Some? && PlaceOf(v).value in memo {
        FoundLinked(buf, S, c.Now(), memo, open, v);
        return memo[PlaceOf(v).value];
      }
      if |c.values| + 4 >= 0xFFFF_FFFF {
        return NO_HANDLE;
      }
      if IsValueVector(v.typ) {
        h := ConvertVector(v, S, open);
      } else if IsNumberVector(v.typ) {
        h := ConvertNumbers(v, S, open);
      } else if IsText(v.typ) {
        h := ConvertText(v, S, open);
      } else if v.typ == BITVECTOR {
        h := ConvertBits(v, S, open);
      } else if v.typ == SET_VALUE {
        h := ConvertSet(v, S, open);
      } else if v.typ == MAP_VALUE_VALUE {
        h := ConvertMap(v, S, open);
      } else {
        h := ConvertInline(v, S, open);
      }
    }

    method ConvertInline(v: RValue, ghost S: set<RValue>, ghost open: set<int>) returns (h: int)
      requires Copying(S, open) && v in S && InlineSound(v) && c.Room(4)
      modifies this`memo, c`values, c`priv, c`outside, c`sets, c`maps, c`texts, c`bitvectors, c`u32s, c`i32s
      modifies c`nullHandle, c`emptySlot, c`trueHandle, c`falseHandle, c`textTable, c`bitsTable
      ensures h != NO_HANDLE && c.Valid() && Copying(S, open) && Converted(v, h, old(c.Now()), old(memo))
    {
      hide Sound, Copied, Linked, Onward, CShape, SamePublicShapes, C.Create.Valid, Decode, UnderConstruction, NumbersCached, TextsInterned, BitsInterned;
      if v.typ == I32 || v.typ == U32 || v.typ == FLOAT || v.typ == BOOLEAN {
        h := ConvertNumber(v, S, open);
        return;
      }
      ghost var s := c.Now();
      if v.typ == VECTOR_EMPTY {
        h := c.CreateVector(VECTOR_VALUE);
      } else if v.typ == NULL {
        h := c.CreateNull();
      } else if v.typ == EMPTY_SLOT {
        c.ValidIsUnderConstruction();
        h := c.CreateEmptySlot();
      } else {
        h := c.Push(Inline(v.typ, v.data));
      }
      InlineLinked(buf, S, s, memo, c.Now(), open, v, h);
    }

    /** A number or truth value, of the type it has in the buffer. */
    method ConvertNumber(v: RValue, ghost S: set<RValue>, ghost open: set<int>) returns (h: int)
      requires Copying(S, open) && v in S && InlineSound(v) && c.Room(4) && (v.typ == I32 || v.typ == U32 || v.typ == FLOAT || v.typ == BOOLEAN)
      modifies c`values, c`u32s, c`i32s, c`trueHandle, c`falseHandle
      ensures h != NO_HANDLE && c.Valid() && Copying(S, open) && Converted(v, h, old(c.Now()), old(memo))
    {
      hide Sound, Copied, Linked, Onward, CShape, SamePublicShapes, C.Create.Valid, Decode, UnderConstruction, NumbersCached, TextsInterned, BitsInterned;
      ghost var s := c.Now();
      if v.typ == I32 {
        h := c.CreateI32(AsI32(v.data));
      } else if v.typ == U32 {
        h := c.CreateU32(v.data);
      } else if v.typ == FLOAT {
        h := c.CreateFloat(v.data);
      } else if v.data == 1 {
        h := c.CreateTrue();
      } else {
        h := c.CreateFalse();
      }
      InlineLinked(buf, S, s, memo, c.Now(), open, v, h);
    }

    method ConvertNumbers(v: RValue, ghost S: set<RValue>, ghost open: set<int>) returns (h: int)
      requires Copying(S, open) && v in S && IsNumberVector(v.typ) && PlaceOf(v).value !in memo && c.Room(4)
      modifies this`memo, c`values, c`priv, c`outside, c`sets, c`maps, c`texts, c`bitvectors, c`u32s, c`i32s
      modifies c`nullHandle, c`emptySlot, c`trueHandle, c`falseHandle, c`textTable, c`bitsTable
      ensures h != NO_HANDLE && c.Valid() && Copying(S, open) && Converted(v, h, old(c.Now()), old(memo))
    {
      hide Sound, Copied, Linked, Onward, Complete, CShape, SamePublicShapes, C.Create.Valid, ValueShape, Fits, Numbers;
      ghost var s := c.Now();
      NumberVectorIsSound(buf, S, v);
      h := c.CreateOutsideVector(v.typ, Xs(ValueShape(buf, v).items));
      NumbersComplete(buf, S, c.Now(), v, h);
      Entered(buf, S, s, memo, c.Now(), open, v, PlaceOf(v).value, h);
      memo := memo[PlaceOf(v).value := h];
      EnteredLinked(buf, c.Now(), memo, v, h);
    }

    method ConvertText(v: RValue, ghost S: set<RValue>, ghost open: set<int>) returns (h: int)
      requires Copying(S, open) && v in S && IsText(v.typ) && PlaceOf(v).value !in memo && c.Room(4)
      modifies this`memo, c`values, c`priv, c`outside, c`sets, c`maps, c`texts, c`bitvectors, c`u32s, c`i32s
      modifies c`nullHandle, c`emptySlot, c`trueHandle, c`falseHandle, c`textTable, c`bitsTable
      ensures h != NO_HANDLE && c.Valid() && Copying(S, open) && Converted(v, h, old(c.Now()), old(memo))
    {
      ghost var s := c.Now();
      hide Sound, Copied, Linked, Onward, CShape, SamePublicShapes, C.Create.Valid, ValueShape, UnderConstruction, ValidText, Complete, TextBytes;
      hide HasText, IsText, PlaceOf;
      TextIsSound(buf, S, v);
      h := c.CreateText(ValueShape(buf, v).tree.text);
      LeafComplete(buf, c.Now(), v, h);
      Entered(buf, S, s, memo, c.Now(), open, v, PlaceOf(v).value, h);
      memo := memo[PlaceOf(v).value := h];
      EnteredLinked(buf, c.Now(), memo, v, h);
    }

    method ConvertBits(v: RValue, ghost S: set<RValue>, ghost open: set<int>) returns (h: int)
      requires Copying(S, open) && v in S && v.typ == BITVECTOR && PlaceOf(v).value !in memo && c.Room(4)
      modifies this`memo, c`values, c`priv, c`outside, c`sets, c`maps, c`texts, c`bitvectors, c`u32s, c`i32s
      modifies c`nullHandle, c`emptySlot, c`trueHandle, c`falseHandle, c`textTable, c`bitsTable
      ensures h != NO_HANDLE && c.Valid() && Copying(S, open) && Converted(v, h, old(c.Now()), old(memo))
    {
      ghost var s := c.Now();
      hide Sound, Copied, Linked, Onward, CShape, SamePublicShapes, C.Create.Valid, ValueShape, BitvectorAt, ObjectAt, RawBits, ValidBits, Complete;
      hide PlaceOf, BitsOf;
      BitsAreSound(buf, S, v);
      var b := BitsOf(buf, v);
      h := c.CreateBitvector(b, normalize);
      LeafComplete(buf, c.Now(), v, h);
      Entered(buf, S, s, memo, c.Now(), open, v, PlaceOf(v).value, h);
      memo := memo[PlaceOf(v).value := h];
      EnteredLinked(buf, c.Now(), memo, v, h);
    }

    method ConvertVector(v: RValue, ghost S: set<RValue>, ghost open: set<int>) returns (h: int)
      requires Copying(S, open) && v in S && IsValueVector(v.typ) && PlaceOf(v).value !in memo && c.Room(4)
      modifies this`memo, c`values, c`priv, c`outside, c`sets, c`maps, c`texts, c`bitvectors, c`u32s, c`i32s
      modifies c`nullHandle, c`emptySlot, c`trueHandle, c`falseHandle, c`textTable, c`bitsTable
      ensures c.Valid() && (h == NO_HANDLE ==> !c.Room(4))
      ensures h != NO_HANDLE ==> Copying(S, open) && Converted(v, h, old(c.Now()), old(memo))
      decreases |Uncopied(S, memo)|, 0
    {
      hide Sound, Copied, Linked, Onward, Complete, CShape, SamePublicShapes, AllLinked, Uncopied, OthersSame, UnderConstruction;
      hide NotContainer, IsOwnVector, C.Create.Valid, ValueShape, LinkedNode;
      VectorIsSound(buf, S, v);
      var items := ValueShape(buf, v).items;
      ghost var s0, m0 := c.Now(), memo;
      h := c.CreateVector(VECTOR_VALUE);
      memo := memo[PlaceOf(v).value := h];
      ghost var s1, m1 := c.Now(), memo;
      Opened(buf, S, s0, m0, s1, open, PlaceOf(v).value, h);
      ghost var ys: seq<Node<int>> := [];
      NothingLinked(buf, s1, m1);
      OnwardStart(s1, m1, h);
      for i := 0 to |items|
        invariant Copying(S, open + {h}) && Onward(s1, m1, c.Now(), memo, h) && s1.values <= c.values
        invariant CShape(c.Now(), Ref(h)) == Vector(ys) && AllLinked(buf, c.Now(), memo, items[..i], ys)
        invariant PlaceOf(v).value in memo && memo[PlaceOf(v).value] == h && IsPublic(c.Now(), h)
      {
        ghost var s, m := c.Now(), memo;
        StillUncopied(S, m0, s1, m1, s, m, h, v);
        var child := Convert(items[i].v, S, open + {h});
        if child == NO_HANDLE {
          return NO_HANDLE;
        }
        ghost var s', m' := c.Now(), memo;
        StillFilling(buf, s, m, s', m', h, PlaceOf(v).value, items[..i], ys);
        c.ValidIsUnderConstruction();
        OwnVectorStays(s1, s', h);
        LinkedIsPublic(buf, s', m', items[i].v, child);
        var r := c.AppendValue(h, child);
        ItemLinked(buf, S, s', m', c.Now(), open + {h}, h, items[..i], ys, items[i], Ref(child));
        ys := ys + [Ref(child)];
        OneMore(items, i);
        OnwardTwice(s1, m1, s, m, s', m', h);
        OnwardTwice(s1, m1, s', m', c.Now(), memo, h);
      }
      assert items[..|items|] == items;
      VectorDone(buf, S, c.Now(), memo, open, v, h, ys);
      OnwardTwice(s0, m0, s1, m1, c.Now(), memo, h);
      OnwardFromOld(s0, m0, c.Now(), memo, h);
    }

    method ConvertSet(v: RValue, ghost S: set<RValue>, ghost open: set<int>) returns (h: int)
      requires Copying(S, open) && v in S && v.typ == SET_VALUE && PlaceOf(v).value !in memo && c.Room(4)
      modifies this`memo, c`values, c`priv, c`outside, c`sets, c`maps, c`texts, c`bitvectors, c`u32s, c`i32s
      modifies c`nullHandle, c`emptySlot, c`trueHandle, c`falseHandle, c`textTable, c`bitsTable
      ensures c.Valid() && (h == NO_HANDLE ==> !c.Room(4))
      ensures h != NO_HANDLE ==> Copying(S, open) && Converted(v, h, old(c.Now()), old(memo))
      decreases |Uncopied(S, memo)|, 0
    {
      hide Sound, Copied, Linked, Onward, Complete, CShape, SamePublicShapes, AllLinked, Uncopied, OthersSame, UnderConstruction;
      hide NotContainer, IsOwnVector, C.Create.Valid, ValueShape, LinkedNode, AllRefsIn;
      SetIsSound(buf, S, v);
      var keys := ValueShape(buf, v).keys;
      ghost var s0, m0 := c.Now(), memo;
      h := c.CreateSet();
      memo := memo[PlaceOf(v).value := h];
      ghost var s1, m1 := c.Now(), memo;
      Opened(buf, S, s0, m0, s1, open, PlaceOf(v).value, h);
      ghost var ys: seq<Node<int>> := [];
      NothingLinked(buf, s1, m1);
      OnwardStart(s1, m1, h);
      for i := 0 to |keys|
        invariant Copying(S, open + {h}) && Onward(s1, m1, c.Now(), memo, h) && s1.values <= c.values
        invariant CShape(c.Now(), Ref(h)) == SetOf(ys) && AllLinked(buf, c.Now(), memo, keys[..i], ys)
        invariant PlaceOf(v).value in memo && memo[PlaceOf(v).value] == h && IsPublic(c.Now(), h)
      {
        ghost var s, m := c.Now(), memo;
        StillUncopied(S, m0, s1, m1, s, m, h, v);
        RefIn(S, keys, i);
        var key := Convert(keys[i].v, S, open + {h});
        if key == NO_HANDLE {
          return NO_HANDLE;
        }
        ghost var s', m' := c.Now(), memo;
        StillFilling(buf, s, m, s', m', h, PlaceOf(v).value, keys[..i], ys);
        LinkedIsPublic(buf, s', m', keys[i].v, key);
        c.SetAdd(h, key);
        ItemLinked(buf, S, s', m', c.Now(), open + {h}, h, keys[..i], ys, keys[i], Ref(key));
        ys := ys + [Ref(key)];
        OneMore(keys, i);
        OnwardTwice(s1, m1, s, m, s', m', h);
        OnwardTwice(s1, m1, s', m', c.Now(), memo, h);
      }
      assert keys[..|keys|] == keys;
      SetDone(buf, S, c.Now(), memo, open, v, h, ys);
      OnwardTwice(s0, m0, s1, m1, c.Now(), memo, h);
      OnwardFromOld(s0, m0, c.Now(), memo, h);
    }

    method ConvertMap(v: RValue, ghost S: set<RValue>, ghost open: set<int>) returns (h: int)
      requires Copying(S, open) && v in S && v.typ == MAP_VALUE_VALUE && PlaceOf(v).value !in memo && c.Room(4)
      modifies this`memo, c`values, c`priv, c`outside, c`sets, c`maps, c`texts, c`bitvectors, c`u32s, c`i32s
      modifies c`nullHandle, c`emptySlot, c`trueHandle, c`falseHandle, c`textTable, c`bitsTable
      ensures c.Valid() && (h == NO_HANDLE ==> !c.Room(4))
      ensures h != NO_HANDLE ==> Copying(S, open) && Converted(v, h, old(c.Now()), old(memo))
      decreases |Uncopied(S, memo)|, 0
    {
      hide Sound, Copied, Linked, Onward, Complete, CShape, SamePublicShapes, AllLinked, Uncopied, OthersSame, UnderConstruction;
      hide NotContainer, IsOwnVector, C.Create.Valid, ValueShape, LinkedNode, AllRefsIn;
      MapIsSound(buf, S, v);
      var keys, values := ValueShape(buf, v).keys, ValueShape(buf, v).values;
      ghost var s0, m0 := c.Now(), memo;
      h := c.CreateMap();
      memo := memo[PlaceOf(v).value := h];
      ghost var s1, m1 := c.Now(), memo;
      Opened(buf, S, s0, m0, s1, open, PlaceOf(v).value, h);
      ghost var ks: seq<Node<int>>, vs: seq<Node<int>> := [], [];
      NothingLinked(buf, s1, m1);
      OnwardStart(s1, m1, h);
      for i := 0 to |keys|
        invariant Copying(S, open + {h}) && Onward(s1, m1, c.Now(), memo, h) && s1.values <= c.values
        invariant CShape(c.Now(), Ref(h)) == MapOf(ks, vs)
        invariant AllLinked(buf, c.Now(), memo, keys[..i], ks) && AllLinked(buf, c.Now(), memo, values[..i], vs)
        invariant PlaceOf(v).value in memo && memo[PlaceOf(v).value] == h && IsPublic(c.Now(), h)
      {
        ghost var s, m := c.Now(), memo;
        StillUncopied(S, m0, s1, m1, s, m, h, v);
        RefIn(S, keys, i);
        RefIn(S, values, i);
        var key := Convert(keys[i].v, S, open + {h});
        if key == NO_HANDLE {
          return NO_HANDLE;
        }
        ghost var s', m' := c.Now(), memo;
        StillFilling(buf, s, m, s', m', h, PlaceOf(v).value, keys[..i], ks);
        StillFilling(buf, s, m, s', m', h, PlaceOf(v).value, values[..i], vs);
        OnwardTwice(s1, m1, s, m, s', m', h);
        StillUncopied(S, m0, s1, m1, s', m', h, v);
        var value := Convert(values[i].v, S, open + {h});
        if value == NO_HANDLE {
          return NO_HANDLE;
        }
        ghost var s'', m'' := c.Now(), memo;
        StillFilling(buf, s', m', s'', m'', h, PlaceOf(v).value, keys[..i], ks);
        StillFilling(buf, s', m', s'', m'', h, PlaceOf(v).value, values[..i], vs);
        LinkGoesOn(buf, s', m', s'', m'', keys[i].v, key);
        OnwardTwice(s1, m1, s', m', s'', m'', h);
        LinkedIsPublic(buf, s'', m'', keys[i].v, key);
        LinkedIsPublic(buf, s'', m'', values[i].v, value);
        c.MapAdd(h, key, value);
        ItemLinked(buf, S, s'', m'', c.Now(), open + {h}, h, keys[..i], ks, keys[i], Ref(key));
        ItemLinked(buf, S, s'', m'', c.Now(), open + {h}, h, values[..i], vs, values[i], Ref(value));
        ks, vs := ks + [Ref(key)], vs + [Ref(value)];
        OneMore(keys, i);
        OneMore(values, i);
        OnwardTwice(s1, m1, s'', m'', c.Now(), memo, h);
      }
      assert keys[..|keys|] == keys && values[..|keys|] == values;
      MapDone(buf, S, c.Now(), memo, open, v, h, ks, vs);
      OnwardTwice(s0, m0, s1, m1, c.Now(), memo, h);
      OnwardFromOld(s0, m0, c.Now(), memo, h);
    }
  }

  /**
    Recreates value v of a buffer. Fails only when the handles run out. The copy unfolds like v whenever one
    copy can serve all values at each place that was copied.
   */
  method RecreateValue(buf: bytes, v: RValue, c: C.Create, ghost S: set<RValue>) returns (h: int, ghost memo: Memo)
    requires Opens(buf) && Sound(buf, S) && v in S && c.Valid()
    modifies c
    ensures c.Valid() && (h == NO_HANDLE ==> !c.Room(4)) && c.root == old(c.root) && c.version == old(c.version)
    ensures h != NO_HANDLE ==> Copied(buf, S, c.Now(), memo, {}) && Linked(buf, c.Now(), memo, v, h) && SamePublicShapes(old(c.Now()), c.Now())
    ensures h != NO_HANDLE && AllAlike(buf, S, memo) ==> UnfoldsAs(buf, c.Now(), v, h)
  {
    hide Sound, Copied, Linked, Onward, AllAlike, UnfoldsAs, CopiesUnfoldAlike, SamePublicShapes, C.Create.Valid;
    ghost var s := c.Now();
    var r := new Recreator(buf, c);
    NothingCopied(buf, S, s);
    h := r.Convert(v, S, {});
    memo := r.memo;
    if h != NO_HANDLE {
      OnwardIsSame(s, map[], c.Now(), memo);
      CopyUnfoldsAlike(buf, S, c.Now(), memo, v, h);
    }
  }

  /**
    Validates what can be reached from the root of a buffer, and recreates it. Validation is enough for the
    copy to go through.
   */
  method RecreateRoot(buf: bytes, c: C.Create) returns (error: Verdict, h: int, ghost memo: Memo, ghost S: set<RValue>)
    requires Opens(buf) && c.Valid()
    requires forall r :: ReachableFrom(buf, Root(buf), r) && Passes(buf, r) ==> EvenMap(buf, r)
    modifies c
    ensures c.Valid() && Justified(buf, Root(buf), error) && (error != NoError ==> h == NO_HANDLE)
    ensures error == NoError && h == NO_HANDLE ==> !c.Room(4)
    ensures h != NO_HANDLE ==> Root(buf) in S && Copied(buf, S, c.Now(), memo, {}) && Linked(buf, c.Now(), memo, Root(buf), h)
    ensures h != NO_HANDLE && AllAlike(buf, S, memo) ==> UnfoldsAs(buf, c.Now(), Root(buf), h)
  {
    hide Sound, Copied, Linked, AllAlike, UnfoldsAs, SamePublicShapes, C.Create.Valid, Passes, Justified, EvenMap, Root;
    h, memo := NO_HANDLE, map[];
    ghost var expanded;
    error, S, expanded := ValidatePass1(buf);
    if error == NoError {
      RootReachable(buf);
      PassedIsSound(buf, S);
      h, memo := RecreateValue(buf, Root(buf), c, S);
    }
  }

  lemma RootReachable(buf: bytes)
    requires Opens(buf)
    ensures ReachableFrom(buf, Root(buf), Root(buf))
  {
  }

  lemma NothingCopied(buf: bytes, S: set<RValue>, s: State)
    requires Opens(buf)
    ensures Copied(buf, S, s, map[], {})
  {
  }

  lemma OnwardIsSame(s: State, memo: Memo, t: State, memo': Memo)
    requires Onward(s, memo, t, memo', -1)
    ensures SamePublicShapes(s, t)
  {
    hide CShape;
  }

  lemma CopyUnfoldsAlike(buf: bytes, S: set<RValue>, s: State, memo: Memo, v: RValue, h: int)
    requires Opens(buf) && Sound(buf, S) && v in S && Copied(buf, S, s, memo, {}) && Linked(buf, s, memo, v, h)
    ensures AllAlike(buf, S, memo) ==> UnfoldsAs(buf, s, v, h)
  {
    hide Sound, Copied, Linked, AllAlike, UnfoldsAs;
    CopiesUnfoldAlikeIff(buf, S, s, memo);
  }

  /** Sharing carries over: two values have one copy exactly when they are at one place. */
  lemma SharingCarriesOver(buf: bytes, S: set<RValue>, s: State, memo: Memo, r: RValue, h: int, r': RValue, h': int)
    requires Opens(buf) && Copied(buf, S, s, memo, {}) && Linked(buf, s, memo, r, h) && Linked(buf, s, memo, r', h')
    requires PlaceOf(r).Some? && IsContainer(PlaceOf(r).value) && PlaceOf(r').Some? && IsContainer(PlaceOf(r').value)
    ensures h == h' <==> PlaceOf(r) == PlaceOf(r')
  {
    hide CompleteAt, CShape;
  }

  /** Writing a create-state, reading it and recreating its root: the copy means what the root meant. */
  lemma RecreateWritten(t: State, root: int, s: State, memo: Memo, h: int, d: nat)
    requires Writable(t) && IsPublic(t, root)
    requires Opens(Serialized(t, root))
    requires Copied(Serialized(t, root), WrittenValues(t), s, memo, {}) && Linked(Serialized(t, root), s, memo, ToRead(t, root), h)
    ensures CUnfold(s, h, d) == CUnfold(t, root, d)
  {
    var buf := Serialized(t, root);
    hide Copied, Linked, Sound, AllAlike, Opens, WrittenValues, OneTypePerPlace, CUnfold;
    WrittenIsSound(t, root);
    WrittenOneType(t);
    OneTypeAlike(buf, WrittenValues(t), memo);
    CopyUnfoldsAlike(buf, WrittenValues(t), s, memo, ToRead(t, root), h);
    RootIsWritten(t, root);
    SerializeThenRead(t, root, d);
    hide Writable, Serialized, Root, RGraph, ToRead;
    assert UnfoldsAs(buf, s, ToRead(t, root), h);
    assert Unfold(RGraph(buf), Ref(ToRead(t, root)), d) == CUnfold(s, h, d);
  }

  lemma RootIsWritten(t: State, root: int)
    requires Writable(t) && IsHandle(t, root)
    ensures Opens(Serialized(t, root)) && Root(Serialized(t, root)) == ToRead(t, root)
  {
    HeaderReads(t, root);
  }
}

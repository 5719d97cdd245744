/**
  What it means for values of a buffer to have been copied into a create-state: which places of the buffer
  have a copy, which copies are complete, and when copies unfold like their originals.
 */
module Copying {
  import opened Wrappers
  import opened PowersOfTwo
  import opened Bitvector
  import opened Unfolding
  import opened Values
  import opened CreateState
  import opened Tables
  import opened Bytes
  import opened Heap
  import opened Reader
  import opened Building
  import opened Interning

  // ---- places and memo ----

  /** An entry of one of the offset tables; all vectors share a table, and so do all strings. */
  datatype Place = Place(kind: Kind, index: nat)

  /** Create-time handles of the places that have been copied. */
  type Memo = map<Place, int>

  function PlaceOf(r: RValue): Option<Place> {
    if IsHeapVector(r.typ) then Some(Place(PrivateVector, r.data))
    else if IsText(r.typ) then Some(Place(TextBuffer, r.data))
    else if r.typ == BITVECTOR then Some(Place(BitBuffer, r.data))
    else if r.typ == SET_VALUE then Some(Place(SetTable, r.data))
    else if r.typ == MAP_VALUE_VALUE then Some(Place(MapTable, r.data))
    else None
  }

  predicate IsContainer(p: Place) {
    p.kind == PrivateVector || p.kind == SetTable || p.kind == MapTable
  }

  // ---- sound parts of a buffer ----

  ghost predicate InlineSound(r: RValue) {
    IsInline(r.typ) && r.data < 0x1_0000_0000 && (r.typ == BOOLEAN ==> r.data <= 1) && (r.typ == BITVECTOR_PACKED ==> r.data % 32 <= 27)
  }

  ghost predicate AllIn(S: set<RValue>, ns: seq<RNode>) {
    forall i :: 0 <= i < |ns| ==> if ns[i].Ref? then ns[i].v in S else IsNumberVector(ns[i].t) && Fits(ns[i].t, ns[i].x)
  }

  /** A value that reads without error, with children in S. */
  ghost predicate SoundValue(buf: bytes, S: set<RValue>, r: RValue)
    requires Opens(buf)
  {
    match ValueShape(buf, r)
    case Broken => false
    case Leaf(t) => (IsInline(r.typ) ==> InlineSound(r)) && (t.TText? ==> ValidText(r.typ, t.text))
    case Vector(items) => AllIn(S, items)
    case SetOf(keys) => AllIn(S, keys)
    case MapOf(keys, values) => |keys| == |values| && AllIn(S, keys) && AllIn(S, values)
  }

  /** S is closed under going to children, and all of it reads without error. */
  ghost predicate Sound(buf: bytes, S: set<RValue>)
    requires Opens(buf)
  {
    forall r :: r in S ==> SoundValue(buf, S, r)
  }

  // ---- copies ----

  /** No container has been copied to h. */
  ghost predicate NotContainer(memo: Memo, h: int) {
    forall p :: p in memo && memo[p] == h ==> !IsContainer(p)
  }

  /** h is the copy of r: the memo says so, or r needs no memo and h looks just like it. */
  ghost predicate Linked(buf: bytes, s: State, memo: Memo, r: RValue, h: int)
    requires Opens(buf)
  {
    IsPublic(s, h) &&
    match PlaceOf(r)
    case Some(p) => p in memo && memo[p] == h
    case None =>
      match ValueShape(buf, r)
      case Leaf(t) => CShape(s, Ref(h)) == Leaf(t) && s.values[h].typ == r.typ
      case Vector(items) => items == [] && CShape(s, Ref(h)) == Vector([]) && NotContainer(memo, h)
      case _ => false
  }

  ghost predicate LinkedNode(buf: bytes, s: State, memo: Memo, a: RNode, b: Node<int>)
    requires Opens(buf)
  {
    match (a, b)
    case (Ref(r), Ref(h)) => Linked(buf, s, memo, r, h)
    case (Number(t, x), Number(u, y)) => t == u && x == y && IsNumberVector(t) && Fits(t, x)
    case _ => false
  }

  ghost predicate AllLinked(buf: bytes, s: State, memo: Memo, xs: seq<RNode>, ys: seq<Node<int>>)
    requires Opens(buf)
  {
    |xs| == |ys| && forall i :: 0 <= i < |xs| ==> LinkedNode(buf, s, memo, xs[i], ys[i])
  }

  /** h looks just like r one level down, children in the same order. */
  ghost predicate Complete(buf: bytes, s: State, memo: Memo, r: RValue, h: int)
    requires Opens(buf)
  {
    match (ValueShape(buf, r), CShape(s, Ref(h)))
    case (Leaf(t), Leaf(u)) => t == u
    case (Vector(xs), Vector(ys)) => AllLinked(buf, s, memo, xs, ys)
    case (SetOf(xs), SetOf(ys)) => AllLinked(buf, s, memo, xs, ys)
    case (MapOf(ks, vs), MapOf(ks', vs')) => |ks| == |vs| && AllLinked(buf, s, memo, ks, ks') && AllLinked(buf, s, memo, vs, vs')
    case _ => false
  }

  /** Some value of S at place p has been copied to h completely. */
  ghost predicate CompleteAt(buf: bytes, S: set<RValue>, s: State, memo: Memo, p: Place, h: int)
    requires Opens(buf)
  {
    exists r :: r in S && PlaceOf(r) == Some(p) && Complete(buf, s, memo, r, h)
  }

  /**
    The state of copying between any two steps: containers have copies of their own, and every copy is
    complete but for the containers that are being filled.
   */
  ghost predicate Copied(buf: bytes, S: set<RValue>, s: State, memo: Memo, open: set<int>)
    requires Opens(buf)
  {
    && (forall p :: p in memo ==> IsPublic(s, memo[p]) && (IsContainer(p) ==> !CShape(s, Ref(memo[p])).Leaf?))
    && (forall p :: p in memo && memo[p] !in open ==> CompleteAt(buf, S, s, memo, p, memo[p]))
    && (forall p, q :: p in memo && q in memo && memo[p] == memo[q] && IsContainer(p) ==> p == q)
  }

  // ---- going on from one state to the next ----

  /** What a step of copying keeps: values and copies are only added, and none but h changes its shape. */
  ghost predicate Onward(s: State, memo: Memo, t: State, memo': Memo, h: int) {
    && s.values <= t.values
    && (forall p :: p in memo ==> p in memo' && memo'[p] == memo[p])
    && (forall g :: IsPublic(s, g) ==> IsPublic(t, g))
    && (forall g :: IsPublic(s, g) && g != h ==> CShape(t, Ref(g)) == CShape(s, Ref(g)))
    && (forall p :: p in memo' && p !in memo && IsContainer(p) ==> memo'[p] >= |s.values|)
  }

  /** h is the copy of a container that is being filled; a leaf or an empty vector is never that. */
  lemma LinkKept(buf: bytes, s: State, memo: Memo, t: State, memo': Memo, h: int, r: RValue, g: int)
    requires Opens(buf) && Onward(s, memo, t, memo', h) && Linked(buf, s, memo, r, g)
    requires IsPublic(s, h) ==> !CShape(s, Ref(h)).Leaf? && !NotContainer(memo, h)
    ensures Linked(buf, t, memo', r, g)
  {
    hide CShape, ValueShape;
  }

  lemma LinksKept(buf: bytes, s: State, memo: Memo, t: State, memo': Memo, h: int, xs: seq<RNode>, ys: seq<Node<int>>)
    requires Opens(buf) && Onward(s, memo, t, memo', h) && AllLinked(buf, s, memo, xs, ys)
    requires IsPublic(s, h) ==> !CShape(s, Ref(h)).Leaf? && !NotContainer(memo, h)
    ensures AllLinked(buf, t, memo', xs, ys)
  {
    forall i | 0 <= i < |xs| ensures LinkedNode(buf, t, memo', xs[i], ys[i]) {
      assert LinkedNode(buf, s, memo, xs[i], ys[i]);
      if xs[i].Ref? { LinkKept(buf, s, memo, t, memo', h, xs[i].v, ys[i].v); }
    }
  }

  lemma CompleteKept(buf: bytes, s: State, memo: Memo, t: State, memo': Memo, h: int, r: RValue, g: int)
    requires Opens(buf) && Onward(s, memo, t, memo', h) && Complete(buf, s, memo, r, g) && IsPublic(s, g) && g != h
    requires IsPublic(s, h) ==> !CShape(s, Ref(h)).Leaf? && !NotContainer(memo, h)
    ensures Complete(buf, t, memo', r, g)
  {
    hide CShape, ValueShape, AllLinked, Onward;
    assert CShape(t, Ref(g)) == CShape(s, Ref(g)) by { OnwardShape(s, memo, t, memo', h, g); }
    match (ValueShape(buf, r), CShape(s, Ref(g)))
    case (Vector(xs), Vector(ys)) => LinksKept(buf, s, memo, t, memo', h, xs, ys);
    case (SetOf(xs), SetOf(ys)) => LinksKept(buf, s, memo, t, memo', h, xs, ys);
    case (MapOf(ks, vs), MapOf(ks', vs')) => LinksKept(buf, s, memo, t, memo', h, ks, ks'); LinksKept(buf, s, memo, t, memo', h, vs, vs');
    case _ =>
  }

  lemma OnwardShape(s: State, memo: Memo, t: State, memo': Memo, h: int, g: int)
    requires Onward(s, memo, t, memo', h) && IsPublic(s, g) && g != h
    ensures CShape(t, Ref(g)) == CShape(s, Ref(g))
  {
  }

  /** Changing an open container, or adding values, keeps everything that was copied. */
  lemma CopiedKept(buf: bytes, S: set<RValue>, s: State, memo: Memo, t: State, h: int, open: set<int>)
    requires Opens(buf) && Copied(buf, S, s, memo, open) && Onward(s, memo, t, memo, h)
    requires IsPublic(s, h) ==> h in open && !CShape(s, Ref(h)).Leaf? && !CShape(t, Ref(h)).Leaf? && !NotContainer(memo, h)
    ensures Copied(buf, S, t, memo, open)
  {
    forall p | p in memo ensures IsPublic(t, memo[p]) && (IsContainer(p) ==> !CShape(t, Ref(memo[p])).Leaf?) {
      if memo[p] != h { OnwardShape(s, memo, t, memo, h, memo[p]); }
    }
    forall p | p in memo && memo[p] !in open ensures CompleteAt(buf, S, t, memo, p, memo[p]) {
      var r :| r in S && PlaceOf(r) == Some(p) && Complete(buf, s, memo, r, memo[p]);
      hide Complete, Onward, CShape;
      CompleteKept(buf, s, memo, t, memo, h, r, memo[p]);
    }
  }

  lemma Steady(s: State, t: State, memo: Memo, h: int)
    requires SamePublicShapes(s, t) && s.values <= t.values
    ensures Onward(s, memo, t, memo, h)
  {
    hide CShape;
  }

  /** A new container enters the memo before its items are copied. */
  lemma Opened(buf: bytes, S: set<RValue>, s: State, memo: Memo, t: State, open: set<int>, p: Place, h: int)
    requires Opens(buf) && Copied(buf, S, s, memo, open) && SamePublicShapes(s, t) && s.values <= t.values
    requires p !in memo && IsContainer(p) && h >= |s.values| && IsPublic(t, h) && !CShape(t, Ref(h)).Leaf?
    ensures Copied(buf, S, t, memo[p := h], open + {h}) && Onward(s, memo, t, memo[p := h], h)
  {
    hide CShape;
    var memo' := memo[p := h];
    assert Onward(s, memo, t, memo', h);
    forall q | q in memo' && memo'[q] !in open + {h} ensures CompleteAt(buf, S, t, memo', q, memo'[q]) {
      var r :| r in S && PlaceOf(r) == Some(q) && Complete(buf, s, memo, r, memo[q]);
      hide Complete, Onward;
      CompleteKept(buf, s, memo, t, memo', h, r, memo[q]);
    }
  }

  /** A container whose items have all been copied is no longer open. */
  lemma Closed(buf: bytes, S: set<RValue>, s: State, memo: Memo, open: set<int>, p: Place, h: int)
    requires Opens(buf) && Copied(buf, S, s, memo, open + {h}) && p in memo && memo[p] == h && IsContainer(p)
    requires CompleteAt(buf, S, s, memo, p, h)
    ensures Copied(buf, S, s, memo, open)
  {
    hide CompleteAt;
  }

  /** A value that is complete at once enters the memo. */
  lemma Entered(buf: bytes, S: set<RValue>, s: State, memo: Memo, t: State, open: set<int>, v: RValue, p: Place, h: int)
    requires Opens(buf) && Copied(buf, S, s, memo, open) && SamePublicShapes(s, t) && s.values <= t.values && v in S && PlaceOf(v) == Some(p) && p !in memo
    requires ValueShape(buf, v).Leaf? || (ValueShape(buf, v).Vector? && forall i :: 0 <= i < |ValueShape(buf, v).items| ==> ValueShape(buf, v).items[i].Number?)
    requires IsPublic(t, h) && Complete(buf, t, map[], v, h) && (forall g :: g in open ==> g < |s.values|)
    requires if IsContainer(p) then h >= |s.values| && !CShape(t, Ref(h)).Leaf? else CShape(t, Ref(h)).Leaf?
    ensures Copied(buf, S, t, memo[p := h], open) && Onward(s, memo, t, memo[p := h], -1)
  {
    hide CShape;
    var memo' := memo[p := h];
    assert Onward(s, memo, t, memo', -1);
    assert Complete(buf, t, memo', v, h) by { FewerLinks(buf, t, memo', v, h); }
    forall q | q in memo' && memo'[q] !in open ensures CompleteAt(buf, S, t, memo', q, memo'[q]) {
      if q != p {
        var r :| r in S && PlaceOf(r) == Some(q) && Complete(buf, s, memo, r, memo[q]);
        hide Complete, Onward;
        CompleteKept(buf, s, memo, t, memo', -1, r, memo[q]);
      }
    }
  }

  /** What is complete without any links to other copies is complete. */
  lemma FewerLinks(buf: bytes, s: State, memo: Memo, r: RValue, h: int)
    requires Opens(buf) && Complete(buf, s, map[], r, h)
    requires ValueShape(buf, r).Leaf? || (ValueShape(buf, r).Vector? && forall i :: 0 <= i < |ValueShape(buf, r).items| ==> ValueShape(buf, r).items[i].Number?)
    ensures Complete(buf, s, memo, r, h)
  {
    hide CShape, ValueShape;
  }

  // ---- steps one after the other ----

  lemma OnwardTwice(s: State, memo: Memo, t: State, memo': Memo, u: State, memo'': Memo, h: int)
    requires Onward(s, memo, t, memo', h) && (Onward(t, memo', u, memo'', h) || Onward(t, memo', u, memo'', -1))
    ensures Onward(s, memo, u, memo'', h)
  {
    hide CShape;
  }

  /** Changing only a container that was not there before changes nothing that was. */
  lemma OnwardFromOld(s: State, memo: Memo, t: State, memo': Memo, h: int)
    requires Onward(s, memo, t, memo', h) && h >= |s.values|
    ensures Onward(s, memo, t, memo', -1)
  {
    hide CShape;
  }

  lemma OthersOnward(s: State, t: State, memo: Memo, h: int)
    requires OthersSame(s, t, h)
    ensures Onward(s, memo, t, memo, h)
  {
    hide CShape;
  }

  // ---- how much is left ----

  ghost function Uncopied(S: set<RValue>, memo: Memo): set<RValue> {
    set r | r in S && PlaceOf(r).Some? && PlaceOf(r).value !in memo
  }

  lemma UncopiedShrinks(S: set<RValue>, memo: Memo, memo': Memo, v: RValue)
    requires v in S && PlaceOf(v).Some? && PlaceOf(v).value !in memo && PlaceOf(v).value in memo'
    requires forall p :: p in memo ==> p in memo'
    ensures |Uncopied(S, memo')| < |Uncopied(S, memo)|
  {
    var less, more := Uncopied(S, memo'), Uncopied(S, memo);
    assert v in more && v !in less && less <= more;
    SmallerSet(less, more, v);
  }

  lemma SmallerSet<T>(xs: set<T>, ys: set<T>, y: T)
    requires xs <= ys && y in ys && y !in xs
    ensures |xs| < |ys|
  {
    assert ys == xs + (ys - xs);
    assert y in ys - xs;
  }

  /** One more item of the container h, with its copy. */
  lemma ItemLinked(buf: bytes, S: set<RValue>, s: State, memo: Memo, t: State, open: set<int>, h: int,
                   xs: seq<RNode>, ys: seq<Node<int>>, x: RNode, y: Node<int>)
    requires Opens(buf) && Copied(buf, S, s, memo, open) && h in open && OthersSame(s, t, h)
    requires IsPublic(s, h) && !CShape(s, Ref(h)).Leaf? && !CShape(t, Ref(h)).Leaf? && !NotContainer(memo, h)
    requires AllLinked(buf, s, memo, xs, ys) && LinkedNode(buf, s, memo, x, y)
    ensures Copied(buf, S, t, memo, open) && Onward(s, memo, t, memo, h)
    ensures AllLinked(buf, t, memo, xs + [x], ys + [y]) && AllLinked(buf, t, memo, xs, ys)
  {
    hide CShape, Complete, LinkedNode, NotContainer, Copied;
    OthersOnward(s, t, memo, h);
    CopiedKept(buf, S, s, memo, t, h, open);
    assert AllLinked(buf, s, memo, xs + [x], ys + [y]);
    LinksKept(buf, s, memo, t, memo, h, xs + [x], ys + [y]);
    LinksKept(buf, s, memo, t, memo, h, xs, ys);
  }

  // ---- steps of filling a container ----

  lemma VectorIsSound(buf: bytes, S: set<RValue>, v: RValue)
    requires Opens(buf) && Sound(buf, S) && v in S && IsValueVector(v.typ)
    ensures ValueShape(buf, v).Vector? && forall i :: 0 <= i < |ValueShape(buf, v).items| ==> ValueShape(buf, v).items[i].Ref? && ValueShape(buf, v).items[i].v in S
    ensures PlaceOf(v).Some? && IsContainer(PlaceOf(v).value)
  {
    assert SoundValue(buf, S, v);
    hide ObjectAt, TextAt, BitvectorAt, SetAt, MapAt, BitsShape;
  }

  lemma NothingLinked(buf: bytes, s: State, memo: Memo)
    requires Opens(buf)
    ensures AllLinked(buf, s, memo, [], [])
  {
  }

  lemma OnwardStart(s: State, memo: Memo, h: int)
    ensures Onward(s, memo, s, memo, h)
  {
    hide CShape;
  }

  /** While the items of v are being copied, there is less left than before. */
  lemma StillUncopied(S: set<RValue>, memo: Memo, s1: State, memo1: Memo, s: State, memo': Memo, h: int, v: RValue)
    requires v in S && PlaceOf(v).Some? && PlaceOf(v).value !in memo && memo1 == memo[PlaceOf(v).value := h]
    requires Onward(s1, memo1, s, memo', h)
    ensures |Uncopied(S, memo')| < |Uncopied(S, memo)|
  {
    UncopiedShrinks(S, memo, memo', v);
  }

  /** Copying a child leaves the container h, and the links of its items so far, as they were. */
  lemma StillFilling(buf: bytes, s: State, memo: Memo, t: State, memo': Memo, h: int, p: Place, xs: seq<RNode>, ys: seq<Node<int>>)
    requires Opens(buf) && Onward(s, memo, t, memo', -1) && IsPublic(s, h) && p in memo && memo[p] == h && IsContainer(p)
    requires AllLinked(buf, s, memo, xs, ys)
    ensures AllLinked(buf, t, memo', xs, ys) && CShape(t, Ref(h)) == CShape(s, Ref(h)) && IsPublic(t, h)
    ensures p in memo' && memo'[p] == h && !NotContainer(memo', h)
  {
    hide CShape, Linked;
    LinksKept(buf, s, memo, t, memo', -1, xs, ys);
  }

  lemma OwnVectorStays(s: State, t: State, h: int)
    requires IsOwnVector(s, h) && s.values <= t.values && UnderConstruction(t)
    ensures IsOwnVector(t, h) && t.values[h] == s.values[h]
  {
    assert GoodValue(t, h);
  }

  lemma LinkedIsPublic(buf: bytes, s: State, memo: Memo, r: RValue, h: int)
    requires Opens(buf) && Linked(buf, s, memo, r, h)
    ensures IsPublic(s, h) && LinkedNode(buf, s, memo, Ref(r), Ref(h))
  {
  }

  lemma VectorDone(buf: bytes, S: set<RValue>, s: State, memo: Memo, open: set<int>, v: RValue, h: int, ys: seq<Node<int>>)
    requires Opens(buf) && Copied(buf, S, s, memo, open + {h}) && v in S && PlaceOf(v).Some? && IsContainer(PlaceOf(v).value)
    requires PlaceOf(v).value in memo && memo[PlaceOf(v).value] == h && IsPublic(s, h)
    requires ValueShape(buf, v).Vector? && CShape(s, Ref(h)) == Vector(ys) && AllLinked(buf, s, memo, ValueShape(buf, v).items, ys)
    ensures Copied(buf, S, s, memo, open) && Linked(buf, s, memo, v, h)
  {
    hide Copied, CShape, ValueShape, AllLinked;
    assert Complete(buf, s, memo, v, h);
    Closed(buf, S, s, memo, open, PlaceOf(v).value, h);
  }

  lemma OneMore<T>(xs: seq<T>, i: nat)
    requires i < |xs|
    ensures xs[..i + 1] == xs[..i] + [xs[i]]
  {
  }

  lemma {:induction false} KeptFrom<T>(marks: seq<bool>, xs: seq<T>, i: nat) returns (j: nat)
    requires |marks| == |xs| && i < |Kept(marks, xs)|
    ensures j < |xs| && marks[j] && Kept(marks, xs)[i] == xs[j]
    decreases |xs|
  {
    var n := |xs| - 1;
    if i < |Kept(marks[..n], xs[..n])| {
      j := KeptFrom(marks[..n], xs[..n], i);
    } else {
      j := n;
    }
  }

  lemma PartIsRefs(buf: bytes, r: RValue)
    requires Opens(buf) && PartAt(buf, r).Some?
    ensures forall i :: 0 <= i < |PartAt(buf, r).value| ==> PartAt(buf, r).value[i].Ref?
  {
  }

  lemma KeptRefs(marks: seq<bool>, xs: seq<RNode>)
    requires |marks| == |xs| && forall i :: 0 <= i < |xs| ==> xs[i].Ref?
    ensures forall i :: 0 <= i < |Kept(marks, xs)| ==> Kept(marks, xs)[i].Ref?
  {
    forall i | 0 <= i < |Kept(marks, xs)| ensures Kept(marks, xs)[i].Ref? {
      var j := KeptFrom(marks, xs, i);
    }
  }

  ghost predicate AllRefsIn(S: set<RValue>, xs: seq<RNode>) {
    forall i :: 0 <= i < |xs| ==> xs[i].Ref? && xs[i].v in S
  }

  lemma SetIsSound(buf: bytes, S: set<RValue>, v: RValue)
    requires Opens(buf) && Sound(buf, S) && v in S && v.typ == SET_VALUE
    ensures ValueShape(buf, v).SetOf? && AllRefsIn(S, ValueShape(buf, v).keys)
    ensures PlaceOf(v).Some? && IsContainer(PlaceOf(v).value)
  {
    assert SoundValue(buf, S, v);
    hide Sound, ValueShape, SetAt, ObjectAt;
    var at := SetShape(buf, v);
    SetAtRefs(buf, at);
  }

  lemma SetShape(buf: bytes, r: RValue) returns (at: nat)
    requires Opens(buf) && r.typ == SET_VALUE && ValueShape(buf, r) != Broken
    ensures ValueShape(buf, r) == SetAt(buf, at)
  {
    hide ObjectAt, SetAt;
    at := ObjectAt(buf, TextCount(buf) + VectorCount(buf) + BitvectorCount(buf) + r.data);
  }

  lemma SetAtRefs(buf: bytes, at: nat)
    requires Opens(buf) && SetAt(buf, at) != Broken
    ensures SetAt(buf, at).SetOf? && AllRefs(SetAt(buf, at).keys)
  {
    hide PartAt, Kept, Filled, ValueAt;
    var ks := PartAt(buf, ValueAt(buf, at + 16)).value;
    PartIsRefs(buf, ValueAt(buf, at + 16));
    KeptRefs(Filled(ks), ks);
  }

  ghost predicate AllRefs(xs: seq<RNode>) {
    forall i :: 0 <= i < |xs| ==> xs[i].Ref?
  }

  lemma MapAtRefs(buf: bytes, at: nat)
    requires Opens(buf) && MapAt(buf, at) != Broken
    ensures MapAt(buf, at).MapOf? && AllRefs(MapAt(buf, at).keys) && AllRefs(MapAt(buf, at).values)
    ensures |MapAt(buf, at).keys| == |MapAt(buf, at).values|
  {
    hide PartAt, Kept, Filled, ValueAt;
    var rk, rv := ValueAt(buf, at + 16), ValueAt(buf, at + 24);
    var ks, vs := PartAt(buf, rk).value, PartAt(buf, rv).value;
    PartIsRefs(buf, rk);
    PartIsRefs(buf, rv);
    KeptRefs(Filled(ks), ks);
    KeptRefs(Filled(ks), vs);
    KeptLength(Filled(ks), ks, vs);
  }

  lemma MapIsSound(buf: bytes, S: set<RValue>, v: RValue)
    requires Opens(buf) && Sound(buf, S) && v in S && v.typ == MAP_VALUE_VALUE
    ensures ValueShape(buf, v).MapOf? && |ValueShape(buf, v).keys| == |ValueShape(buf, v).values|
    ensures AllRefsIn(S, ValueShape(buf, v).keys) && AllRefsIn(S, ValueShape(buf, v).values)
    ensures PlaceOf(v).Some? && IsContainer(PlaceOf(v).value)
  {
    assert SoundValue(buf, S, v);
    hide Sound, ValueShape, MapAt, ObjectAt;
    var at := MapShape(buf, v);
    MapAtRefs(buf, at);
  }

  lemma MapShape(buf: bytes, r: RValue) returns (at: nat)
    requires Opens(buf) && r.typ == MAP_VALUE_VALUE && ValueShape(buf, r) != Broken
    ensures ValueShape(buf, r) == MapAt(buf, at)
  {
    hide ObjectAt, MapAt;
    at := ObjectAt(buf, TextCount(buf) + VectorCount(buf) + BitvectorCount(buf) + SetCount(buf) + r.data);
  }

  // ---- the kinds that are complete at once ----

  lemma NumberVectorIsSound(buf: bytes, S: set<RValue>, v: RValue)
    requires Opens(buf) && Sound(buf, S) && v in S && IsNumberVector(v.typ)
    ensures ValueShape(buf, v).Vector? && PlaceOf(v) == Some(Place(PrivateVector, v.data))
    ensures forall i :: 0 <= i < |ValueShape(buf, v).items| ==>
      ValueShape(buf, v).items[i].Number? && ValueShape(buf, v).items[i].t == v.typ && Fits(v.typ, ValueShape(buf, v).items[i].x)
  {
    assert SoundValue(buf, S, v);
    hide ObjectAt, TextAt, BitvectorAt, SetAt, MapAt, BitsShape;
  }

  /** The numbers of a vector of numbers. */
  function Xs(items: seq<RNode>): (r: seq<int>)
    requires forall i :: 0 <= i < |items| ==> items[i].Number?
    ensures |r| == |items| && forall i :: 0 <= i < |items| ==> r[i] == items[i].x
  {
    seq(|items|, i requires 0 <= i < |items| => items[i].x)
  }

  lemma NumbersComplete(buf: bytes, S: set<RValue>, s: State, v: RValue, h: int)
    requires Opens(buf) && Sound(buf, S) && v in S && IsNumberVector(v.typ)
    requires ValueShape(buf, v).Vector? && forall i :: 0 <= i < |ValueShape(buf, v).items| ==> ValueShape(buf, v).items[i].Number?
    requires CShape(s, Ref(h)) == Vector(Numbers(v.typ, Xs(ValueShape(buf, v).items)))
    ensures Complete(buf, s, map[], v, h)
  {
    NumberVectorIsSound(buf, S, v);
    hide Sound, CShape, ValueShape;
  }

  lemma LeafIsSound(buf: bytes, S: set<RValue>, v: RValue)
    requires Opens(buf) && Sound(buf, S) && v in S
    ensures IsText(v.typ) ==>
      && ValueShape(buf, v).Leaf? && ValueShape(buf, v).tree.TText?
      && ValidText(v.typ, ValueShape(buf, v).tree.text) && PlaceOf(v) == Some(Place(TextBuffer, v.data))
    ensures v.typ == BITVECTOR ==> ValueShape(buf, v).Leaf? && v.data < BitvectorCount(buf) && PlaceOf(v) == Some(Place(BitBuffer, v.data))
    ensures v.typ == BITVECTOR ==> BitvectorAt(buf, ObjectAt(buf, TextCount(buf) + VectorCount(buf) + v.data)).Some?
    ensures IsInline(v.typ) ==> InlineSound(v) && PlaceOf(v) == None
    ensures IsInline(v.typ) || IsText(v.typ) || v.typ == BITVECTOR || IsHeapVector(v.typ) || v.typ == SET_VALUE || v.typ == MAP_VALUE_VALUE
  {
    assert SoundValue(buf, S, v);
    hide ObjectAt, TextAt, VectorAt, SetAt, MapAt;
  }

  // ---- values without a memo ----

  /** Creating an inline value, or finding a cached one, keeps everything that was copied. */
  lemma InlineLinked(buf: bytes, S: set<RValue>, s: State, memo: Memo, t: State, open: set<int>, v: RValue, h: int)
    requires Opens(buf) && Copied(buf, S, s, memo, open) && SamePublicShapes(s, t) && s.values <= t.values && IsPublic(t, h)
    requires PlaceOf(v) == None
    requires match ValueShape(buf, v)
      case Leaf(x) => CShape(t, Ref(h)) == Leaf(x) && t.values[h].typ == v.typ
      case Vector(items) => items == [] && CShape(t, Ref(h)) == Vector([]) && h >= |s.values|
      case _ => false
    ensures Copied(buf, S, t, memo, open) && Linked(buf, t, memo, v, h) && Onward(s, memo, t, memo, -1)
  {
    hide CShape, ValueShape, Complete, CompleteAt;
    Steady(s, t, memo, -1);
    CopiedKept(buf, S, s, memo, t, -1, open);
  }

  /** The copy of a place that has been copied before. */
  lemma FoundLinked(buf: bytes, S: set<RValue>, s: State, memo: Memo, open: set<int>, v: RValue)
    requires Opens(buf) && Copied(buf, S, s, memo, open) && PlaceOf(v).Some? && PlaceOf(v).value in memo
    ensures Linked(buf, s, memo, v, memo[PlaceOf(v).value]) && Onward(s, memo, s, memo, -1) && memo[PlaceOf(v).value] != NO_HANDLE
  {
    hide CShape, CompleteAt;
  }

  lemma EnteredLinked(buf: bytes, t: State, memo: Memo, v: RValue, h: int)
    requires Opens(buf) && PlaceOf(v).Some? && PlaceOf(v).value in memo && memo[PlaceOf(v).value] == h && IsPublic(t, h)
    ensures Linked(buf, t, memo, v, h)
  {
  }

  lemma BitsShapeIs(buf: bytes, v: RValue)
    requires Opens(buf) && v.typ == BITVECTOR && v.data < BitvectorCount(buf)
    requires BitvectorAt(buf, ObjectAt(buf, TextCount(buf) + VectorCount(buf) + v.data)).Some?
    ensures var b := BitvectorAt(buf, ObjectAt(buf, TextCount(buf) + VectorCount(buf) + v.data)).value;
      ValidBits(b) && ValueShape(buf, v) == Leaf(TBits(RawBits(b.bytes, b.n)))
  {
    hide ObjectAt, RawBits;
  }

  lemma RefIn(S: set<RValue>, xs: seq<RNode>, i: nat)
    requires AllRefsIn(S, xs) && i < |xs|
    ensures xs[i].Ref? && xs[i].v in S
  {
  }

  lemma LinkGoesOn(buf: bytes, s: State, memo: Memo, t: State, memo': Memo, r: RValue, h: int)
    requires Opens(buf) && Onward(s, memo, t, memo', -1) && Linked(buf, s, memo, r, h)
    ensures Linked(buf, t, memo', r, h)
  {
    hide CShape;
    LinkKept(buf, s, memo, t, memo', -1, r, h);
  }

  lemma SetDone(buf: bytes, S: set<RValue>, s: State, memo: Memo, open: set<int>, v: RValue, h: int, ys: seq<Node<int>>)
    requires Opens(buf) && Copied(buf, S, s, memo, open + {h}) && v in S && PlaceOf(v).Some? && IsContainer(PlaceOf(v).value)
    requires PlaceOf(v).value in memo && memo[PlaceOf(v).value] == h && IsPublic(s, h)
    requires ValueShape(buf, v).SetOf? && CShape(s, Ref(h)) == SetOf(ys) && AllLinked(buf, s, memo, ValueShape(buf, v).keys, ys)
    ensures Copied(buf, S, s, memo, open) && Linked(buf, s, memo, v, h)
  {
    hide Copied, CShape, ValueShape, AllLinked;
    assert Complete(buf, s, memo, v, h);
    Closed(buf, S, s, memo, open, PlaceOf(v).value, h);
  }

  lemma MapDone(buf: bytes, S: set<RValue>, s: State, memo: Memo, open: set<int>, v: RValue, h: int, ks: seq<Node<int>>, vs: seq<Node<int>>)
    requires Opens(buf) && Copied(buf, S, s, memo, open + {h}) && v in S && PlaceOf(v).Some? && IsContainer(PlaceOf(v).value)
    requires PlaceOf(v).value in memo && memo[PlaceOf(v).value] == h && IsPublic(s, h)
    requires ValueShape(buf, v).MapOf? && |ValueShape(buf, v).keys| == |ValueShape(buf, v).values| && CShape(s, Ref(h)) == MapOf(ks, vs)
    requires AllLinked(buf, s, memo, ValueShape(buf, v).keys, ks) && AllLinked(buf, s, memo, ValueShape(buf, v).values, vs)
    ensures Copied(buf, S, s, memo, open) && Linked(buf, s, memo, v, h)
  {
    hide Copied, CShape, ValueShape, AllLinked;
    assert Complete(buf, s, memo, v, h);
    Closed(buf, S, s, memo, open, PlaceOf(v).value, h);
  }

  lemma LeafComplete(buf: bytes, s: State, v: RValue, h: int)
    requires Opens(buf) && ValueShape(buf, v).Leaf? && CShape(s, Ref(h)) == Leaf(ValueShape(buf, v).tree)
    ensures Complete(buf, s, map[], v, h)
  {
    hide CShape, ValueShape;
  }

  lemma TextIsSound(buf: bytes, S: set<RValue>, v: RValue)
    requires Opens(buf) && Sound(buf, S) && v in S && IsText(v.typ)
    ensures PlaceOf(v) == Some(Place(TextBuffer, v.data)) && ValueShape(buf, v).Leaf? && ValueShape(buf, v).tree.TText?
    ensures ValidText(TypeOf(ValueShape(buf, v).tree.text), ValueShape(buf, v).tree.text)
  {
    hide Sound, ValueShape;
    LeafIsSound(buf, S, v);
  }

  /** The bits of a raw bitvector, as they lie on the heap. */
  function BitsOf(buf: bytes, v: RValue): RawBitvector
    requires Opens(buf)
  {
    if v.data < BitvectorCount(buf) then
      match BitvectorAt(buf, ObjectAt(buf, TextCount(buf) + VectorCount(buf) + v.data))
      case Some(b) => b
      case None => RawBitvector(0, [])
    else RawBitvector(0, [])
  }

  lemma BitsAreSound(buf: bytes, S: set<RValue>, v: RValue)
    requires Opens(buf) && Sound(buf, S) && v in S && v.typ == BITVECTOR
    ensures PlaceOf(v) == Some(Place(BitBuffer, v.data)) && ValidBits(BitsOf(buf, v))
    ensures ValueShape(buf, v) == Leaf(TBits(RawBits(BitsOf(buf, v).bytes, BitsOf(buf, v).n)))
  {
    hide Sound, ValueShape, ObjectAt, BitvectorAt, RawBits, TextCount, VectorCount;
    LeafIsSound(buf, S, v);
    BitsShapeIs(buf, v);
  }
}

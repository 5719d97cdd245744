/**
  When the copies of values unfold like their originals.
 */
module CopyMeaning {
  import opened Wrappers
  import opened PowersOfTwo
  import opened Bitvector
  import opened Unfolding
  import opened Values
  import opened CreateState
  import opened Tables
  import opened Bytes
  import opened Heap
  import opened Reader
  import opened Building
  import opened Interning
  import opened Copying

  // ---- when copies unfold like their originals ----

  /** Values of S at one place that has been copied unfold alike. */
  ghost predicate AllAlike(buf: bytes, S: set<RValue>, memo: Memo)
    requires Opens(buf)
  {
    forall r, r' :: r in S && r' in S && PlaceOf(r).Some? && PlaceOf(r) == PlaceOf(r') && PlaceOf(r).value in memo ==>
      Alike(RGraph(buf), Ref(r), Ref(r'))
  }

  ghost predicate UnfoldsAs(buf: bytes, s: State, r: RValue, h: int)
    requires Opens(buf)
  {
    forall d: nat :: Unfold(RGraph(buf), Ref(r), d) == CUnfold(s, h, d)
  }

  /** Every copy unfolds like its original, at every depth. */
  ghost predicate CopiesUnfoldAlike(buf: bytes, S: set<RValue>, s: State, memo: Memo)
    requires Opens(buf)
  {
    forall r, h :: r in S && Linked(buf, s, memo, r, h) ==> UnfoldsAs(buf, s, r, h)
  }

  ghost function LinkedIn(buf: bytes, S: set<RValue>, s: State, memo: Memo): Relation<RNode, Node<int>>
    requires Opens(buf)
  {
    (a: RNode, b: Node<int>) => (a.Ref? ==> a.v in S) && LinkedNode(buf, s, memo, a, b)
  }

  lemma LinkedRelated(buf: bytes, S: set<RValue>, s: State, memo: Memo, xs: seq<RNode>, ys: seq<Node<int>>)
    requires Opens(buf) && AllLinked(buf, s, memo, xs, ys) && AllIn(S, xs)
    ensures AllRelated(LinkedIn(buf, S, s, memo), xs, ys)
  {
    hide LinkedNode;
  }

  lemma CompleteMatches(buf: bytes, S: set<RValue>, s: State, memo: Memo, r: RValue, h: int)
    requires Opens(buf) && SoundValue(buf, S, r) && Complete(buf, s, memo, r, h)
    ensures Matches(LinkedIn(buf, S, s, memo), ValueShape(buf, r), CShape(s, Ref(h)))
  {
    hide ValueShape, CShape, AllLinked, AllIn, LinkedIn, AllRelated;
    var rel := LinkedIn(buf, S, s, memo);
    match (ValueShape(buf, r), CShape(s, Ref(h)))
    case (Vector(xs), Vector(ys)) => LinkedRelated(buf, S, s, memo, xs, ys);
    case (SetOf(xs), SetOf(ys)) =>
      LinkedRelated(buf, S, s, memo, xs, ys);
      assert RelatedInSomeOrder(rel, xs, ys);
    case (MapOf(ks, vs), MapOf(ks', vs')) =>
      LinkedRelated(buf, S, s, memo, ks, ks');
      LinkedRelated(buf, S, s, memo, vs, vs');
      SameOrder(rel, ks, vs, ks', vs');
    case _ =>
  }

  lemma SameOrder<A, B(!new)>(rel: Relation<A, B>, ks: seq<A>, vs: seq<A>, ks': seq<B>, vs': seq<B>)
    requires |ks| == |vs| && AllRelated(rel, ks, ks') && AllRelated(rel, vs, vs')
    ensures PairsRelatedInSomeOrder(rel, ks, vs, ks', vs')
  {
    assert multiset(Zip(ks', vs')) == multiset(Zip(ks', vs'));
  }

  lemma LinkedMatches(buf: bytes, S: set<RValue>, s: State, memo: Memo, r: RValue, h: int)
    requires Opens(buf) && Linked(buf, s, memo, r, h) && PlaceOf(r) == None
    ensures Matches(LinkedIn(buf, S, s, memo), ValueShape(buf, r), CShape(s, Ref(h)))
  {
    hide ValueShape, CShape, LinkedIn;
  }

  /** A copy looks like some value at the original's place, children linked to their copies. */
  lemma CopyMatches(buf: bytes, S: set<RValue>, s: State, memo: Memo, r: RValue, h: int) returns (r0: RValue)
    requires Opens(buf) && Sound(buf, S) && Copied(buf, S, s, memo, {}) && AllAlike(buf, S, memo) && r in S && Linked(buf, s, memo, r, h)
    ensures Alike(RGraph(buf), Ref(r), Ref(r0)) && Matches(LinkedIn(buf, S, s, memo), ValueShape(buf, r0), CShape(s, Ref(h)))
  {
    hide ValueShape, CShape, Complete, SoundValue, LinkedIn, Alike;
    if PlaceOf(r).Some? {
      assert CompleteAt(buf, S, s, memo, PlaceOf(r).value, h);
      r0 :| r0 in S && PlaceOf(r0) == PlaceOf(r) && Complete(buf, s, memo, r0, h);
      CompleteMatches(buf, S, s, memo, r0, h);
    } else {
      r0 := r;
      AlikeItself(buf, r);
      LinkedMatches(buf, S, s, memo, r, h);
    }
  }

  lemma AlikeItself(buf: bytes, r: RValue)
    requires Opens(buf)
    ensures Alike(RGraph(buf), Ref(r), Ref(r))
  {
  }

  lemma NumberMatches(buf: bytes, S: set<RValue>, s: State, memo: Memo, t: u32, x: int)
    requires Opens(buf) && IsNumberVector(t) && Fits(t, x)
    ensures Alike(RGraph(buf), Number(t, x), Number(t, x))
    ensures Matches(LinkedIn(buf, S, s, memo), RShape(buf, Number(t, x)), CShape(s, Number(t, x)))
  {
  }

  lemma CopiesAreBisimilar(buf: bytes, S: set<RValue>, s: State, memo: Memo)
    requires Opens(buf) && Sound(buf, S) && Copied(buf, S, s, memo, {}) && AllAlike(buf, S, memo)
    ensures Bisimulation(RGraph(buf), CGraph(s), LinkedIn(buf, S, s, memo))
  {
    var rel := LinkedIn(buf, S, s, memo);
    forall a: RNode, b: Node<int> | rel(a, b)
      ensures exists a' :: Alike(RGraph(buf), a, a') && Matches(rel, RGraph(buf)(a'), CGraph(s)(b))
    {
      assert LinkedNode(buf, s, memo, a, b);
      hide CShape, ValueShape, Linked, Copied, Sound, AllAlike, Alike, Matches, LinkedIn;
      match (a, b) {
        case (Ref(r), Ref(h)) =>
          var r0 := CopyMatches(buf, S, s, memo, r, h);
          assert RGraph(buf)(Ref(r0)) == ValueShape(buf, r0);
        case (Number(t, x), Number(_, _)) =>
          NumberMatches(buf, S, s, memo, t, x);
      }
    }
  }

  /**
    Copies unfold like their originals exactly when values at one place unfold alike: one copy has to serve
    them all.
   */
  lemma CopiesUnfoldAlikeIff(buf: bytes, S: set<RValue>, s: State, memo: Memo)
    requires Opens(buf) && Sound(buf, S) && Copied(buf, S, s, memo, {})
    ensures CopiesUnfoldAlike(buf, S, s, memo) <==> AllAlike(buf, S, memo)
  {
    if AllAlike(buf, S, memo) {
      CopiesAreBisimilar(buf, S, s, memo);
      forall r, h | r in S && Linked(buf, s, memo, r, h) ensures UnfoldsAs(buf, s, r, h) {
        hide Bisimulation, Linked, Sound, Copied, AllAlike;
        forall d: nat ensures Unfold(RGraph(buf), Ref(r), d) == CUnfold(s, h, d) {
          BisimilarUnfoldAlike(RGraph(buf), CGraph(s), LinkedIn(buf, S, s, memo), Ref(r), Ref(h), d);
        }
      }
    }
    if CopiesUnfoldAlike(buf, S, s, memo) {
      forall r, r' | r in S && r' in S && PlaceOf(r).Some? && PlaceOf(r) == PlaceOf(r') && PlaceOf(r).value in memo
        ensures Alike(RGraph(buf), Ref(r), Ref(r'))
      {
        var h := memo[PlaceOf(r).value];
        assert Linked(buf, s, memo, r, h) && Linked(buf, s, memo, r', h);
        hide Linked, Sound, Copied, CopiesUnfoldAlike;
        assert UnfoldsAs(buf, s, r, h) && UnfoldsAs(buf, s, r', h);
      }
    }
  }

  /** References of one type, or both to values, are interchangeable. */
  ghost predicate OneTypePerPlace(S: set<RValue>) {
    forall r, r' :: r in S && r' in S && PlaceOf(r).Some? && PlaceOf(r) == PlaceOf(r') ==>
      r.typ == r'.typ || (IsValueVector(r.typ) && IsValueVector(r'.typ))
  }

  lemma OneTypeAlike(buf: bytes, S: set<RValue>, memo: Memo)
    requires Opens(buf) && OneTypePerPlace(S)
    ensures AllAlike(buf, S, memo)
  {
    forall r, r' | r in S && r' in S && PlaceOf(r).Some? && PlaceOf(r) == PlaceOf(r') && PlaceOf(r).value in memo
      ensures Alike(RGraph(buf), Ref(r), Ref(r'))
    {
      SameTypeSameShape(buf, r, r');
      SameShapeAlike(buf, r, r');
    }
  }

  lemma SameTypeSameShape(buf: bytes, r: RValue, r': RValue)
    requires Opens(buf) && PlaceOf(r).Some? && PlaceOf(r) == PlaceOf(r') && (r.typ == r'.typ || (IsValueVector(r.typ) && IsValueVector(r'.typ)))
    ensures ValueShape(buf, r) == ValueShape(buf, r')
  {
    hide ValueShape, VectorAt, ObjectAt, Opens, TextCount, VectorCount;
    if r.typ != r'.typ {
      VectorShape(buf, r);
      VectorShape(buf, r');
      ValueVectorsReadAlike(buf, r.typ, r'.typ, r.data);
    } else {
      assert r == r';
    }
  }

  lemma VectorShape(buf: bytes, r: RValue)
    requires Opens(buf) && IsValueVector(r.typ)
    ensures ValueShape(buf, r) ==
      if r.data >= VectorCount(buf) then Broken
      else match VectorAt(buf, r.typ, ObjectAt(buf, TextCount(buf) + r.data)) case Some(items) => Vector(items) case None => Broken
  {
    hide VectorAt, ObjectAt, TextAt, BitvectorAt, SetAt, MapAt;
  }

  lemma ValueVectorsReadAlike(buf: bytes, t: u32, u: u32, d: nat)
    requires Opens(buf) && IsValueVector(t) && IsValueVector(u)
    ensures d < VectorCount(buf) ==> VectorAt(buf, t, ObjectAt(buf, TextCount(buf) + d)) == VectorAt(buf, u, ObjectAt(buf, TextCount(buf) + d))
  {
    if d < VectorCount(buf) {
      var at := ObjectAt(buf, TextCount(buf) + d);
      if Within(buf, at, 4) && Within(buf, at + 4, 8 * Word(buf, at, 4)) {
        RowsReadAlike(buf, t, u, at + 4, Word(buf, at, 4));
      }
      hide ItemsAt, Word;
    }
  }

  lemma RowsReadAlike(buf: bytes, t: u32, u: u32, at: nat, n: nat)
    requires IsValueVector(t) && IsValueVector(u) && Within(buf, at, 8 * n)
    ensures ItemsAt(buf, t, at, n) == ItemsAt(buf, u, at, n)
  {
    var xs, ys := ItemsAt(buf, t, at, n), ItemsAt(buf, u, at, n);
    forall i | 0 <= i < n ensures xs[i] == ys[i] {
    }
  }

  lemma SameShapeAlike(buf: bytes, r: RValue, r': RValue)
    requires Opens(buf) && ValueShape(buf, r) == ValueShape(buf, r')
    ensures Alike(RGraph(buf), Ref(r), Ref(r'))
  {
    var g := RGraph(buf);
    hide ValueShape;
    forall d: nat ensures Unfold(g, Ref(r), d) == Unfold(g, Ref(r'), d) {
      assert g(Ref(r)) == g(Ref(r'));
    }
  }
}

/**
  The meaning of a graph of values, possibly cyclic and shared: its unfolding to any depth. A graph is given
  by the shape of each of its nodes, so the same definition serves create-time handles and values read from a
  buffer, and one bisimulation lemma relates them.
 */
module Unfolding {
  import opened PowersOfTwo

  /** A zero-terminated string, of single bytes or of 4-byte characters. */
  datatype Text = Ascii(chars: seq<u32>) | Ucs4(chars: seq<u32>)

  /**
    A value down to some depth. Integers of every type are one kind of tree, and so are vectors of every
    type; sets and maps are multisets because their order of iteration is not their order of creation.
    Cut is where the depth ran out, Bad is a value that does not resolve.
   */
  datatype Tree =
    | Cut | Bad
    | TInt(v: int) | TFloat(pattern: u32) | TBool(flag: u32) | TNull | TEmptySlot
    | TText(text: Text) | TBits(bits: seq<bool>)
    | TVector(items: seq<Tree>)
    | TSet(keys: multiset<Tree>)
    | TMap(pairs: multiset<(Tree, Tree)>)

  datatype Shape<+N> =
    | Broken
    | Leaf(tree: Tree)
    | Vector(items: seq<N>)
    | SetOf(keys: seq<N>)
    | MapOf(keys: seq<N>, values: seq<N>)

  type Graph<!N> = N -> Shape<N>

  ghost function Unfold<N>(g: Graph<N>, n: N, d: nat): Tree
    decreases d, 0
  {
    match g(n)
    case Broken => Bad
    case Leaf(t) => t
    case Vector(items) => if d == 0 then Cut else TVector(UnfoldAll(g, items, d - 1))
    case SetOf(keys) => if d == 0 then Cut else TSet(multiset(UnfoldAll(g, keys, d - 1)))
    case MapOf(keys, values) =>
      if |keys| != |values| then Bad else if d == 0 then Cut
      else UnfoldPairs(g, keys, values, d - 1)
  }

  ghost function UnfoldPairs<N>(g: Graph<N>, ks: seq<N>, vs: seq<N>, d: nat): Tree
    requires |ks| == |vs|
    decreases d, 2
  {
    TMap(multiset(Zip(UnfoldAll(g, ks, d), UnfoldAll(g, vs, d))))
  }

  ghost function UnfoldAll<N>(g: Graph<N>, ns: seq<N>, d: nat): (r: seq<Tree>)
    ensures |r| == |ns| && forall i :: 0 <= i < |ns| ==> r[i] == Unfold(g, ns[i], d)
    decreases d, 1
  {
    seq(|ns|, i requires 0 <= i < |ns| => Unfold(g, ns[i], d))
  }

  function Zip<A, B>(xs: seq<A>, ys: seq<B>): (r: seq<(A, B)>)
    requires |xs| == |ys|
    ensures |r| == |xs| && forall i :: 0 <= i < |xs| ==> r[i] == (xs[i], ys[i])
  {
    seq(|xs|, i requires 0 <= i < |xs| => (xs[i], ys[i]))
  }

  function Apply<A, B>(f: A -> B, xs: seq<A>): (r: seq<B>)
    ensures |r| == |xs| && forall i :: 0 <= i < |xs| ==> r[i] == f(xs[i])
  {
    seq(|xs|, i requires 0 <= i < |xs| => f(xs[i]))
  }

  // ---- what an unfolding tells apart ----

  /** Leaves are told apart by what they hold, vectors by their items in order. */
  lemma VectorsUnfoldAlikeIff<N, M>(g: Graph<N>, n: N, g': Graph<M>, m: M, d: nat)
    ensures g(n).Leaf? && g'(m).Leaf? ==> (Unfold(g, n, d) == Unfold(g', m, d) <==> g(n).tree == g'(m).tree)
    ensures g(n).Vector? ==> Unfold(g, n, 0) == Cut && Unfold(g, n, d + 1).TVector?
    ensures g(n).Vector? && g'(m).Vector? ==>
      (Unfold(g, n, d + 1) == Unfold(g', m, d + 1) <==>
       |g(n).items| == |g'(m).items| && forall i :: 0 <= i < |g(n).items| ==> Unfold(g, g(n).items[i], d) == Unfold(g', g'(m).items[i], d))
  {
    if g(n).Vector? && g'(m).Vector? {
      var xs, ys := UnfoldAll(g, g(n).items, d), UnfoldAll(g', g'(m).items, d);
      if |xs| == |ys| && forall i :: 0 <= i < |xs| ==> xs[i] == ys[i] { assert xs == ys; }
      assert Unfold(g, n, d + 1) == TVector(xs) && Unfold(g', m, d + 1) == TVector(ys);
    }
  }

  ghost function UnfoldedKeys<N>(g: Graph<N>, x: Shape<N>, d: nat): (r: seq<Tree>)
    requires x.SetOf?
    ensures |r| == |x.keys| && forall i :: 0 <= i < |r| ==> r[i] == Unfold(g, x.keys[i], d)
  {
    UnfoldAll(g, x.keys, d)
  }

  /** Sets are told apart by how often they hold each key. */
  lemma SetsUnfoldAlikeIff<N, M>(g: Graph<N>, n: N, g': Graph<M>, m: M, d: nat)
    requires g(n).SetOf? && g'(m).SetOf?
    ensures Unfold(g, n, 0) == Cut && Unfold(g, n, d + 1).TSet?
    ensures Unfold(g, n, d + 1) == Unfold(g', m, d + 1)
      <==> forall t :: Times(t, UnfoldedKeys(g, g(n), d)) == Times(t, UnfoldedKeys(g', g'(m), d))
  {
    var xs, ys := UnfoldedKeys(g, g(n), d), UnfoldedKeys(g', g'(m), d);
    assert Unfold(g, n, d + 1) == TSet(multiset(xs)) && Unfold(g', m, d + 1) == TSet(multiset(ys));
    SameTimes(xs, ys);
  }

  ghost function UnfoldedPairs<N>(g: Graph<N>, x: Shape<N>, d: nat): (r: seq<(Tree, Tree)>)
    requires x.MapOf? && |x.keys| == |x.values|
    ensures |r| == |x.keys| && forall i :: 0 <= i < |r| ==> r[i] == (Unfold(g, x.keys[i], d), Unfold(g, x.values[i], d))
  {
    Zip(UnfoldAll(g, x.keys, d), UnfoldAll(g, x.values, d))
  }

  /** Maps are told apart by how often they hold each pair of key and value. */
  lemma MapsUnfoldAlikeIff<N, M>(g: Graph<N>, n: N, g': Graph<M>, m: M, d: nat)
    requires g(n).MapOf? && |g(n).keys| == |g(n).values| && g'(m).MapOf? && |g'(m).keys| == |g'(m).values|
    ensures Unfold(g, n, 0) == Cut && Unfold(g, n, d + 1).TMap?
    ensures Unfold(g, n, d + 1) == Unfold(g', m, d + 1) <==> forall p :: Times(p, UnfoldedPairs(g, g(n), d)) == Times(p, UnfoldedPairs(g', g'(m), d))
  {
    var xs, ys := UnfoldedPairs(g, g(n), d), UnfoldedPairs(g', g'(m), d);
    assert Unfold(g, n, 0) == Cut;
    assert Unfold(g, n, d + 1) == UnfoldPairs(g, g(n).keys, g(n).values, d) == TMap(multiset(xs));
    assert Unfold(g', m, d + 1) == UnfoldPairs(g', g'(m).keys, g'(m).values, d) == TMap(multiset(ys));
    SameTimes(xs, ys);
  }

  /** How often x occurs. */
  function Times<T(==)>(x: T, xs: seq<T>): nat {
    multiset(xs)[x]
  }

  lemma SameTimes<T>(xs: seq<T>, ys: seq<T>)
    ensures multiset(xs) == multiset(ys) <==> forall t :: Times(t, xs) == Times(t, ys)
  {
    if forall t :: Times(t, xs) == Times(t, ys) {
      assert forall t :: multiset(xs)[t] == Times(t, xs) && multiset(ys)[t] == Times(t, ys);
      assert multiset(xs) == multiset(ys);
    }
  }

  // ---- multisets of images ----

  lemma ApplyInsert<A, B>(f: A -> B, xs: seq<A>, x: A, ys: seq<A>)
    ensures Apply(f, xs + [x] + ys) == Apply(f, xs) + [f(x)] + Apply(f, ys)
    ensures Apply(f, xs + ys) == Apply(f, xs) + Apply(f, ys)
  {
  }

  /** Takes an element out of the middle of a sequence. */
  lemma TakeOut<A>(ys: seq<A>, x: A) returns (before: seq<A>, after: seq<A>)
    requires x in multiset(ys)
    ensures ys == before + [x] + after
    ensures multiset(before + after) == multiset(ys) - multiset{x}
    ensures |before + after| < |ys|
  {
    var i :| 0 <= i < |ys| && ys[i] == x;
    before, after := ys[..i], ys[i + 1..];
    assert ys == before + [x] + after;
  }

  /** Rearranging a sequence rearranges its image. */
  lemma {:induction false} ApplyPermuted<A, B>(f: A -> B, xs: seq<A>, ys: seq<A>)
    requires multiset(xs) == multiset(ys)
    ensures multiset(Apply(f, xs)) == multiset(Apply(f, ys))
    decreases |xs|
  {
    if xs == [] {
      assert |multiset(ys)| == |ys|;
      assert Apply(f, xs) == Apply(f, ys);
    } else {
      var x, rest := xs[0], xs[1..];
      assert xs == [] + [x] + rest;
      assert multiset(rest) == multiset(xs) - multiset{x};
      assert x in multiset(ys);
      var before, after := TakeOut(ys, x);
      ApplyPermuted(f, rest, before + after);
      ApplyInsert(f, [], x, rest);
      ApplyInsert(f, before, x, after);
      hide Apply;
      assert multiset(Apply(f, ys)) == multiset(Apply(f, before)) + multiset{f(x)} + multiset(Apply(f, after));
    }
  }

  // ---- bisimulation ----

  type Relation<!A, !B> = (A, B) -> bool

  ghost predicate AllRelated<A, B>(r: Relation<A, B>, xs: seq<A>, ys: seq<B>) {
    |xs| == |ys| && forall i :: 0 <= i < |xs| ==> r(xs[i], ys[i])
  }

  /** Related up to the order of the right-hand side. */
  ghost predicate RelatedInSomeOrder<A, B(!new)>(r: Relation<A, B>, xs: seq<A>, ys: seq<B>) {
    exists zs :: multiset(zs) == multiset(ys) && AllRelated(r, xs, zs)
  }

  ghost predicate PairsRelatedInSomeOrder<A, B(!new)>(r: Relation<A, B>, ks: seq<A>, vs: seq<A>, ks': seq<B>, vs': seq<B>) {
    && |ks| == |vs| && |ks'| == |vs'|
    && exists zk, zv :: |zk| == |zv| && multiset(Zip(zk, zv)) == multiset(Zip(ks', vs')) && AllRelated(r, ks, zk) && AllRelated(r, vs, zv)
  }

  ghost predicate Matches<A, B(!new)>(r: Relation<A, B>, x: Shape<A>, y: Shape<B>) {
    match (x, y)
    case (Leaf(s), Leaf(t)) => s == t
    case (Vector(xs), Vector(ys)) => AllRelated(r, xs, ys)
    case (SetOf(xs), SetOf(ys)) => RelatedInSomeOrder(r, xs, ys)
    case (MapOf(ks, vs), MapOf(ks', vs')) => PairsRelatedInSomeOrder(r, ks, vs, ks', vs')
    case _ => false
  }

  /** Two nodes of one graph with the same unfolding at every depth. */
  ghost predicate Alike<A(!new)>(g: Graph<A>, a: A, a': A) {
    forall d: nat :: Unfold(g, a, d) == Unfold(g, a', d)
  }

  /** Related nodes look the same one level down, perhaps after replacing the first by one that unfolds alike. */
  ghost predicate Bisimulation<A(!new), B(!new)>(g: Graph<A>, h: Graph<B>, r: Relation<A, B>) {
    forall a, b :: r(a, b) ==> exists a' :: Alike(g, a, a') && Matches(r, g(a'), h(b))
  }

  /** The usual case: related nodes look the same one level down. */
  lemma StrictBisimulation<A(!new), B(!new)>(g: Graph<A>, h: Graph<B>, r: Relation<A, B>)
    requires forall a, b :: r(a, b) ==> Matches(r, g(a), h(b))
    ensures Bisimulation(g, h, r)
  {
    forall a, b | r(a, b) ensures exists a' :: Alike(g, a, a') && Matches(r, g(a'), h(b)) {
      assert Alike(g, a, a);
    }
  }

  /** Bisimilar nodes have the same unfolding at every depth: cycles and sharing make no difference. */
  lemma {:induction false} BisimilarUnfoldAlike<A(!new), B(!new)>(g: Graph<A>, h: Graph<B>, r: Relation<A, B>, a: A, b: B, d: nat)
    requires Bisimulation(g, h, r) && r(a, b)
    ensures Unfold(g, a, d) == Unfold(h, b, d)
    decreases d, 4
  {
    var a' :| Alike(g, a, a') && Matches(r, g(a'), h(b));
    hide Bisimulation, AllRelated;
    MatchesUnfoldAlike(g, h, r, a', b, d);
  }

  lemma {:induction false} MatchesUnfoldAlike<A(!new), B(!new)>(g: Graph<A>, h: Graph<B>, r: Relation<A, B>, a: A, b: B, d: nat)
    requires Bisimulation(g, h, r) && Matches(r, g(a), h(b))
    ensures Unfold(g, a, d) == Unfold(h, b, d)
    decreases d, 3
  {
    hide Bisimulation, AllRelated, RelatedInSomeOrder;
    if g(a).MapOf? {
      MatchingMapsUnfoldAlike(g, h, r, a, b, d);
    } else if g(a).Vector? && d > 0 {
      RelatedUnfoldAlike(g, h, r, g(a).items, h(b).items, d - 1);
    } else if g(a).SetOf? && d > 0 {
      SetsUnfoldAlike(g, h, r, g(a).keys, h(b).keys, d - 1);
    }
  }

  lemma {:induction false} MatchingMapsUnfoldAlike<A(!new), B(!new)>(g: Graph<A>, h: Graph<B>, r: Relation<A, B>, a: A, b: B, d: nat)
    requires Bisimulation(g, h, r) && Matches(r, g(a), h(b)) && g(a).MapOf?
    ensures Unfold(g, a, d) == Unfold(h, b, d)
    decreases d, 2
  {
    hide Bisimulation, AllRelated;
    if d > 0 {
      MapsUnfoldAlike(g, h, r, g(a).keys, g(a).values, h(b).keys, h(b).values, d - 1);
    }
  }

  lemma {:induction false} SetsUnfoldAlike<A(!new), B(!new)>(g: Graph<A>, h: Graph<B>, r: Relation<A, B>, xs: seq<A>, ys: seq<B>, d: nat)
    requires Bisimulation(g, h, r) && RelatedInSomeOrder(r, xs, ys)
    ensures multiset(UnfoldAll(g, xs, d)) == multiset(UnfoldAll(h, ys, d))
    decreases d, 6
  {
    var zs :| multiset(zs) == multiset(ys) && AllRelated(r, xs, zs);
    RelatedUnfoldAlike(g, h, r, xs, zs, d);
    UnfoldAllPermuted(h, zs, ys, d);
  }

  lemma {:induction false} MapsUnfoldAlike<A(!new), B(!new)>(g: Graph<A>, h: Graph<B>, r: Relation<A, B>,
                                                             ks: seq<A>, vs: seq<A>, ks': seq<B>, vs': seq<B>, d: nat)
    requires Bisimulation(g, h, r) && PairsRelatedInSomeOrder(r, ks, vs, ks', vs')
    ensures UnfoldPairs(g, ks, vs, d) == UnfoldPairs(h, ks', vs', d)
    decreases d, 6
  {
    var zk, zv :| |zk| == |zv| && multiset(Zip(zk, zv)) == multiset(Zip(ks', vs')) && AllRelated(r, ks, zk) && AllRelated(r, vs, zv);
    RelatedUnfoldAlike(g, h, r, ks, zk, d);
    RelatedUnfoldAlike(g, h, r, vs, zv, d);
    UnfoldPairsPermuted(h, zk, zv, ks', vs', d);
  }

  lemma {:induction false} RelatedUnfoldAlike<A(!new), B(!new)>(g: Graph<A>, h: Graph<B>, r: Relation<A, B>, xs: seq<A>, ys: seq<B>, d: nat)
    requires Bisimulation(g, h, r) && AllRelated(r, xs, ys)
    ensures UnfoldAll(g, xs, d) == UnfoldAll(h, ys, d)
    decreases d, 5
  {
    forall i | 0 <= i < |xs| ensures UnfoldAll(g, xs, d)[i] == UnfoldAll(h, ys, d)[i] {
      BisimilarUnfoldAlike(g, h, r, xs[i], ys[i], d);
    }
  }

  lemma UnfoldAllPermuted<N>(g: Graph<N>, xs: seq<N>, ys: seq<N>, d: nat)
    requires multiset(xs) == multiset(ys)
    ensures multiset(UnfoldAll(g, xs, d)) == multiset(UnfoldAll(g, ys, d))
  {
    var f := (n: N) => Unfold(g, n, d);
    ApplyPermuted(f, xs, ys);
    assert UnfoldAll(g, xs, d) == Apply(f, xs) && UnfoldAll(g, ys, d) == Apply(f, ys);
  }

  lemma UnfoldPairsPermuted<N>(g: Graph<N>, ks: seq<N>, vs: seq<N>, ks': seq<N>, vs': seq<N>, d: nat)
    requires |ks| == |vs| && |ks'| == |vs'| && multiset(Zip(ks, vs)) == multiset(Zip(ks', vs'))
    ensures UnfoldPairs(g, ks, vs, d) == UnfoldPairs(g, ks', vs', d)
  {
    var f := (p: (N, N)) => (Unfold(g, p.0, d), Unfold(g, p.1, d));
    ApplyPermuted(f, Zip(ks, vs), Zip(ks', vs'));
    assert Zip(UnfoldAll(g, ks, d), UnfoldAll(g, vs, d)) == Apply(f, Zip(ks, vs));
    assert Zip(UnfoldAll(g, ks', d), UnfoldAll(g, vs', d)) == Apply(f, Zip(ks', vs'));
  }
}

/**
  Which sets and maps the create API accepts when keys are compared by its own comparison: two different keys are
  refused as duplicates when they share a hash and the comparison takes one for the other.
 */
module TableComparison {
  import opened Wrappers
  import opened PowersOfTwo
  import opened Bitvector
  import opened Unfolding
  import opened Values
  import opened CreateState
  import opened Tables
  import opened CreatePasses
  import opened ValueHash
  import opened ValueComparison
  import opened KeyComparison
  import HashTable

  ghost function CompareHandles(s: State, floats: FloatOrder, x: int, y: int): Outcome {
    Compare(true, floats, CreateView(s), Ref(x), CreateView(s), Ref(y), 0)
  }

  function Judged(c: Outcome): HashTable.Comparison {
    match c case Order(sign) => HashTable.Order(sign) case _ => HashTable.CompareError
  }

  /** The comparison that populate is given. */
  ghost function KeyComparator(s: State, floats: FloatOrder): Comparator {
    (x: int, y: int) => Judged(CompareHandles(s, floats, x, y))
  }

  ghost predicate HaveKeys(s: State, handles: seq<int>, d: nat, keys: seq<Key>) {
    |keys| == |handles| && forall i :: 0 <= i < |handles| ==> KeyAt(CreateView(s), Ref(handles[i]), d) == Some(keys[i])
  }

  /** No comparison of two keys with one hash is misled. */
  ghost predicate CanCompare(s: State, hash: int -> u32, handles: seq<int>, d: nat) {
    forall a, b :: 0 <= a < b < |handles| && hash(handles[a]) == hash(handles[b]) ==>
      !Misled(true, CreateView(s), Ref(handles[a]), CreateView(s), Ref(handles[b]), d)
  }

  /** Two keys that cannot be in one table: they share a hash, and are equal or confused. */
  ghost predicate Refusable(hash: int -> u32, handles: seq<int>, keys: seq<Key>, a: nat, b: nat)
    requires |keys| == |handles| && b < |handles| && a < |handles|
  {
    hash(handles[a]) == hash(handles[b]) && (keys[a] == keys[b] || Confused(keys[a], keys[b]))
  }

  lemma HandlesCompared(s: State, floats: FloatOrder, x: int, y: int, d: nat, kx: Key, ky: Key)
    requires KeyAt(CreateView(s), Ref(x), d) == Some(kx) && KeyAt(CreateView(s), Ref(y), d) == Some(ky) && 2 * d < MAX_DEPTH
    ensures Right(CompareHandles(s, floats, x, y), Misled(true, CreateView(s), Ref(x), CreateView(s), Ref(y), d), kx == ky || Confused(kx, ky))
  {
    hide WellTyped, KeyAt, Compare, LooseEqual, Misled, Confused;
    CreateViewWellTyped(s);
    ComparedExactly(true, floats, CreateView(s), Ref(x), CreateView(s), Ref(y), 0, d, kx, ky);
    LooseEqualIff(kx, ky);
  }

  lemma PairCompared(s: State, floats: FloatOrder, hash: int -> u32, handles: seq<int>, d: nat, keys: seq<Key>, a: nat, b: nat)
    requires HaveKeys(s, handles, d, keys) && 2 * d < MAX_DEPTH && CanCompare(s, hash, handles, d) && a < b < |handles|
    ensures HashTable.PairVerdict(KeyComparator(s, floats), Hashes(hash, handles), Keys(handles), a, b)
      == if Refusable(hash, handles, keys, a, b) then HashTable.Equal else HashTable.Different
  {
    hide KeyAt, CompareHandles, Confused, CreateView, Misled;
    HandlesCompared(s, floats, handles[a], handles[b], d, keys[a], keys[b]);
  }

  /** A bad pair, and no pair that cannot be compared: then there is a first bad pair. */
  lemma {:induction false} FirstDuplicate(cmp: Comparator, hv: seq<u32>, kv: seq<HashTable.Slot<int>>, a: nat, b: nat)
    requires |hv| == |kv| && a < b < |hv| && HashTable.PairVerdict(cmp, hv, kv, a, b) == HashTable.Equal
    requires forall x, y :: 0 <= x < y < |hv| ==> HashTable.PairVerdict(cmp, hv, kv, x, y) != HashTable.Broken
    ensures HashTable.FirstBadPair(cmp, hv, kv, HashTable.Equal)
    decreases b, a
  {
    hide HashTable.PairVerdict;
    if !HashTable.DifferentBefore(cmp, hv, kv, a, b) {
      var x: nat, y: nat :| x < y <= b && (y < b || x < a) && HashTable.PairVerdict(cmp, hv, kv, x, y) != HashTable.Different;
      FirstDuplicate(cmp, hv, kv, x, y);
    }
  }

  ghost predicate AllJudged(s: State, floats: FloatOrder, hash: int -> u32, handles: seq<int>, keys: seq<Key>)
    requires |keys| == |handles|
  {
    forall a, b :: 0 <= a < b < |handles| ==>
      HashTable.PairVerdict(KeyComparator(s, floats), Hashes(hash, handles), Keys(handles), a, b)
        == if Refusable(hash, handles, keys, a, b) then HashTable.Equal else HashTable.Different
  }

  lemma PairsCompared(s: State, floats: FloatOrder, hash: int -> u32, handles: seq<int>, d: nat, keys: seq<Key>)
    requires HaveKeys(s, handles, d, keys) && 2 * d < MAX_DEPTH && CanCompare(s, hash, handles, d)
    ensures AllJudged(s, floats, hash, handles, keys)
  {
    hide Refusable, KeyComparator, HashTable.PairVerdict, CanCompare, HaveKeys;
    assert |keys| == |handles| by { SameLength(s, handles, d, keys); }
    forall a, b | 0 <= a < b < |handles|
      ensures HashTable.PairVerdict(KeyComparator(s, floats), Hashes(hash, handles), Keys(handles), a, b)
        == if Refusable(hash, handles, keys, a, b) then HashTable.Equal else HashTable.Different
    {
      PairCompared(s, floats, hash, handles, d, keys, a, b);
    }
  }

  lemma SameLength(s: State, handles: seq<int>, d: nat, keys: seq<Key>)
    requires HaveKeys(s, handles, d, keys)
    ensures |keys| == |handles|
  {
  }

  ghost predicate NoneRefusable(hash: int -> u32, handles: seq<int>, keys: seq<Key>)
    requires |keys| == |handles|
  {
    forall a, b :: 0 <= a < b < |handles| ==> !Refusable(hash, handles, keys, a, b)
  }

  /**
    Provided the keys can be laid out at all, a table is accepted exactly when no two keys share a hash and are equal
    or confused; otherwise it is refused because of duplicate keys.
   */
  lemma TableAcceptedIff(s: State, floats: FloatOrder, hash: int -> u32, handles: seq<int>, d: nat, keys: seq<Key>)
    requires AllKeysFine(s, handles) && HaveKeys(s, handles, d, keys) && 2 * d < MAX_DEPTH && CanCompare(s, hash, handles, d)
    ensures |keys| == |handles|
    ensures TableOutcome(s, handles, hash, KeyComparator(s, floats), TableDone) <==> NoneRefusable(hash, handles, keys)
    ensures !NoneRefusable(hash, handles, keys) ==> TableOutcome(s, handles, hash, KeyComparator(s, floats), DuplicateKey)
  {
    hide Refusable, KeyComparator, HashTable.PairVerdict, CanCompare, HaveKeys, KeyFine, HashTable.FirstBadPair;
    SameLength(s, handles, d, keys);
    PairsCompared(s, floats, hash, handles, d, keys);
    if !NoneRefusable(hash, handles, keys) {
      var a: nat, b: nat :| a < b < |handles| && Refusable(hash, handles, keys, a, b);
      FirstDuplicate(KeyComparator(s, floats), Hashes(hash, handles), Keys(handles), a, b);
    }
  }

  /** Keys with one hash are of one kind. */
  predicate KindsApart(hash: int -> u32, handles: seq<int>, keys: seq<Key>)
    requires |keys| == |handles|
  {
    forall a, b :: 0 <= a < b < |handles| && hash(handles[a]) == hash(handles[b]) ==> SameKind(keys[a], keys[b])
  }

  /** Hashes are those of the keys, as `ValueHash` computes them. */
  predicate HashedByKey(hash: int -> u32, handles: seq<int>, keys: seq<Key>)
    requires |keys| == |handles|
  {
    forall a :: 0 <= a < |handles| ==> hash(handles[a]) == HashKey(keys[a])
  }

  predicate AllDistinct(keys: seq<Key>) {
    forall a, b :: 0 <= a < b < |keys| ==> keys[a] != keys[b]
  }

  /** When keys of different kinds never share a hash, the tables accepted are just those of distinct keys. */
  lemma DistinctKeysAccepted(s: State, floats: FloatOrder, hash: int -> u32, handles: seq<int>, d: nat, keys: seq<Key>)
    requires AllKeysFine(s, handles) && HaveKeys(s, handles, d, keys) && 2 * d < MAX_DEPTH && CanCompare(s, hash, handles, d)
    requires |keys| == |handles| && HashedByKey(hash, handles, keys) && KindsApart(hash, handles, keys)
    ensures TableOutcome(s, handles, hash, KeyComparator(s, floats), TableDone) <==> AllDistinct(keys)
  {
    hide AllKeysFine, HaveKeys, CanCompare, TableOutcome, HashKey, LooseEqual, SameKind, Confused;
    TableAcceptedIff(s, floats, hash, handles, d, keys);
    forall a, b | 0 <= a < b < |handles|
      ensures Refusable(hash, handles, keys, a, b) <==> keys[a] == keys[b]
    {
      if hash(handles[a]) == hash(handles[b]) {
        SameKindComparesRight(keys[a], keys[b]);
        LooseEqualIff(keys[a], keys[b]);
      }
    }
  }

  /** Different keys, of whatever kinds, are accepted exactly when no two of them share a hash and are confused. */
  lemma DistinctKeysAcceptedIff(s: State, floats: FloatOrder, hash: int -> u32, handles: seq<int>, d: nat, keys: seq<Key>)
    requires AllKeysFine(s, handles) && HaveKeys(s, handles, d, keys) && 2 * d < MAX_DEPTH && CanCompare(s, hash, handles, d)
    requires |keys| == |handles| && HashedByKey(hash, handles, keys) && AllDistinct(keys)
    ensures TableOutcome(s, handles, hash, KeyComparator(s, floats), TableDone) <==>
      forall a, b :: 0 <= a < b < |keys| && HashKey(keys[a]) == HashKey(keys[b]) ==> !Confused(keys[a], keys[b])
  {
    hide AllKeysFine, HaveKeys, CanCompare, TableOutcome, HashKey, Confused;
    TableAcceptedIff(s, floats, hash, handles, d, keys);
    forall a, b | 0 <= a < b < |handles|
      ensures Refusable(hash, handles, keys, a, b) <==> HashKey(keys[a]) == HashKey(keys[b]) && Confused(keys[a], keys[b])
    {
      assert keys[a] != keys[b];
    }
  }

  // ---- distinct keys that are refused ----

  lemma {:induction false} XorOfZeros(k: nat)
    ensures XorBits(0, 0, k) == 0
  {
    if k > 0 { XorOfZeros(k - 1); }
  }

  lemma EmptyTextHash()
    ensures HashKey(KText([])) == 0
  {
    XorOfZeros(32);
    assert Xor(0, 0) == 0;
  }

  /** Zero and the empty string both have hash zero, and either is taken for the other: no set holds both. */
  lemma ZeroAndEmptyTextRefused(s: State, floats: FloatOrder, hash: int -> u32, zero: int, empty: int)
    requires IsHandle(s, zero) && s.values[zero].typ == I32 && s.values[zero].data == 0
    requires IsHandle(s, empty) && s.values[empty].typ == STRING && s.values[empty].data < |s.texts| && s.texts[s.values[empty].data] == Ascii([])
    requires HashedByKey(hash, [zero, empty], [KNumber(0), KText([])])
    ensures TableOutcome(s, [zero, empty], hash, KeyComparator(s, floats), DuplicateKey)
    ensures TableOutcome(s, [empty, zero], hash, KeyComparator(s, floats), DuplicateKey)
  {
    hide TableOutcome, KeyAt, HashKey, Misled, KeyFine, CreateView;
    ZeroIsKey(s, zero);
    EmptyTextIsKey(s, empty);
    EmptyTextHash();
    assert HashKey(KNumber(0)) == 0 by { ZeroHash(); }
    assert hash([zero, empty][0]) == 0 && hash([zero, empty][1]) == 0;
    LeavesNotMisled(s, zero, empty, 0);
    LeavesNotMisled(s, empty, zero, 0);
    TwoRefused(s, floats, hash, zero, empty, 0, KNumber(0), KText([]));
    TwoRefused(s, floats, hash, empty, zero, 0, KText([]), KNumber(0));
  }

  lemma ZeroHash()
    ensures HashKey(KNumber(0)) == 0
  {
  }

  lemma ZeroIsKey(s: State, zero: int)
    requires IsHandle(s, zero) && s.values[zero].typ == I32 && s.values[zero].data == 0
    ensures KeyFine(s, zero) && KeyAt(CreateView(s), Ref(zero), 0) == Some(KNumber(0))
  {
  }

  lemma EmptyTextIsKey(s: State, empty: int)
    requires IsHandle(s, empty) && s.values[empty].typ == STRING && s.values[empty].data < |s.texts| && s.texts[s.values[empty].data] == Ascii([])
    ensures KeyFine(s, empty) && KeyAt(CreateView(s), Ref(empty), 0) == Some(KText([]))
  {
  }

  /** A value that is held in its word or a string, neither bitvector nor vector, is never misread when it comes first. */
  lemma LeavesNotMisled(s: State, x: int, y: int, d: nat)
    requires IsHandle(s, x) && (s.values[x].typ == I32 || s.values[x].typ == STRING || s.values[x].typ == NULL)
    ensures !Misled(true, CreateView(s), Ref(x), CreateView(s), Ref(y), d)
  {
    hide Decode;
  }

  /** Null has hash zero and is taken for any value: no set holds it before another key of hash zero. */
  lemma NullRefused(s: State, floats: FloatOrder, hash: int -> u32, none: int, y: int, d: nat, ky: Key)
    requires IsHandle(s, none) && s.values[none].typ == NULL && KeyFine(s, y)
    requires KeyAt(CreateView(s), Ref(y), d) == Some(ky) && 2 * d < MAX_DEPTH && ky != KNull
    requires HashedByKey(hash, [none, y], [KNull, ky]) && HashKey(ky) == 0
    ensures TableOutcome(s, [none, y], hash, KeyComparator(s, floats), DuplicateKey)
  {
    hide TableOutcome, KeyAt, HashKey, Misled, KeyFine, CreateView;
    NullIsKey(s, none, d);
    LeavesNotMisled(s, none, y, d);
    assert hash([none, y][0]) == HashKey(KNull) && hash([none, y][1]) == 0;
    assert HashKey(KNull) == 0 by { NullHash(); }
    TwoRefused(s, floats, hash, none, y, d, KNull, ky);
  }

  lemma NullIsKey(s: State, none: int, d: nat)
    requires IsHandle(s, none) && s.values[none].typ == NULL
    ensures KeyFine(s, none) && KeyAt(CreateView(s), Ref(none), d) == Some(KNull)
  {
  }

  lemma NullHash()
    ensures HashKey(KNull) == 0
  {
  }

  lemma TwoRefused(s: State, floats: FloatOrder, hash: int -> u32, x: int, y: int, d: nat, kx: Key, ky: Key)
    requires KeyFine(s, x) && KeyFine(s, y) && 2 * d < MAX_DEPTH
    requires KeyAt(CreateView(s), Ref(x), d) == Some(kx) && KeyAt(CreateView(s), Ref(y), d) == Some(ky)
    requires hash(x) == hash(y) && Confused(kx, ky) && !Misled(true, CreateView(s), Ref(x), CreateView(s), Ref(y), d)
    ensures TableOutcome(s, [x, y], hash, KeyComparator(s, floats), DuplicateKey)
  {
    hide KeyFine, KeyAt, CompareHandles, CreateView, Confused, TableOutcome, Misled;
    assert AllKeysFine(s, [x, y]) && HaveKeys(s, [x, y], d, [kx, ky]) && CanCompare(s, hash, [x, y], d);
    TableAcceptedIff(s, floats, hash, [x, y], d, [kx, ky]);
    assert Refusable(hash, [x, y], [kx, ky], 0, 1);
  }

  /**
    Vectors created for numbers and owned by the library, of the same numbers and so of one hash, cannot be compared:
    the numbers are looked up as handles. A set of two such vectors reads values that are not their items.
   */
  lemma PrivateNumbersMisread(s: State, floats: FloatOrder, x: int, y: int)
    requires IsHandle(s, x) && KindOf(s.values[x]) == PrivateVector && !HoldsHandles(s.values[x]) && s.values[x].data < |s.priv|
    requires IsHandle(s, y) && KindOf(s.values[y]) == PrivateVector && !HoldsHandles(s.values[y]) && s.values[y].data < |s.priv|
    ensures CompareHandles(s, floats, x, y) == Misread <==> s.priv[s.values[x].data] != [] && s.priv[s.values[y].data] != []
  {
    var xs, ys := ItemNodes(s.values[x], s.priv[s.values[x].data]), ItemNodes(s.values[y], s.priv[s.values[y].data]);
    assert CShape(s, Ref(x)) == Vector(xs) && CShape(s, Ref(y)) == Vector(ys);
    hide CShape;
  }

  /** Such a pair: two vectors that hold just the number 7. */
  lemma SevenAndSevenMisread(floats: FloatOrder)
    ensures var s := State([CValue(VECTOR_U32, false, false, false, 0), CValue(VECTOR_U32, false, false, false, 1)], [[7], [7]], [], [], [], [], []);
      && CompareHandles(s, floats, 0, 1) == Misread
      && KeyAt(CreateView(s), Ref(0), 1) == KeyAt(CreateView(s), Ref(1), 1) == Some(KVector([KNumber(7)]))
  {
    var s := State([CValue(VECTOR_U32, false, false, false, 0), CValue(VECTOR_U32, false, false, false, 1)], [[7], [7]], [], [], [], [], []);
    PrivateNumbersMisread(s, floats, 0, 1);
    SevenIsKey(s, 0);
    SevenIsKey(s, 1);
  }

  lemma SevenIsKey(s: State, x: int)
    requires IsHandle(s, x) && s.values[x] == CValue(VECTOR_U32, false, false, false, s.values[x].data)
    requires s.values[x].data < |s.priv| && s.priv[s.values[x].data] == [7]
    ensures KeyAt(CreateView(s), Ref(x), 1) == Some(KVector([KNumber(7)]))
  {
    var n: Node<int> := Number(VECTOR_U32, 7);
    assert CShape(s, Ref(x)) == Vector([n]);
    assert Unfold(CGraph(s), n, 0) == TInt(7);
    hide CShape;
    assert UnfoldAll(CGraph(s), [n], 0) == [TInt(7)];
    assert Unfold(CGraph(s), Ref(x), 1) == TVector([TInt(7)]);
    assert KeyOf([TInt(7)][0]) == Some(KNumber(7));
    assert KeysOf([TInt(7)]).Some? && KeysOf([TInt(7)]).value == [KNumber(7)];
  }
}

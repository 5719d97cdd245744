/**
  Comparison of values, as one recursive procedure over two graphs. The reader picks the comparison function by both
  types; the create API picks it by the type of the first value only. For each, exactly when the outcome is "equal".
 */
module ValueComparison {
  import opened Wrappers
  import opened PowersOfTwo
  import opened Bitvector
  import opened Unfolding
  import opened Values
  import opened ValueHash

  const MAX_DEPTH: nat := 512

  const I64: u32 := 27
  const U64: u32 := 28

  /** Misread: the code goes on to read memory that does not hold a value of the kind it expects. */
  datatype Outcome = Order(sign: int) | TooDeep | NotImplemented | Misread

  function SimpleCmp(a: int, b: int): int {
    if a == b then 0 else if a < b then -1 else 1
  }

  // ---- strings and bits ----

  function First(chars: seq<u32>): u32 {
    if chars == [] then 0 else chars[0]
  }

  /** Zero-terminated strings: the sign at the first difference. */
  function CompareChars(a: seq<u32>, b: seq<u32>): int
    decreases |a|
  {
    if First(a) != First(b) then SimpleCmp(First(a), First(b))
    else if First(a) == 0 then 0
    else CompareChars(a[1..], b[1..])
  }

  method CompareStrings(a: seq<u32>, b: seq<u32>) returns (sign: int)
    ensures sign == CompareChars(a, b)
  {
    var i := 0;
    while First(a[i..]) == First(b[i..])
      invariant i <= |a| && i <= |b| && CompareChars(a, b) == CompareChars(a[i..], b[i..])
      decreases |a| - i
    {
      if First(a[i..]) == 0 {
        return 0;
      }
      assert a[i..][1..] == a[i + 1..] && b[i..][1..] == b[i + 1..];
      i := i + 1;
    }
    sign := SimpleCmp(First(a[i..]), First(b[i..]));
  }

  predicate NoZero(chars: seq<u32>) {
    0 !in chars
  }

  /** Strings are equal under the comparison only if they are equal. */
  lemma {:induction false} CharsEqual(a: seq<u32>, b: seq<u32>)
    requires NoZero(a) && NoZero(b)
    ensures CompareChars(a, b) == 0 <==> a == b
    decreases |a|
  {
    if a != [] && b != [] && a[0] == b[0] {
      assert a == [a[0]] + a[1..] && b == [b[0]] + b[1..];
      CharsEqual(a[1..], b[1..]);
    }
  }

  /** b goes on where a ends, or has the greater character at the first difference. */
  ghost predicate Precedes(a: seq<u32>, b: seq<u32>) {
    exists i: nat :: FirstDifference(a, b, i)
  }

  ghost predicate FirstDifference(a: seq<u32>, b: seq<u32>, i: nat) {
    i <= |a| && i < |b| && a[..i] == b[..i] && (i < |a| ==> a[i] < b[i])
  }

  lemma DifferenceInTail(a: seq<u32>, b: seq<u32>, i: nat)
    requires a != [] && b != [] && a[0] == b[0]
    ensures FirstDifference(a, b, i + 1) <==> FirstDifference(a[1..], b[1..], i)
    ensures !FirstDifference(a, b, 0)
  {
    if i < |a| && i + 1 < |b| {
      assert a[..i + 1] == [a[0]] + a[1..][..i] && b[..i + 1] == [b[0]] + b[1..][..i];
      assert a[1..][..i] == a[..i + 1][1..] && b[1..][..i] == b[..i + 1][1..];
    }
  }

  lemma PrecedesInTail(a: seq<u32>, b: seq<u32>)
    requires a != [] && b != [] && a[0] == b[0]
    ensures Precedes(a, b) <==> Precedes(a[1..], b[1..])
  {
    hide FirstDifference;
    if Precedes(a, b) {
      var i: nat :| FirstDifference(a, b, i);
      DifferenceInTail(a, b, 0);
      DifferenceInTail(a, b, if i > 0 then i - 1 else 0);
    }
    if Precedes(a[1..], b[1..]) {
      var i: nat :| FirstDifference(a[1..], b[1..], i);
      DifferenceInTail(a, b, i);
    }
  }

  lemma PrecedesAtOnce(a: seq<u32>, b: seq<u32>)
    requires a == [] || b == [] || a[0] != b[0]
    ensures Precedes(a, b) <==> b != [] && (a == [] || a[0] < b[0])
  {
    if b != [] && (a == [] || a[0] < b[0]) {
      assert FirstDifference(a, b, 0);
    }
    forall i: nat | i > 0
      ensures !FirstDifference(a, b, i)
    {
      if i <= |a| && i < |b| {
        assert a[..i][0] == a[0] && b[..i][0] == b[0];
      }
    }
  }

  /** The order of strings is lexicographic, and antisymmetric. */
  lemma {:induction false} CharsOrder(a: seq<u32>, b: seq<u32>)
    requires NoZero(a) && NoZero(b)
    ensures CompareChars(a, b) < 0 <==> Precedes(a, b)
    ensures CompareChars(b, a) == -CompareChars(a, b)
    decreases |a|
  {
    hide Precedes;
    if a != [] && b != [] && a[0] == b[0] {
      CharsOrder(a[1..], b[1..]);
      PrecedesInTail(a, b);
    } else {
      PrecedesAtOnce(a, b);
    }
  }

  function CompareBits(a: seq<bool>, b: seq<bool>): int
    decreases |a|
  {
    if a == [] || b == [] then SimpleCmp(|a|, |b|)
    else if a[0] != b[0] then (if a[0] then 1 else -1)
    else CompareBits(a[1..], b[1..])
  }

  method CompareBitvectors(a: seq<bool>, b: seq<bool>) returns (sign: int)
    ensures sign == CompareBits(a, b)
  {
    var n := if |a| < |b| then |a| else |b|;
    for i := 0 to n
      invariant CompareBits(a, b) == CompareBits(a[i..], b[i..])
    {
      if a[i] != b[i] {
        return if a[i] then 1 else -1;
      }
      assert a[i..][1..] == a[i + 1..] && b[i..][1..] == b[i + 1..];
    }
    sign := SimpleCmp(|a|, |b|);
  }

  lemma {:induction false} BitsEqual(a: seq<bool>, b: seq<bool>)
    ensures CompareBits(a, b) == 0 <==> a == b
    decreases |a|
  {
    if a != [] && b != [] && a[0] == b[0] {
      assert a == [a[0]] + a[1..] && b == [b[0]] + b[1..];
      BitsEqual(a[1..], b[1..]);
    }
  }

  /** a is the beginning of b, or has the first bit that is not set where they differ. */
  ghost predicate BitsPrecede(a: seq<bool>, b: seq<bool>) {
    || (|a| < |b| && b[..|a|] == a)
    || exists k :: 0 <= k < |a| && k < |b| && a[..k] == b[..k] && !a[k] && b[k]
  }

  lemma BitsPrecedeInTail(a: seq<bool>, b: seq<bool>)
    requires a != [] && b != [] && a[0] == b[0]
    ensures BitsPrecede(a, b) <==> BitsPrecede(a[1..], b[1..])
  {
    var a', b' := a[1..], b[1..];
    assert a == [a[0]] + a' && b == [b[0]] + b';
    if k :| 0 <= k < |a| && k < |b| && a[..k] == b[..k] && !a[k] && b[k] {
      assert k > 0 && a'[..k - 1] == a[..k][1..] && b'[..k - 1] == b[..k][1..] && !a'[k - 1] && b'[k - 1];
    }
    if k :| 0 <= k < |a'| && k < |b'| && a'[..k] == b'[..k] && !a'[k] && b'[k] {
      assert a[..k + 1] == [a[0]] + a'[..k] && b[..k + 1] == [b[0]] + b'[..k] && !a[k + 1] && b[k + 1];
    }
    assert |a| < |b| ==> b[..|a|] == [b[0]] + b'[..|a'|];
  }

  lemma BitsPrecedeAtOnce(a: seq<bool>, b: seq<bool>)
    requires a == [] || b == [] || a[0] != b[0]
    ensures BitsPrecede(a, b) <==> (a == [] && b != []) || (a != [] && b != [] && !a[0])
  {
    forall k: nat | 0 < k < |a| && k < |b|
      ensures a[..k] != b[..k]
    {
      assert a[..k][0] == a[0] && b[..k][0] == b[0];
    }
    if a != [] && b != [] && !a[0] { assert a[..0] == b[..0]; }
  }

  /** Bits are ordered lexicographically, and the order is antisymmetric. */
  lemma {:induction false} BitsOrder(a: seq<bool>, b: seq<bool>)
    ensures CompareBits(a, b) < 0 <==> BitsPrecede(a, b)
    ensures CompareBits(b, a) == -CompareBits(a, b) && -1 <= CompareBits(a, b) <= 1
    decreases |a|
  {
    hide BitsPrecede;
    if a != [] && b != [] && a[0] == b[0] {
      BitsOrder(a[1..], b[1..]);
      BitsPrecedeInTail(a, b);
    } else {
      BitsPrecedeAtOnce(a, b);
    }
  }

  /** The first n bits of a data word, read by encoding t. */
  function SeenBits(t: u32, data: u32, n: nat): seq<bool>
    requires IsBitvectorType(t) && t != BITVECTOR
  {
    seq(n, i requires 0 <= i < n => IsSet(t, data, [], i))
  }

  /** The loop over two bitvectors, the first one held in its data word: both are read by the encoding of the first. */
  method CompareByFirstEncoding(ta: u32, da: u32, db: u32, nB: nat) returns (sign: int)
    requires IsBitvectorType(ta) && ta != BITVECTOR
    ensures sign == CompareBits(Decode(ta, da, 0, []), SeenBits(ta, db, nB))
  {
    var nA := NBits(ta, da, 0);
    var n := if nA < nB then nA else nB;
    ghost var a, b := Decode(ta, da, 0, []), SeenBits(ta, db, nB);
    for i := 0 to n
      invariant CompareBits(a, b) == CompareBits(a[i..], b[i..])
    {
      var x, y := IsSet(ta, da, [], i), IsSet(ta, db, [], i);
      if x != y {
        return if x then 1 else -1;
      }
      assert a[i..][1..] == a[i + 1..] && b[i..][1..] == b[i + 1..];
    }
    sign := SimpleCmp(nA, nB);
  }

  /** Bitvectors of one encoding are thereby compared by their bits. */
  lemma OneEncodingComparesRight(t: u32, da: u32, db: u32)
    requires IsBitvectorType(t) && t != BITVECTOR
    ensures CompareBits(Decode(t, da, 0, []), SeenBits(t, db, NBits(t, db, 0))) == 0 <==> Decode(t, da, 0, []) == Decode(t, db, 0, [])
  {
    BitsEqual(Decode(t, da, 0, []), SeenBits(t, db, NBits(t, db, 0)));
    assert SeenBits(t, db, NBits(t, db, 0)) == Decode(t, db, 0, []);
  }

  /**
    A bitvector of equal bits, first, is compared right with one of another encoding exactly if their lengths differ or
    they are equal: it takes any bitvector of its length for itself.
   */
  lemma EqualBitsComparedRightIff(t: u32, n: u32, db: u32, b: seq<bool>)
    requires t == BITVECTOR_0 || t == BITVECTOR_1
    ensures (CompareBits(Decode(t, n, 0, []), SeenBits(t, db, |b|)) == 0 <==> Decode(t, n, 0, []) == b)
      <==> |b| != n || All(b, t == BITVECTOR_1)
  {
    var a := Decode(t, n, 0, []);
    BitsEqual(a, SeenBits(t, db, |b|));
    if |b| == n {
      assert a == SeenBits(t, db, |b|);
      assert a == b <==> All(b, t == BITVECTOR_1);
    }
  }

  /** Three zero bits and three one bits are taken for equal. */
  lemma ZerosTakenForOnes()
    ensures CompareBits(Decode(BITVECTOR_0, 3, 0, []), SeenBits(BITVECTOR_0, 3, 3)) == 0
    ensures Decode(BITVECTOR_0, 3, 0, []) != Decode(BITVECTOR_1, 3, 0, [])
  {
    EqualBitsComparedRightIff(BITVECTOR_0, 3, 3, Decode(BITVECTOR_1, 3, 0, []));
    assert Decode(BITVECTOR_1, 3, 0, [])[0] && !Decode(BITVECTOR_0, 3, 0, [])[0];
  }

  // ---- numbers ----

  /** Comparisons in which a float takes part are not part of this model: a function of the two numbers. */
  type FloatOrder = (Tree, Tree) -> int

  predicate IsSignedNumber(t: u32) {
    t == I32 || t == I64 || t == BOOLEAN
  }

  /** What the code takes a value for when it expects an integer. */
  function NumberOf(t: Tree): int {
    match t case TInt(v) => v case TBool(flag) => flag case _ => 0
  }

  function CompareNumbers(floats: FloatOrder, ta: u32, a: Tree, tb: u32, b: Tree): int {
    var x, y := NumberOf(a), NumberOf(b);
    if ta == FLOAT || tb == FLOAT then floats(a, b)
    else if IsSignedNumber(ta) && !IsSignedNumber(tb) then (if x < 0 then -1 else SimpleCmp(x, y))
    else if !IsSignedNumber(ta) && IsSignedNumber(tb) then (if y < 0 then -1 else SimpleCmp(x, y))
    else SimpleCmp(x, y)
  }

  predicate IsIntegerType(t: u32) {
    t == I32 || t == U32 || t == I64 || t == U64 || t == BOOLEAN
  }

  /** An integer of its type: unsigned ones are not negative. */
  predicate IsInteger(t: u32, a: Tree) {
    IsIntegerType(t) && (a.TInt? || a.TBool?) && (IsSignedNumber(t) || NumberOf(a) >= 0)
  }

  /** An unsigned number first, a negative one second. */
  predicate UnsignedThenNegative(ta: u32, tb: u32, b: Tree) {
    !IsSignedNumber(ta) && IsSignedNumber(tb) && NumberOf(b) < 0
  }

  /** Integers are compared by value, except exactly when an unsigned one comes before a negative one. */
  lemma ComparesByValueIff(floats: FloatOrder, ta: u32, a: Tree, tb: u32, b: Tree)
    requires IsInteger(ta, a) && IsInteger(tb, b)
    ensures CompareNumbers(floats, ta, a, tb, b) == SimpleCmp(NumberOf(a), NumberOf(b)) <==> !UnsignedThenNegative(ta, tb, b)
  {
  }

  /** The order is antisymmetric exactly when neither integer is unsigned and the other one negative. */
  lemma AntisymmetricIff(floats: FloatOrder, ta: u32, a: Tree, tb: u32, b: Tree)
    requires IsInteger(ta, a) && IsInteger(tb, b)
    ensures CompareNumbers(floats, ta, a, tb, b) == -CompareNumbers(floats, tb, b, ta, a)
      <==> !UnsignedThenNegative(ta, tb, b) && !UnsignedThenNegative(tb, ta, a)
  {
    ComparesByValueIff(floats, ta, a, tb, b);
    ComparesByValueIff(floats, tb, b, ta, a);
  }

  /** Two steps down lead down, whenever no step goes from an unsigned integer to a negative one. */
  lemma TransitiveUnless(floats: FloatOrder, ta: u32, a: Tree, tb: u32, b: Tree, tc: u32, c: Tree)
    requires IsInteger(ta, a) && IsInteger(tb, b) && IsInteger(tc, c)
    requires CompareNumbers(floats, ta, a, tb, b) <= 0 && CompareNumbers(floats, tb, b, tc, c) <= 0
    ensures CompareNumbers(floats, ta, a, tc, c) <= 0
      || UnsignedThenNegative(ta, tb, b) || UnsignedThenNegative(tb, tc, c)
  {
    ComparesByValueIff(floats, ta, a, tb, b);
    ComparesByValueIff(floats, tb, b, tc, c);
    ComparesByValueIff(floats, ta, a, tc, c);
    hide CompareNumbers;
  }

  /** An unsigned and a negative number compare as "less" either way round, and 1 < -1 < 0 although 1 > 0. */
  lemma MixedNumbersAreNotOrdered(floats: FloatOrder)
    ensures CompareNumbers(floats, U32, TInt(1), I32, TInt(-1)) == -1 && CompareNumbers(floats, I32, TInt(-1), U32, TInt(1)) == -1
    ensures CompareNumbers(floats, I32, TInt(-1), U32, TInt(0)) == -1 && CompareNumbers(floats, U32, TInt(1), U32, TInt(0)) == 1
  {
  }

  // ---- dispatch ----

  datatype Group = Texts | Numbers | Bitvectors | Nulls | Vectors | Sets | Maps | EmptySlots | Unknown

  /** The comparison function of a type. The create API has none for 64-bit integers. */
  function GroupOf(create: bool, t: u32): Group {
    if IsText(t) then Texts
    else if t == I32 || t == U32 || t == BOOLEAN || t == FLOAT || (!create && (t == I64 || t == U64)) then Numbers
    else if IsBitvectorType(t) then Bitvectors
    else if t == NULL then Nulls
    else if IsHeapVector(t) || t == VECTOR_EMPTY then Vectors
    else if t == SET_VALUE then Sets
    else if t == MAP_VALUE_VALUE then Maps
    else if t == EMPTY_SLOT then EmptySlots
    else Unknown
  }

  /** The type an item of a vector of numbers is compared as. */
  function ItemType(t: u32): u32 {
    if t == VECTOR_I8 || t == VECTOR_I16 || t == VECTOR_I32 then I32
    else if t == VECTOR_I64 then I64
    else if t == VECTOR_U64 then U64
    else if t == VECTOR_FLOAT then FLOAT
    else U32
  }

  /** Items of vectors of integers are compared by value, except exactly when an unsigned one comes before a negative one. */
  lemma ItemsComparedByValueIff(floats: FloatOrder, t: u32, x: int, u: u32, y: int)
    requires IsNumberVector(t) && t != VECTOR_FLOAT && Fits(t, x) && IsNumberVector(u) && u != VECTOR_FLOAT && Fits(u, y)
    ensures CompareNumbers(floats, ItemType(t), TInt(x), ItemType(u), TInt(y)) == SimpleCmp(x, y) <==> IsSigned(t) || y >= 0
  {
    ComparesByValueIff(floats, ItemType(t), TInt(x), ItemType(u), TInt(y));
    hide CompareNumbers;
  }

  // ---- comparison ----

  /** What the comparison finds where it looks for the items of a vector: the items, or only their number, or neither. */
  datatype Access = Items | NumberOnly | Elsewhere

  /** A graph of values with their types. */
  datatype View<!N> = View(shape: N -> Shape<N>, typ: N -> u32, access: N -> Access)

  function LeafOf<N>(x: Shape<N>): Tree {
    if x.Leaf? then x.tree else Bad
  }

  /**
    The comparison functions of values that are not vectors, applied to any second value. Where none of the cases fits,
    the code asserts; with assertions compiled out a string then equals anything, what is no number counts as zero and
    what is no bitvector as one of no bits. Bitvectors are both read by the encoding of the first.
   */
  function CompareLeaf(floats: FloatOrder, group: Group, ta: u32, a: Tree, tb: u32, b: Tree): Outcome {
    match group
    case Texts => if a.TText? && b.TText? then Order(CompareChars(a.text.chars, b.text.chars)) else Order(0)
    case Numbers => Order(CompareNumbers(floats, ta, a, tb, b))
    case Bitvectors =>
      if !a.TBits? then Misread
      else if !b.TBits? then Order(SimpleCmp(|a.bits|, 0))
      else if ta == tb || a.bits == [] || b.bits == [] then Order(CompareBits(a.bits, b.bits))
      else Misread
    case Nulls => Order(0)
    case EmptySlots => Order(0)
    case Sets => NotImplemented
    case Maps => NotImplemented
    case _ => Misread
  }

  ghost function Compare<N, M>(create: bool, floats: FloatOrder, p: View<N>, a: N, q: View<M>, b: M, depth: nat): Outcome
    decreases MAX_DEPTH + 2 - depth, 0
  {
    if depth >= MAX_DEPTH then TooDeep
    else
      var ta, tb := p.typ(a), q.typ(b);
      var group := GroupOf(create, ta);
      if !create && group != GroupOf(create, tb) then Order(SimpleCmp(ta, tb))
      else if group != Vectors then CompareLeaf(floats, group, ta, LeafOf(p.shape(a)), tb, LeafOf(q.shape(b)))
      else if p.access(a) == Elsewhere || q.access(b) == Elsewhere then Misread
      else
        match (p.shape(a), q.shape(b))
        case (Vector(xs), Vector(ys)) =>
          if (p.access(a) == NumberOnly || q.access(b) == NumberOnly) && xs != [] && ys != [] then Misread
          else CompareItems(create, floats, p, xs, q, ys, depth + 2)
        case _ => Misread
  }

  ghost function CompareItems<N, M>(create: bool, floats: FloatOrder, p: View<N>, xs: seq<N>, q: View<M>, ys: seq<M>, depth: nat): Outcome
    requires depth < MAX_DEPTH + 2
    decreases MAX_DEPTH + 2 - depth, 1 + |xs|
  {
    if xs == [] || ys == [] then Order(SimpleCmp(|xs|, |ys|))
    else
      var c := Compare(create, floats, p, xs[0], q, ys[0], depth);
      if c == Order(0) then CompareItems(create, floats, p, xs[1..], q, ys[1..], depth) else c
  }

  // ---- keys ----

  /** What a comparison can tell apart: numbers by value, strings by characters, whatever their types. */
  datatype Key = KNumber(n: int) | KText(chars: seq<u32>) | KBits(bits: seq<bool>) | KNull | KEmptySlot | KVector(items: seq<Key>)

  /** The key of a value; none for floats, sets, maps, and values nested deeper than the tree. */
  function KeyOf(t: Tree): Option<Key> {
    match t
    case TInt(v) => Some(KNumber(v))
    case TBool(flag) => Some(KNumber(flag))
    case TText(x) => if NoZero(x.chars) then Some(KText(x.chars)) else None
    case TBits(bits) => Some(KBits(bits))
    case TNull => Some(KNull)
    case TEmptySlot => Some(KEmptySlot)
    case TVector(items) => (match KeysOf(items) case Some(ks) => Some(KVector(ks)) case None => None)
    case _ => None
  }

  function KeysOf(ts: seq<Tree>): (r: Option<seq<Key>>)
    ensures r.Some? ==> |r.value| == |ts| && forall i :: 0 <= i < |ts| ==> KeyOf(ts[i]) == Some(r.value[i])
    ensures r.None? ==> exists i :: 0 <= i < |ts| && KeyOf(ts[i]) == None
  {
    if ts == [] then Some([])
    else
      match (KeyOf(ts[0]), KeysOf(ts[1..]))
      case (Some(k), Some(ks)) => Some([k] + ks)
      case _ => None
  }

  ghost function KeyAt<N>(p: View<N>, n: N, d: nat): Option<Key> {
    KeyOf(Unfold(p.shape, n, d))
  }

  /** Types and shapes tell the same kind of value. */
  ghost predicate WellTyped<N(!new)>(p: View<N>) {
    forall n :: TypedAt(p.typ(n), p.shape(n))
  }

  ghost predicate TypedAt<N>(t: u32, x: Shape<N>) {
    match x
    case Leaf(tree) => LeafTyped(t, tree)
    case Vector(_) => IsHeapVector(t) || t == VECTOR_EMPTY
    case SetOf(_) => t == SET_VALUE
    case MapOf(_, _) => t == MAP_VALUE_VALUE
    case Broken => true
  }

  ghost predicate LeafTyped(t: u32, tree: Tree) {
    match tree
    case TInt(v) => t == I32 || t == I64 || ((t == U32 || t == U64) && v >= 0)
    case TFloat(_) => t == FLOAT
    case TBool(_) => t == BOOLEAN
    case TNull => t == NULL
    case TEmptySlot => t == EMPTY_SLOT
    case TText(_) => IsText(t)
    case TBits(_) => IsBitvectorType(t)
    case _ => false
  }

  /** Keys the create-time comparison takes for equal: it trusts the first value's type for the second value too. */
  predicate LooseEqual(x: Key, y: Key) {
    match x
    case KNumber(n) => n == if y.KNumber? then y.n else 0
    case KText(chars) => y.KText? ==> chars == y.chars
    case KBits(bits) => bits == if y.KBits? then y.bits else []
    case KNull => true
    case KEmptySlot => true
    case KVector(items) => y.KVector? && |items| == |y.items| && forall i :: 0 <= i < |items| ==> LooseEqual(items[i], y.items[i])
  }

  ghost predicate TakenForEqual(create: bool, x: Key, y: Key) {
    if create then LooseEqual(x, y) else x == y
  }

  /** Any value that has a key, with its type. */
  ghost predicate KeyTyped(t: u32, tree: Tree) {
    LeafTyped(t, tree) || (tree.TVector? && (IsHeapVector(t) || t == VECTOR_EMPTY))
  }

  function GroupOfTree(tree: Tree): Group {
    match tree
    case TInt(_) => Numbers
    case TFloat(_) => Numbers
    case TBool(_) => Numbers
    case TNull => Nulls
    case TEmptySlot => EmptySlots
    case TText(_) => Texts
    case TBits(_) => Bitvectors
    case TVector(_) => Vectors
    case TSet(_) => Sets
    case TMap(_) => Maps
    case _ => Unknown
  }

  lemma TypedGroup(create: bool, t: u32, tree: Tree)
    requires KeyTyped(t, tree)
    ensures GroupOf(create, t) == if create && tree.TInt? && (t == I64 || t == U64) then Unknown else GroupOfTree(tree)
  {
    match tree {
      case TBits(_) =>
      case TText(_) =>
      case TVector(_) =>
      case _ =>
    }
  }

  lemma NumbersCompared(create: bool, floats: FloatOrder, ta: u32, a: Tree, tb: u32, b: Tree, x: Key, y: Key)
    requires KeyTyped(ta, a) && KeyTyped(tb, b) && KeyOf(a) == Some(x) && KeyOf(b) == Some(y) && GroupOfTree(a) == Numbers
    requires create || GroupOfTree(b) == Numbers
    ensures CompareNumbers(floats, ta, a, tb, b) == 0 <==> TakenForEqual(create, x, y)
  {
    hide KeysOf, NoZero;
    assert tb != FLOAT;
  }

  /** A leaf the comparison reads wrongly: two bitvectors of different encodings, or a 64-bit integer at create time. */
  ghost predicate LeafMisled(create: bool, ta: u32, a: Tree, tb: u32, b: Tree) {
    || (a.TBits? && b.TBits? && ta != tb && a.bits != [] && b.bits != [])
    || (create && a.TInt? && (ta == I64 || ta == U64))
  }

  lemma LeavesCompared(create: bool, floats: FloatOrder, ta: u32, a: Tree, tb: u32, b: Tree, x: Key, y: Key)
    requires KeyTyped(ta, a) && KeyTyped(tb, b) && KeyOf(a) == Some(x) && KeyOf(b) == Some(y) && GroupOfTree(a) != Vectors
    requires create || GroupOfTree(a) == GroupOfTree(b)
    ensures var c := CompareLeaf(floats, GroupOfTree(a), ta, a, tb, b);
      && (c == Misread <==> a.TBits? && b.TBits? && ta != tb && a.bits != [] && b.bits != [])
      && (c != Misread ==> c.Order? && (c.sign == 0 <==> TakenForEqual(create, x, y)))
  {
    if GroupOfTree(a) == Numbers {
      NumbersCompared(create, floats, ta, a, tb, b, x, y);
      hide KeyTyped, CompareNumbers, TakenForEqual;
    } else {
      hide KeyTyped, KeysOf, CompareNumbers;
      if a.TText? && b.TText? { CharsEqual(a.text.chars, b.text.chars); }
      if a.TBits? && b.TBits? { BitsEqual(a.bits, b.bits); }
    }
  }

  // ---- when two values compare equal ----

  /** A value with a key is a leaf or a vector of values with keys. */
  lemma KeyedShape<N(!new)>(p: View<N>, n: N, d: nat, x: Key)
    requires WellTyped(p) && KeyAt(p, n, d) == Some(x)
    ensures KeyTyped(p.typ(n), Unfold(p.shape, n, d)) && (p.shape(n).Leaf? || p.shape(n).Vector?)
    ensures p.shape(n).Leaf? ==> p.shape(n).tree == Unfold(p.shape, n, d) && !x.KVector? && GroupOfTree(p.shape(n).tree) != Vectors
    ensures p.shape(n).Vector? ==> Unfold(p.shape, n, d).TVector? && d > 0 && x.KVector? && KeysAt(p, p.shape(n).items, d - 1, x.items)
  {
    assert TypedAt(p.typ(n), p.shape(n));
    if p.shape(n).Vector? {
      assert d > 0 && Unfold(p.shape, n, d) == TVector(UnfoldAll(p.shape, p.shape(n).items, d - 1));
    }
    hide WellTyped, IsHeapVector, IsText;
  }

  ghost predicate KeysAt<N>(p: View<N>, ns: seq<N>, d: nat, ks: seq<Key>) {
    |ks| == |ns| && forall i :: 0 <= i < |ns| ==> KeyAt(p, ns[i], d) == Some(ks[i])
  }

  ghost predicate AllTakenForEqual(create: bool, xs: seq<Key>, ys: seq<Key>) {
    |xs| == |ys| && forall i :: 0 <= i < |xs| ==> TakenForEqual(create, xs[i], ys[i])
  }

  lemma VectorsTaken(create: bool, x: Key, y: Key)
    requires x.KVector? && y.KVector?
    ensures TakenForEqual(create, x, y) <==> AllTakenForEqual(create, x.items, y.items)
  {
  }

  lemma FirstTaken(create: bool, xs: seq<Key>, ys: seq<Key>)
    requires xs != [] && ys != []
    ensures AllTakenForEqual(create, xs, ys) <==> TakenForEqual(create, xs[0], ys[0]) && AllTakenForEqual(create, xs[1..], ys[1..])
  {
    hide TakenForEqual;
    if AllTakenForEqual(create, xs[1..], ys[1..]) && TakenForEqual(create, xs[0], ys[0]) {
      forall i | 0 <= i < |xs|
        ensures TakenForEqual(create, xs[i], ys[i])
      {
        if i > 0 { assert xs[i] == xs[1..][i - 1] && ys[i] == ys[1..][i - 1]; }
      }
    }
  }

  // ---- what the comparison reads wrongly ----

  /** Two values found to be equal so far: they have keys that the comparison takes for equal. */
  ghost predicate Passes<N, M>(create: bool, p: View<N>, a: N, q: View<M>, b: M, d: nat) {
    KeyAt(p, a, d).Some? && KeyAt(q, b, d).Some? && TakenForEqual(create, KeyAt(p, a, d).value, KeyAt(q, b, d).value)
  }

  /** Vectors whose items, or even number of items, are not where the comparison looks for them. */
  ghost predicate OutOfReach<N, M>(p: View<N>, a: N, xs: seq<N>, q: View<M>, b: M, ys: seq<M>) {
    || p.access(a) == Elsewhere || q.access(b) == Elsewhere
    || ((p.access(a) == NumberOnly || q.access(b) == NumberOnly) && xs != [] && ys != [])
  }

  /**
    Before it finds a difference, the comparison comes upon a pair that it reads wrongly: bitvectors of different
    encodings; at create time also a 64-bit integer, a vector against a value that is none, or vectors out of reach.
   */
  ghost predicate Misled<N, M>(create: bool, p: View<N>, a: N, q: View<M>, b: M, d: nat)
    decreases d, 0
  {
    match (p.shape(a), q.shape(b))
    case (Vector(xs), Vector(ys)) => OutOfReach(p, a, xs, q, b, ys) || (d > 0 && ItemsMisled(create, p, xs, q, ys, d - 1))
    case (Vector(_), _) => create
    case (x, y) => LeafMisled(create, p.typ(a), LeafOf(x), q.typ(b), LeafOf(y))
  }

  ghost predicate ItemsMisled<N, M>(create: bool, p: View<N>, xs: seq<N>, q: View<M>, ys: seq<M>, d: nat)
    decreases d, 1
  {
    exists i :: 0 <= i < |xs| && i < |ys| && Misled(create, p, xs[i], q, ys[i], d)
      && forall j :: 0 <= j < i ==> Passes(create, p, xs[j], q, ys[j], d)
  }

  lemma MisledAfterFirst<N, M>(create: bool, p: View<N>, xs: seq<N>, q: View<M>, ys: seq<M>, d: nat)
    requires xs != [] && ys != [] && ItemsMisled(create, p, xs, q, ys, d)
    ensures Misled(create, p, xs[0], q, ys[0], d) || (Passes(create, p, xs[0], q, ys[0], d) && ItemsMisled(create, p, xs[1..], q, ys[1..], d))
  {
    hide Misled, Passes;
    var i :| 0 <= i < |xs| && i < |ys| && Misled(create, p, xs[i], q, ys[i], d) && forall j :: 0 <= j < i ==> Passes(create, p, xs[j], q, ys[j], d);
    if i > 0 {
      assert xs[1..][i - 1] == xs[i] && ys[1..][i - 1] == ys[i];
      assert forall j :: 0 <= j < i - 1 ==> xs[1..][j] == xs[j + 1] && ys[1..][j] == ys[j + 1];
    }
  }

  lemma FirstThenMisled<N, M>(create: bool, p: View<N>, xs: seq<N>, q: View<M>, ys: seq<M>, d: nat)
    requires xs != [] && ys != [] && Passes(create, p, xs[0], q, ys[0], d) && ItemsMisled(create, p, xs[1..], q, ys[1..], d)
    ensures ItemsMisled(create, p, xs, q, ys, d)
  {
    hide Misled, Passes;
    var i :| 0 <= i < |xs[1..]| && i < |ys[1..]| && Misled(create, p, xs[1..][i], q, ys[1..][i], d)
      && forall j :: 0 <= j < i ==> Passes(create, p, xs[1..][j], q, ys[1..][j], d);
    assert Misled(create, p, xs[i + 1], q, ys[i + 1], d);
    forall j | 0 <= j < i + 1
      ensures Passes(create, p, xs[j], q, ys[j], d)
    {
      if j > 0 { assert xs[j] == xs[1..][j - 1] && ys[j] == ys[1..][j - 1]; }
    }
  }

  lemma FirstMisled<N, M>(create: bool, p: View<N>, xs: seq<N>, q: View<M>, ys: seq<M>, d: nat)
    requires xs != [] && ys != []
    ensures ItemsMisled(create, p, xs, q, ys, d) <==>
      Misled(create, p, xs[0], q, ys[0], d) || (Passes(create, p, xs[0], q, ys[0], d) && ItemsMisled(create, p, xs[1..], q, ys[1..], d))
  {
    if Misled(create, p, xs[0], q, ys[0], d) {
      hide Misled, Passes;
      assert ItemsMisled(create, p, xs, q, ys, d);
    } else {
      hide *;
      if ItemsMisled(create, p, xs, q, ys, d) { MisledAfterFirst(create, p, xs, q, ys, d); }
      if Passes(create, p, xs[0], q, ys[0], d) && ItemsMisled(create, p, xs[1..], q, ys[1..], d) { FirstThenMisled(create, p, xs, q, ys, d); }
    }
  }

  /** The outcome is right: no value is misread, and zero stands for equality. */
  ghost predicate Right(c: Outcome, misled: bool, same: bool) {
    && (c == Misread <==> misled)
    && (!misled ==> c.Order? && (c.sign == 0 <==> same))
  }

  // ---- the outcome of a comparison ----

  /** The comparison of values of which at most one is a vector. */
  lemma NotBothVectors<N(!new), M(!new)>(create: bool, floats: FloatOrder, p: View<N>, a: N, q: View<M>, b: M, depth: nat, d: nat, x: Key, y: Key)
    requires WellTyped(p) && WellTyped(q) && KeyAt(p, a, d) == Some(x) && KeyAt(q, b, d) == Some(y) && depth < MAX_DEPTH
    requires !(p.shape(a).Vector? && q.shape(b).Vector?)
    ensures Right(Compare(create, floats, p, a, q, b, depth), Misled(create, p, a, q, b, d), TakenForEqual(create, x, y))
  {
    hide WellTyped, KeyTyped, GroupOf, Unfold, CompareItems, ItemsMisled, KeyAt, LooseEqual, CompareLeaf, KeyOf;
    KeyedShape(p, a, d, x);
    KeyedShape(q, b, d, y);
    KeyIsOfTree(p, a, d, x);
    KeyIsOfTree(q, b, d, y);
    var ta, tb := p.typ(a), q.typ(b);
    var s, t := Unfold(p.shape, a, d), Unfold(q.shape, b, d);
    TypedGroup(create, ta, s);
    TypedGroup(create, tb, t);
    if p.shape(a).Leaf? {
      LeafAgainstAny(create, floats, ta, s, tb, t, LeafOf(q.shape(b)), x, y);
    } else if !create {
      GroupsTellKeysApart(s, t);
    }
  }

  lemma KeyIsOfTree<N>(p: View<N>, n: N, d: nat, x: Key)
    requires KeyAt(p, n, d) == Some(x)
    ensures KeyOf(Unfold(p.shape, n, d)) == Some(x)
  {
  }

  lemma VectorReadsAsNothing(floats: FloatOrder, ta: u32, a: Tree, tb: u32, b: Tree)
    requires KeyTyped(ta, a) && KeyTyped(tb, b) && KeyOf(a).Some? && KeyOf(b).Some?
    ensures b.TVector? ==> CompareLeaf(floats, GroupOfTree(a), ta, a, tb, b) == CompareLeaf(floats, GroupOfTree(a), ta, a, tb, Bad)
  {
    hide KeysOf;
  }

  lemma GroupsTellKeysApart(a: Tree, b: Tree)
    requires KeyOf(a).Some? && KeyOf(b).Some?
    ensures KeyOf(a) == KeyOf(b) ==> GroupOfTree(a) == GroupOfTree(b)
  {
    hide KeysOf, NoZero;
  }

  ghost function LeafOutcome(create: bool, floats: FloatOrder, ta: u32, a: Tree, tb: u32, b: Tree): Outcome {
    if !create && GroupOf(create, ta) != GroupOf(create, tb) then Order(SimpleCmp(ta, tb))
    else CompareLeaf(floats, GroupOf(create, ta), ta, a, tb, b)
  }

  /** A leaf against a leaf, or against a vector, which has no leaf to read. */
  lemma LeafAgainstAny(create: bool, floats: FloatOrder, ta: u32, a: Tree, tb: u32, b: Tree, leaf: Tree, x: Key, y: Key)
    requires KeyTyped(ta, a) && KeyTyped(tb, b) && KeyOf(a) == Some(x) && KeyOf(b) == Some(y) && GroupOfTree(a) != Vectors
    requires leaf == if b.TVector? then Bad else b
    ensures Right(LeafOutcome(create, floats, ta, a, tb, leaf), LeafMisled(create, ta, a, tb, leaf), TakenForEqual(create, x, y))
  {
    hide KeyTyped, GroupOf, KeyOf, CompareNumbers, CompareChars, CompareBits;
    TypedGroup(create, ta, a);
    TypedGroup(create, tb, b);
    if create || GroupOfTree(a) == GroupOfTree(b) {
      LeavesCompared(create, floats, ta, a, tb, b, x, y);
      VectorReadsAsNothing(floats, ta, a, tb, b);
    } else {
      GroupsTellKeysApart(a, b);
    }
  }

  /**
    For values with keys, the comparison misreads exactly when it is misled. Otherwise the reader reports equality
    exactly when the values have one key, and the create API exactly when their keys are loosely equal.
   */
  lemma {:induction false} ComparedExactly<N(!new), M(!new)>(create: bool, floats: FloatOrder, p: View<N>, a: N, q: View<M>, b: M,
                                                            depth: nat, d: nat, x: Key, y: Key)
    requires WellTyped(p) && WellTyped(q) && KeyAt(p, a, d) == Some(x) && KeyAt(q, b, d) == Some(y) && depth + 2 * d < MAX_DEPTH
    ensures Right(Compare(create, floats, p, a, q, b, depth), Misled(create, p, a, q, b, d), TakenForEqual(create, x, y))
    decreases d, 1, 0
  {
    hide WellTyped, KeyTyped, GroupOf, Unfold, CompareItems, TakenForEqual, KeyAt, KeysAt, AllTakenForEqual, ItemsMisled, CompareLeaf;
    if p.shape(a).Vector? && q.shape(b).Vector? {
      KeyedShape(p, a, d, x);
      KeyedShape(q, b, d, y);
      ItemsComparedExactly(create, floats, p, p.shape(a).items, q, q.shape(b).items, depth + 2, d - 1, x.items, y.items);
      VectorsTaken(create, x, y);
      VectorGroup(p, a, create);
      VectorGroup(q, b, create);
    } else {
      NotBothVectors(create, floats, p, a, q, b, depth, d, x, y);
    }
  }

  lemma VectorGroup<N(!new)>(p: View<N>, n: N, create: bool)
    requires WellTyped(p) && p.shape(n).Vector?
    ensures GroupOf(create, p.typ(n)) == Vectors
  {
    assert TypedAt(p.typ(n), p.shape(n));
  }

  lemma {:induction false} ItemsComparedExactly<N(!new), M(!new)>(create: bool, floats: FloatOrder, p: View<N>, xs: seq<N>, q: View<M>, ys: seq<M>,
                                                                 depth: nat, d: nat, kx: seq<Key>, ky: seq<Key>)
    requires WellTyped(p) && WellTyped(q) && KeysAt(p, xs, d, kx) && KeysAt(q, ys, d, ky) && depth + 2 * d < MAX_DEPTH
    ensures Right(CompareItems(create, floats, p, xs, q, ys, depth), ItemsMisled(create, p, xs, q, ys, d), AllTakenForEqual(create, kx, ky))
    decreases d, 2, |xs|
  {
    hide WellTyped, KeyAt, TakenForEqual, Compare, Misled;
    if xs != [] && ys != [] {
      ComparedExactly(create, floats, p, xs[0], q, ys[0], depth, d, kx[0], ky[0]);
      ItemsComparedExactly(create, floats, p, xs[1..], q, ys[1..], depth, d, kx[1..], ky[1..]);
      FirstTaken(create, kx, ky);
      FirstMisled(create, p, xs, q, ys, d);
      assert Passes(create, p, xs[0], q, ys[0], d) <==> TakenForEqual(create, kx[0], ky[0]);
    }
  }
}

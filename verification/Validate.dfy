/**
  The first validation pass: a depth-first walk over all that can be reached from the root, marking containers,
  that checks the reference, the data word and the heap extent of every value it meets.
 */
module Validate {
  import opened Wrappers
  import opened PowersOfTwo
  import opened Bitvector
  import opened Unfolding
  import opened Values
  import opened CreateState
  import opened Bytes
  import opened Heap
  import opened Reader
  import opened Copying

  const MAX_DEPTH: nat := 512

  // ---- the checks on one value ----

  function HeapLength(buf: bytes): nat
    requires Opens(buf)
  {
    |buf| - HeapBase(buf)
  }

  /** The value refers to an entry of its table, if it has one. */
  predicate ReferenceOk(buf: bytes, r: RValue)
    requires Opens(buf)
  {
    if IsText(r.typ) then r.data < TextCount(buf)
    else if IsHeapVector(r.typ) then r.data < VectorCount(buf)
    else if r.typ == BITVECTOR then r.data < BitvectorCount(buf)
    else if r.typ == SET_VALUE then r.data < SetCount(buf)
    else if r.typ == MAP_VALUE_VALUE then r.data < MapCount(buf)
    else IsInline(r.typ)
  }

  /** The data word of an inline value is one the library would write. */
  predicate InlineOk(r: RValue) {
    && CleanWord(r.typ, r.data)
    && IsKnown(r.typ) && r.data < 0x1_0000_0000
  }

  /** n bytes fit on the heap after an offset; the sum is formed in 64 bits and must not overflow. */
  predicate FitsHeap(buf: bytes, offset: nat, n: nat)
    requires Opens(buf)
  {
    offset + n < 0x1_0000_0000_0000_0000 && offset + n <= HeapLength(buf)
  }

  function OffsetOf(buf: bytes, i: nat): nat
    requires Opens(buf) && i < ObjectCount(buf)
  {
    Word(buf, HEADER_SIZE + 8 * i, 8)
  }

  predicate VectorHeapOk(buf: bytes, t: u32, i: nat)
    requires Opens(buf) && i < ObjectCount(buf) && IsHeapVector(t)
  {
    FitsHeap(buf, OffsetOf(buf, i), 4) && FitsHeap(buf, OffsetOf(buf, i), 4 + Width(t) * Word(buf, ObjectAt(buf, i), 4))
  }

  predicate BitvectorHeapOk(buf: bytes, i: nat)
    requires Opens(buf) && i < ObjectCount(buf)
  {
    FitsHeap(buf, OffsetOf(buf, i), 4) && FitsHeap(buf, OffsetOf(buf, i), 4 + CeilDiv8(Word(buf, ObjectAt(buf, i), 4)))
  }

  /** All characters but the last are not zero, and the last is. */
  predicate TextHeapOk(buf: bytes, w: nat, i: nat)
    requires Opens(buf) && i < ObjectCount(buf) && (w == 1 || w == 4)
  {
    && FitsHeap(buf, OffsetOf(buf, i), 4)
    && var n := Word(buf, ObjectAt(buf, i), 4);
    && FitsHeap(buf, OffsetOf(buf, i), 4 + (n + 1) * w)
    && 0 !in CharsAt(buf, w, ObjectAt(buf, i) + 4, n)
    && Word(buf, ObjectAt(buf, i) + 4 + w * n, w) == 0
  }

  predicate SetHeapOk(buf: bytes, i: nat)
    requires Opens(buf) && i < ObjectCount(buf)
  {
    && FitsHeap(buf, OffsetOf(buf, i), 24)
    && ValueAt(buf, ObjectAt(buf, i) + 8).typ == VECTOR_U32
    && ValueAt(buf, ObjectAt(buf, i) + 16).typ == VECTOR_VALUE_HASHABLE
  }

  predicate MapHeapOk(buf: bytes, i: nat)
    requires Opens(buf) && i < ObjectCount(buf)
  {
    && FitsHeap(buf, OffsetOf(buf, i), 32)
    && ValueAt(buf, ObjectAt(buf, i) + 8).typ == VECTOR_U32
    && ValueAt(buf, ObjectAt(buf, i) + 16).typ == VECTOR_VALUE_HASHABLE
    && IsValueVector(ValueAt(buf, ObjectAt(buf, i) + 24).typ)
  }

  /** The place of an object in the offset tables taken together. */
  function TableIndex(buf: bytes, r: RValue): (i: nat)
    requires Opens(buf) && ReferenceOk(buf, r) && !IsInline(r.typ)
    ensures i < ObjectCount(buf)
  {
    if IsText(r.typ) then r.data
    else if IsHeapVector(r.typ) then TextCount(buf) + r.data
    else if r.typ == BITVECTOR then TextCount(buf) + VectorCount(buf) + r.data
    else if r.typ == SET_VALUE then TextCount(buf) + VectorCount(buf) + BitvectorCount(buf) + r.data
    else TextCount(buf) + VectorCount(buf) + BitvectorCount(buf) + SetCount(buf) + r.data
  }

  /** The object of the value lies on the heap, and has the form its type calls for. */
  predicate HeapOk(buf: bytes, r: RValue)
    requires Opens(buf) && ReferenceOk(buf, r)
  {
    if IsInline(r.typ) then true
    else
      var i := TableIndex(buf, r);
      if IsHeapVector(r.typ) then VectorHeapOk(buf, r.typ, i)
      else if IsText(r.typ) then TextHeapOk(buf, if r.typ == STRING then 1 else 4, i)
      else if r.typ == BITVECTOR then BitvectorHeapOk(buf, i)
      else if r.typ == SET_VALUE then SetHeapOk(buf, i)
      else MapHeapOk(buf, i)
  }

  /** A value that pass 1 has nothing to say against. */
  predicate Passes(buf: bytes, r: RValue)
    requires Opens(buf)
  {
    ReferenceOk(buf, r) && InlineOk(r) && HeapOk(buf, r)
  }

  // ---- the children a walk goes on to ----

  /** The containers that are marked when they are visited. */
  function MarkOf(r: RValue): Option<Place> {
    if IsValueVector(r.typ) then Some(Place(PrivateVector, r.data))
    else if r.typ == SET_VALUE then Some(Place(SetTable, r.data))
    else if r.typ == MAP_VALUE_VALUE then Some(Place(MapTable, r.data))
    else None
  }

  function ItemValues(buf: bytes, at: nat, n: nat): (r: seq<RValue>)
    requires Within(buf, at, 8 * n)
    ensures |r| == n
  {
    seq(n, i requires 0 <= i < n => ValueAt(buf, at + 8 * i))
  }

  /** The items of a vector of values; the vectors, not the items, of a set or map. */
  function Children(buf: bytes, r: RValue): seq<RValue>
    requires Opens(buf) && Passes(buf, r)
  {
    if IsValueVector(r.typ) then
      var at := ObjectAt(buf, TableIndex(buf, r));
      ItemValues(buf, at + 4, Word(buf, at, 4))
    else if r.typ == SET_VALUE then
      var at := ObjectAt(buf, TableIndex(buf, r));
      [ValueAt(buf, at + 8), ValueAt(buf, at + 16)]
    else if r.typ == MAP_VALUE_VALUE then
      var at := ObjectAt(buf, TableIndex(buf, r));
      [ValueAt(buf, at + 8), ValueAt(buf, at + 16), ValueAt(buf, at + 24)]
    else []
  }

  /** Values with one mark pass or fail the heap check together and have the same children. */
  lemma OneMarkOneFamily(buf: bytes, r: RValue, r': RValue)
    requires Opens(buf) && MarkOf(r).Some? && MarkOf(r) == MarkOf(r')
    ensures Passes(buf, r) == Passes(buf, r')
    ensures Passes(buf, r) ==> Children(buf, r) == Children(buf, r')
  {
    hide ObjectAt, OffsetOf, Word, TextCount, VectorCount, BitvectorCount, SetCount, MapCount, ObjectCount, SetHeapOk, MapHeapOk, FitsHeap;
  }

  // ---- reachability ----

  /** T holds the children of each of its values that passes. */
  ghost predicate ClosedSet(buf: bytes, T: iset<RValue>)
    requires Opens(buf)
  {
    forall r :: r in T && Passes(buf, r) ==> forall k :: k in Children(buf, r) ==> k in T
  }

  ghost predicate ReachableFrom(buf: bytes, root: RValue, r: RValue)
    requires Opens(buf)
  {
    forall T: iset<RValue> :: root in T && ClosedSet(buf, T) ==> r in T
  }

  lemma ChildReachable(buf: bytes, root: RValue, r: RValue, k: RValue)
    requires Opens(buf) && ReachableFrom(buf, root, r) && Passes(buf, r) && k in Children(buf, r)
    ensures ReachableFrom(buf, root, k)
  {
    hide Passes, Children;
  }

  /** A chain of values from the root, each a child of the one before. */
  ghost predicate IsPath(buf: bytes, root: RValue, path: seq<RValue>)
    requires Opens(buf)
  {
    && path != [] && path[0] == root
    && forall i :: 0 <= i < |path| - 1 ==> Passes(buf, path[i]) && path[i + 1] in Children(buf, path[i])
  }

  // ---- the walk ----

  datatype Verdict = NoError | TooDeep | Refused(r: RValue)

  /** Why the walk stopped: a chain of more than 512 values, or a reachable value that does not pass. */
  ghost predicate Justified(buf: bytes, root: RValue, error: Verdict)
    requires Opens(buf)
  {
    match error
    case NoError => true
    case TooDeep => exists path :: IsPath(buf, root, path) && |path| == MAX_DEPTH + 1
    case Refused(r) => ReachableFrom(buf, root, r) && !Passes(buf, r)
  }

  /** Some value that was seen has mark p. */
  ghost predicate SeenAt(seen: set<RValue>, p: Place) {
    exists r :: r in seen && MarkOf(r) == Some(p)
  }

  ghost predicate ChildrenSeen(buf: bytes, seen: set<RValue>, r: RValue)
    requires Opens(buf) && Passes(buf, r)
  {
    forall k :: k in Children(buf, r) ==> k in seen
  }

  /**
    What has been seen passes and is reachable, is marked if it is a container, and has had its children seen
    unless its container is still being expanded. No container has been expanded twice.
   */
  ghost predicate Walked(buf: bytes, root: RValue, marks: set<Place>, seen: set<RValue>, expanded: seq<Place>, open: set<Place>)
    requires Opens(buf)
  {
    && (forall r :: r in seen ==> Passes(buf, r) && ReachableFrom(buf, root, r))
    && (forall r :: r in seen && MarkOf(r).Some? ==> MarkOf(r).value in marks)
    && (forall r :: r in seen && MarkOf(r).Some? && MarkOf(r).value !in open ==> ChildrenSeen(buf, seen, r))
    && (forall p :: p in marks ==> SeenAt(seen, p) && p in expanded)
    && (forall i :: 0 <= i < |expanded| ==> expanded[i] in marks)
    && (forall i, j :: 0 <= i < j < |expanded| ==> expanded[i] != expanded[j])
  }

  lemma MoveUp(buf: bytes, root: RValue, marks: set<Place>, seen: set<RValue>, expanded: seq<Place>, open: set<Place>, r: RValue)
    requires Opens(buf) && Walked(buf, root, marks, seen, expanded, open) && ReachableFrom(buf, root, r)
    requires MarkOf(r).Some? && MarkOf(r).value in marks
    ensures Passes(buf, r) && Walked(buf, root, marks, seen + {r}, expanded, open)
  {
    hide Passes, Children, ReachableFrom;
    assert SeenAt(seen, MarkOf(r).value);
    var r0 :| r0 in seen && MarkOf(r0) == MarkOf(r);
    OneMarkOneFamily(buf, r, r0);
  }

  lemma SeeLeaf(buf: bytes, root: RValue, marks: set<Place>, seen: set<RValue>, expanded: seq<Place>, open: set<Place>, r: RValue)
    requires Opens(buf) && Walked(buf, root, marks, seen, expanded, open) && ReachableFrom(buf, root, r)
    requires MarkOf(r) == None && Passes(buf, r)
    ensures Children(buf, r) == [] && Walked(buf, root, marks, seen + {r}, expanded, open)
  {
    assert Children(buf, r) == [];
    hide Passes, Children, ReachableFrom;
  }

  lemma Expand(buf: bytes, root: RValue, marks: set<Place>, seen: set<RValue>, expanded: seq<Place>, open: set<Place>, r: RValue, p: Place)
    requires Opens(buf) && Walked(buf, root, marks, seen, expanded, open) && ReachableFrom(buf, root, r)
    requires MarkOf(r) == Some(p) && p !in marks && Passes(buf, r)
    ensures Walked(buf, root, marks + {p}, seen + {r}, expanded + [p], open + {p})
  {
    hide Passes, Children, ReachableFrom, MarkOf;
    assert (expanded + [p])[|expanded|] == p;
    forall q | q in marks + {p} ensures SeenAt(seen + {r}, q) && q in expanded + [p] {
      if q != p {
        assert SeenAt(seen, q);
        var r0 :| r0 in seen && MarkOf(r0) == Some(q);
        assert r0 in seen + {r};
        assert q in expanded;
      }
    }
  }

  lemma Expanded(buf: bytes, root: RValue, marks: set<Place>, seen: set<RValue>, expanded: seq<Place>, open: set<Place>, r: RValue, p: Place)
    requires Opens(buf) && Walked(buf, root, marks, seen, expanded, open + {p}) && p !in open
    requires r in seen && MarkOf(r) == Some(p) && Passes(buf, r) && ChildrenSeen(buf, seen, r)
    ensures Walked(buf, root, marks, seen, expanded, open)
  {
    hide Passes, Children, ReachableFrom;
    forall r0 | r0 in seen && MarkOf(r0) == Some(p) ensures ChildrenSeen(buf, seen, r0) {
      OneMarkOneFamily(buf, r, r0);
    }
    hide MarkOf;
  }

  class Validator {
    const buf: bytes
    var marks: set<Place>
    var error: Verdict
    ghost var seen: set<RValue>
    ghost var expanded: seq<Place>

    constructor (buf: bytes)
      ensures this.buf == buf && marks == {} && error == NoError && seen == {} && expanded == []
    {
      this.buf, marks, error, seen, expanded := buf, {}, NoError, {}, [];
    }

    /** The walk so far, with the containers in `open` still being expanded. */
    ghost predicate Walking(root: RValue, open: set<Place>)
      reads this
    {
      Opens(buf) && error == NoError && Walked(buf, root, marks, seen, expanded, open) && open <= marks
    }

    /** Visits r and all below it that has not been visited before; stops at the first error. */
    method Walk(r: RValue, depth: nat, ghost root: RValue, ghost path: seq<RValue>, ghost open: set<Place>) returns (stop: bool)
      requires Walking(root, open) && ReachableFrom(buf, root, r)
      requires depth <= MAX_DEPTH && |path| == depth + 1 && IsPath(buf, root, path) && path[depth] == r
      modifies this
      ensures stop <==> error != NoError
      ensures stop ==> Opens(buf) && Justified(buf, root, error)
      ensures !stop ==> Walking(root, open) && r in seen && old(seen) <= seen && old(marks) <= marks
      decreases MAX_DEPTH - depth
    {
      hide Passes, Children, ReachableFrom, Walked, IsPath;
      if depth >= MAX_DEPTH {
        error := TooDeep;
        return true;
      }
      stop := true;
      var p := MarkOf(r);
      if !ReferenceOk(buf, r) {
        assert !Passes(buf, r) by { Unpassed(buf, r); }
        error := Refused(r);
        return;
      }
      if p.Some? && p.value in marks {
        MoveUp(buf, root, marks, seen, expanded, open, r);
        seen := seen + {r};
        return false;
      }
      if !InlineOk(r) || !HeapOk(buf, r) {
        assert !Passes(buf, r) by { Unpassed(buf, r); }
        error := Refused(r);
        return;
      }
      assert Passes(buf, r) by { Unpassed(buf, r); }
      if p.Some? {
        stop := WalkChildren(r, depth, root, path, open, p.value);
      } else {
        SeeLeaf(buf, root, marks, seen, expanded, open, r);
        seen := seen + {r};
        stop := false;
      }
    }

    method WalkChildren(r: RValue, depth: nat, ghost root: RValue, ghost path: seq<RValue>, ghost open: set<Place>, p: Place) returns (stop: bool)
      requires Walking(root, open) && ReachableFrom(buf, root, r) && Passes(buf, r) && MarkOf(r) == Some(p) && p !in marks
      requires depth < MAX_DEPTH && |path| == depth + 1 && IsPath(buf, root, path) && path[depth] == r
      modifies this
      ensures stop <==> error != NoError
      ensures stop ==> Opens(buf) && Justified(buf, root, error)
      ensures !stop ==> Walking(root, open) && r in seen && old(seen) <= seen && old(marks) <= marks
      decreases MAX_DEPTH - depth, 0
    {
      hide Passes, Children, ReachableFrom, Walked, IsPath, Justified;
      Expand(buf, root, marks, seen, expanded, open, r, p);
      marks, seen, expanded := marks + {p}, seen + {r}, expanded + [p];
      var kids := Children(buf, r);
      for i := 0 to |kids|
        invariant Walking(root, open + {p}) && r in seen && old(seen) <= seen && old(marks) <= marks
        invariant forall j :: 0 <= j < i ==> kids[j] in seen
      {
        ChildReachable(buf, root, r, kids[i]);
        LongerPath(buf, root, path, kids[i]);
        stop := Walk(kids[i], depth + 1, root, path + [kids[i]], open + {p});
        if stop {
          return;
        }
      }
      Expanded(buf, root, marks, seen, expanded, open, r, p);
      stop := false;
    }
  }

  lemma Unpassed(buf: bytes, r: RValue)
    requires Opens(buf)
    ensures Passes(buf, r) <==> ReferenceOk(buf, r) && InlineOk(r) && HeapOk(buf, r)
  {
  }

  lemma LongerPath(buf: bytes, root: RValue, path: seq<RValue>, k: RValue)
    requires Opens(buf) && IsPath(buf, root, path) && Passes(buf, path[|path| - 1]) && k in Children(buf, path[|path| - 1])
    ensures IsPath(buf, root, path + [k])
  {
    hide Passes, Children;
  }

  /** Everything in S passes and leads to S only. */
  ghost predicate PassedSet(buf: bytes, S: set<RValue>)
    requires Opens(buf)
  {
    forall r :: r in S ==> Passes(buf, r) && ChildrenSeen(buf, S, r)
  }

  lemma AllReachableSeen(buf: bytes, root: RValue, marks: set<Place>, seen: set<RValue>, expanded: seq<Place>)
    requires Opens(buf) && Walked(buf, root, marks, seen, expanded, {}) && root in seen
    ensures PassedSet(buf, seen) && forall r :: ReachableFrom(buf, root, r) <==> r in seen
  {
    hide Passes, Children;
    var T := iset r | r in seen;
    assert ClosedSet(buf, T) && PassedSet(buf, seen) by {
      forall r | r in T && Passes(buf, r) ensures ChildrenSeen(buf, seen, r) {
        if MarkOf(r).Some? { assert ChildrenSeen(buf, seen, r); } else { LeafHasNoChildren(buf, r); }
      }
    }
  }

  lemma LeafHasNoChildren(buf: bytes, r: RValue)
    requires Opens(buf) && Passes(buf, r) && MarkOf(r) == None
    ensures Children(buf, r) == []
  {
  }

  /**
    Pass 1. Without an error, just the values that can be reached from the root were visited, and all of them
    pass; an error names a reachable value that does not, or a chain that is too long.
   */
  method ValidatePass1(buf: bytes) returns (error: Verdict, ghost seen: set<RValue>, ghost expanded: seq<Place>)
    requires Opens(buf)
    ensures Justified(buf, Root(buf), error)
    ensures error == NoError ==> forall r :: ReachableFrom(buf, Root(buf), r) <==> r in seen
    ensures error == NoError ==> PassedSet(buf, seen)
    ensures error == NoError ==> forall i, j :: 0 <= i < j < |expanded| ==> expanded[i] != expanded[j]
  {
    hide Passes, Children;
    var w := new Validator(buf);
    var root := Root(buf);
    assert ReachableFrom(buf, root, root);
    assert IsPath(buf, root, [root]);
    var stop := w.Walk(root, 0, root, [root], {});
    error, seen, expanded := w.error, w.seen, w.expanded;
    if !stop {
      AllReachableSeen(buf, root, w.marks, seen, expanded);
    }
  }
}

/**
  The last validation pass with the library's own hash and comparison: a written set or map of different keys, none
  of which is misread for another, passes.
 */
module WrittenKeys {
  import opened Wrappers
  import opened PowersOfTwo
  import opened Bitvector
  import opened Unfolding
  import opened Values
  import opened CreateState
  import opened Bytes
  import opened Heap
  import opened Reader
  import opened ReadBack
  import opened RoundTrip
  import opened Tables
  import opened CreatePasses
  import opened LaidOutTables
  import opened WrittenLookup
  import opened WrittenTables
  import opened ValueHash
  import opened ValueComparison
  import opened KeyComparison
  import opened TableComparison
  import WrittenPasses
  import HashValidate
  import HashTable

  /** The hash of a value in the buffer, for vectors nested at most d deep. */
  ghost function HashInBuffer(buf: bytes, fh: FloatHash, d: nat): HashFunction
    requires Opens(buf)
  {
    (r: RValue) => match ReadNodeHash(buf, fh, Ref(r), d) case Some(x) => x case None => 0
  }

  ghost function CompareInBuffer(buf: bytes, floats: FloatOrder): ReadComparator
    requires Opens(buf)
  {
    (x: RValue, y: RValue) => Judged(Compare(false, floats, ReadView(buf), Ref(x), ReadView(buf), Ref(y), 0))
  }

  ghost function HashableType(): Hashable {
    (r: RValue) => IsHashable(r.typ)
  }

  ghost predicate AllHashable(t: State, handles: seq<int>, d: nat) {
    AllPublic(t, handles) && forall a :: 0 <= a < |handles| ==> HashableTo(CGraph(t), m => CreateHashable(t, m), Ref(handles[a]), d)
  }

  /** In the buffer no key is misread when it is compared with one of the same hash. */
  ghost predicate ReadsApart(t: State, buf: bytes, hash: int -> u32, handles: seq<int>, d: nat)
    requires Opens(buf)
  {
    forall a, b :: 0 <= a < |handles| && 0 <= b < |handles| && hash(handles[a]) == hash(handles[b]) ==>
      !Misled(false, ReadView(buf), Ref(AsRead(t)(handles[a])), ReadView(buf), Ref(AsRead(t)(handles[b])), d)
  }

  /** A value that is no vector has a hash exactly if its type can be hashed; a vector only if. */
  lemma HashedTypes(s: State, fh: FloatHash, h: int, d: nat)
    requires Good(s) && IsPublic(s, h)
    ensures CreateNodeHash(s, fh, Ref(h), d).Some? ==> IsHashable(s.values[h].typ)
    ensures !IsHeapVector(s.values[h].typ) && s.values[h].typ != VECTOR_EMPTY ==> (CreateNodeHash(s, fh, Ref(h), d).Some? <==> IsHashable(s.values[h].typ))
  {
    assert GoodValue(s, h);
    HashedIff(CGraph(s), (m: Node<int>) => CreateHashable(s, m), fh, Ref(h), d);
    hide Good, NodeHash, InlineShape, GoodItems, GoodSet, GoodMap;
    if IsInline(s.values[h].typ) && s.values[h].typ != VECTOR_EMPTY { InlineIsLeaf(s.values[h].typ, s.values[h].data); }
  }

  lemma InlineIsLeaf(t: u32, data: u32)
    requires IsInline(t) && t != VECTOR_EMPTY
    ensures InlineShape<Node<int>>(t, data).Leaf? && IsHashableLeaf(InlineShape<Node<int>>(t, data).tree)
  {
    hide Decode;
  }

  /** A key is read from the buffer as the key it was created as. */
  lemma KeyIsRead(t: State, root: int, k: int, d: nat)
    requires Writable(t) && IsHandle(t, root) && IsPublic(t, k)
    ensures Opens(Serialized(t, root)) && KeyAt(ReadView(Serialized(t, root)), Ref(ToRead(t, k)), d) == KeyAt(CreateView(t), Ref(k), d)
  {
    HeaderReads(t, root);
    hide Writable, Opens, ToRead, Serialized, Bisimulation, Root, KeyOf;
    SameIsBisimulation(t, root);
    assert Same(t, Ref(k), Ref(ToRead(t, k)));
    BisimilarUnfoldAlike(CGraph(t), RGraph(Serialized(t, root)), SameIn(t), Ref(k), Ref(ToRead(t, k)), d);
  }

  lemma HashableIsType(t: State, k: int, d: nat)
    requires IsPublic(t, k) && HashableTo(CGraph(t), m => CreateHashable(t, m), Ref(k), d)
    ensures IsHashable(ToRead(t, k).typ)
  {
    hide InlineShape;
  }

  lemma KeyHashIsRead(t: State, root: int, fh: FloatHash, k: int, d: nat, key: Key)
    requires Writable(t) && IsHandle(t, root) && IsPublic(t, k) && KeyAt(CreateView(t), Ref(k), d) == Some(key)
    requires HashableTo(CGraph(t), m => CreateHashable(t, m), Ref(k), d)
    ensures Opens(Serialized(t, root)) && ReadNodeHash(Serialized(t, root), fh, Ref(ToRead(t, k)), d) == Some(HashKey(key))
  {
    hide Writable, Serialized, Opens, KeyAt, NodeHash, HashableTo, HashKey, ToRead, WellTyped;
    HeaderOpens(t, root);
    HashesAgree(t, root, fh, Ref(k), Ref(ToRead(t, k)), d);
    KeyIsRead(t, root, k, d);
    ReadViewWellTyped(Serialized(t, root));
    HashOfKey(ReadView(Serialized(t, root)), m => ReadHashable(m), fh, Ref(ToRead(t, k)), d, key);
  }

  lemma PairIsRead(floats: FloatOrder, fh: FloatHash, buf: bytes, x: RValue, y: RValue, d: nat, kx: Key, ky: Key, same: bool)
    requires Opens(buf) && 2 * d < MAX_DEPTH && (kx == ky <==> same)
    requires KeyAt(ReadView(buf), Ref(x), d) == Some(kx) && KeyAt(ReadView(buf), Ref(y), d) == Some(ky)
    requires !Misled(false, ReadView(buf), Ref(x), ReadView(buf), Ref(y), d)
    ensures HashValidate.SeparatesPair(CompareInBuffer(buf, floats), x, y, same)
  {
    hide Compare, KeyAt, WellTyped, Opens, Misled;
    ReadViewWellTyped(buf);
    ComparedExactly(false, floats, ReadView(buf), Ref(x), ReadView(buf), Ref(y), 0, d, kx, ky);
  }

  lemma KeysReadFineInBuffer(t: State, root: int, buf: bytes, floats: FloatOrder, fh: FloatHash, hash: int -> u32, handles: seq<int>, d: nat, keys: seq<Key>)
    requires WrittenPasses.IsWritten(t, root, buf) && 2 * d < MAX_DEPTH && Opens(buf)
    requires HaveKeys(t, handles, d, keys) && |keys| == |handles| && HashedByKey(hash, handles, keys) && AllDistinct(keys)
    requires AllHashable(t, handles, d) && ReadsApart(t, buf, hash, handles, d)
    ensures KeysReadFine(t, hash, handles, HashableType(), HashInBuffer(buf, fh, d), CompareInBuffer(buf, floats))
  {
    WrittenPasses.WrittenFacts(t, root, buf);
    hide Writable, Good, Sized, TablesMade, Serialized, Opens, KeyAt, NodeHash, HashableTo, HashKey, ToRead, Misled, HashValidate.SeparatesPair, CompareInBuffer;
    forall a | 0 <= a < |handles|
      ensures IsHandle(t, handles[a]) && KeyReadsFine(t, hash, handles[a], HashableType(), HashInBuffer(buf, fh, d))
      ensures KeyAt(ReadView(buf), Ref(AsRead(t)(handles[a])), d) == Some(keys[a])
    {
      KeyIsRead(t, root, handles[a], d);
      KeyHashIsRead(t, root, fh, handles[a], d, keys[a]);
      HashableIsType(t, handles[a], d);
    }
    forall a, b | 0 <= a < |handles| && 0 <= b < |handles| && hash(handles[a]) == hash(handles[b])
      ensures HashValidate.SeparatesPair(CompareInBuffer(buf, floats), AsRead(t)(handles[a]), AsRead(t)(handles[b]), a == b)
    {
      PairIsRead(floats, fh, buf, AsRead(t)(handles[a]), AsRead(t)(handles[b]), d, keys[a], keys[b], a == b);
    }
  }

  /**
    With the library's own hash and comparison, the last pass accepts every written set and map whose keys are
    different and none of which is misread for another.
   */
  lemma WrittenKeysPass(t: State, root: int, buf: bytes, floats: FloatOrder, fh: FloatHash, hash: int -> u32, h: int, d: nat, keys: seq<Key>)
    requires WrittenPasses.IsWritten(t, root, buf) && LaidOut(t, hash, h) && 2 * d < MAX_DEPTH && Opens(buf)
    requires HaveKeys(t, TableKeys(t, h), d, keys) && |keys| == |TableKeys(t, h)| && HashedByKey(hash, TableKeys(t, h), keys) && AllDistinct(keys)
    requires AllHashable(t, TableKeys(t, h), d) && ReadsApart(t, buf, hash, TableKeys(t, h), d)
    ensures ReadTable(buf, ToRead(t, h)).Some? && ItemCount(buf, ToRead(t, h)) == Some(|keys|)
    ensures TableOk(|keys|, ToRead(t, h), ReadTable(buf, ToRead(t, h)).value, HashableType(), HashInBuffer(buf, fh, d), CompareInBuffer(buf, floats))
  {
    hide *;
    LaidOutIsTable(t, hash, h);
    TableIsHeap(t, h);
    WrittenPasses.HeapHandle(t, h);
    KeysReadFineInBuffer(t, root, buf, floats, fh, hash, TableKeys(t, h), d, keys);
    WrittenTableOk(t, root, buf, hash, h, HashableType(), HashInBuffer(buf, fh, d), CompareInBuffer(buf, floats));
  }

  /** Keys without bitvectors are not misread. */
  lemma PlainKeysReadApart(t: State, root: int, buf: bytes, hash: int -> u32, handles: seq<int>, d: nat, keys: seq<Key>)
    requires WrittenPasses.IsWritten(t, root, buf) && Opens(buf) && AllPublic(t, handles) && HaveKeys(t, handles, d, keys) && |keys| == |handles|
    requires forall a :: 0 <= a < |keys| ==> WithoutBits(keys[a])
    ensures ReadsApart(t, buf, hash, handles, d)
  {
    WrittenPasses.WrittenFacts(t, root, buf);
    hide Writable, Good, Sized, TablesMade, Serialized, Opens, KeyAt, ToRead, Misled, WithoutBits;
    forall a, b | 0 <= a < |handles| && 0 <= b < |handles|
      ensures !Misled(false, ReadView(buf), Ref(AsRead(t)(handles[a])), ReadView(buf), Ref(AsRead(t)(handles[b])), d)
    {
      KeyIsRead(t, root, handles[a], d);
      WithoutBitsNotMisled(buf, Ref(AsRead(t)(handles[a])), buf, Ref(AsRead(t)(handles[b])), d, keys[a]);
    }
  }
}

/**
  The last validation pass over what the library writes: the header of every set and map tells the number of its
  keys, and its vectors are accepted as a hash table of just so many keys.
 */
module WrittenTables {
  import opened Wrappers
  import opened PowersOfTwo
  import opened Bitvector
  import opened Unfolding
  import opened Values
  import opened CreateState
  import opened Bytes
  import opened Heap
  import opened Reader
  import opened ReadBack
  import opened Tables
  import opened CreatePasses
  import opened LaidOutTables
  import opened WrittenLookup
  import opened Validate
  import opened WrittenPasses
  import HashTable
  import HashLookup
  import HashMapRefinement
  import HashValidate

  // ---- the number of items ----

  /** The number of items that the header of a set or map tells. */
  function ItemCount(buf: bytes, r: RValue): Option<u32>
    requires Opens(buf)
  {
    match TableAt(buf, r)
    case Some(at) => if Within(buf, at, 4) && Word(buf, at, 4) < 0x1_0000_0000 then Some(Word(buf, at, 4)) else None
    case None => None
  }

  lemma OpeningWords(buf: bytes, at: nat, n: nat, rest: bytes)
    requires n < 0x1_0000_0000 && IsAt(buf, at, LittleEndian(4, n) + LittleEndian(4, 0) + rest)
    ensures Within(buf, at, 8) && Word(buf, at, 4) == n && Word(buf, at + 4, 4) == 0
  {
    var a, b := LittleEndian(4, n), LittleEndian(4, 0);
    hide LittleEndian;
    assert a + b + rest == [] + a + (b + rest);
    PartOf(buf, at, [], a, b + rest);
    PartOf(buf, at, a, b, rest);
    WordRanges();
    WordReads(buf, at, 4, n);
    WordReads(buf, at + 4, 4, 0);
  }

  lemma KeysFit(t: State, h: int)
    requires Writable(t) && IsTable(t, h)
    ensures |TableKeys(t, h)| < 0x1_0000_0000
  {
    GoodWritten(t);
    assert GoodValue(t, h);
    assert SizedValue(t, t.values[h]);
    hide Good, Sized, TablesMade;
  }

  lemma TableObject(t: State, h: int) returns (rest: bytes)
    requires Writable(t) && IsTable(t, h) && GoodValue(t, h)
    ensures Object(t, h) == LittleEndian(4, |TableKeys(t, h)|) + LittleEndian(4, 0) + rest
  {
    hide Writable, LittleEndian, ValueBytes;
    if KindOf(t.values[h]) == SetTable {
      var x := t.sets[t.values[h].data];
      rest := ValueBytes(ToRead(t, x.hashVector)) + ValueBytes(ToRead(t, x.keyVector));
    } else {
      var x := t.maps[t.values[h].data];
      rest := ValueBytes(ToRead(t, x.hashVector)) + ValueBytes(ToRead(t, x.keyVector)) + ValueBytes(ToRead(t, x.valueVector));
    }
  }

  lemma TableStands(t: State, buf: bytes, h: int, r: RValue, obj: bytes)
    requires Stands(t, buf, h, r, obj) && IsTable(t, h)
    ensures GoodValue(t, h) && r == ToRead(t, h) && obj == Object(t, h) && Opens(buf)
    ensures ReferenceOk(buf, r) && !IsInline(r.typ) && TableIndex(buf, r) < ObjectCount(buf) && IsAt(buf, ObjectAt(buf, TableIndex(buf, r)), obj)
    ensures TableAt(buf, r) == Some(ObjectAt(buf, TableIndex(buf, r)))
  {
    hide Opens, IsAt, ObjectAt, TextCount, VectorCount, BitvectorCount, SetCount, MapCount, Object, GoodSet, GoodMap;
  }

  lemma TableIsHeap(t: State, h: int)
    requires IsTable(t, h)
    ensures IsHeapHandle(t, h)
  {
  }

  /** The header of a written set or map tells the number of its keys; the word after it is blank. */
  lemma CountReads(t: State, root: int, buf: bytes, h: int) returns (at: nat)
    requires IsWritten(t, root, buf) && IsTable(t, h)
    ensures IsHandle(t, h) && Opens(buf) && TableAt(buf, ToRead(t, h)) == Some(at) && ItemCount(buf, ToRead(t, h)) == Some(|TableKeys(t, h)|)
    ensures Within(buf, at, 8) && Word(buf, at, 4) == |TableKeys(t, h)| && Word(buf, at + 4, 4) == 0
  {
    hide *;
    TableIsHeap(t, h);
    HeapHandle(t, h);
    WrittenFacts(t, root, buf);
    var r, obj := ObjectStands(t, root, buf, h);
    TableStands(t, buf, h, r, obj);
    KeysFit(t, h);
    var rest := TableObject(t, h);
    at := ObjectAt(buf, TableIndex(buf, r));
    OpeningWords(buf, at, |TableKeys(t, h)|, rest);
    CountIs(buf, r, at);
  }

  lemma CountIs(buf: bytes, r: RValue, at: nat)
    requires Opens(buf) && TableAt(buf, r) == Some(at) && Within(buf, at, 8) && Word(buf, at, 4) < 0x1_0000_0000
    ensures ItemCount(buf, r) == Some(Word(buf, at, 4))
  {
    hide Opens, TableAt, Word;
  }

  lemma ValueWords(buf: bytes, at: nat)
    requires Within(buf, at, 8)
    ensures Within(buf, at, 4) && Within(buf, at + 4, 4) && Word(buf, at, 4) == ValueAt(buf, at).typ && Word(buf, at + 4, 4) == ValueAt(buf, at).data
  {
    WordInRange(buf, at, 4);
    WordRanges();
    hide Word, WordRange;
  }

  /** The words of a header after the first two: type and index of the vectors of hashes and of keys. */
  lemma HeaderWordsRead(t: State, root: int, buf: bytes, h: int) returns (at: nat)
    requires IsWritten(t, root, buf) && KeysMarked(t) && IsTable(t, h)
    ensures IsHandle(t, h) && Opens(buf) && TableAt(buf, ToRead(t, h)) == Some(at) && Within(buf, at + 8, 16)
    ensures IsHandle(t, HashPartOf(t, h)) && IsHandle(t, KeyPartOf(t, h))
    ensures Word(buf, at + 8, 4) == 7 && Word(buf, at + 12, 4) == ToRead(t, HashPartOf(t, h)).data
    ensures Word(buf, at + 16, 4) == 1 && Word(buf, at + 20, 4) == ToRead(t, KeyPartOf(t, h)).data
  {
    hide *;
    TableIsHeap(t, h);
    HeapHandle(t, h);
    WrittenFacts(t, root, buf);
    at := TableHeaderReads(t, root, h);
    PartTypes(t, h);
    MarkedKeyPart(t, h);
    PartType(t, HashPartOf(t, h));
    PartType(t, KeyPartOf(t, h));
    ValueWords(buf, at + 8);
    ValueWords(buf, at + 16);
    WithinBoth(buf, at + 8);
  }

  lemma WithinBoth(buf: bytes, at: nat)
    requires Within(buf, at + 8, 8)
    ensures Within(buf, at, 16)
  {
  }

  lemma MarkedKeyPart(t: State, h: int)
    requires KeysMarked(t) && IsTable(t, h) && IsHandle(t, KeyPartOf(t, h))
    ensures 0 <= KeyPartOf(t, h) < |t.values| && t.values[KeyPartOf(t, h)].typ == 1 && VECTOR_U32 == 7
  {
  }

  // ---- the check of one table ----

  type Hashable = RValue -> bool
  type HashFunction = RValue -> u32
  type ReadComparator = (RValue, RValue) -> HashTable.Comparison

  function ValueCells(r: RValue, table: RTable): Option<seq<RSlot>> {
    if r.typ == MAP_VALUE_VALUE then Some(ReadCells(table.values)) else None
  }

  predicate EvenTable(r: RValue, table: RTable) {
    |table.hashes| == |table.keys| && (r.typ == MAP_VALUE_VALUE ==> |table.values| == |table.keys|)
  }

  /** The vectors of a set or map are as long as each other, and a hash table of as many keys as its header tells. */
  ghost predicate TableOk(n: u32, r: RValue, table: RTable, hashable: Hashable, hashOf: HashFunction, cmp: ReadComparator) {
    && EvenTable(r, table) && HashTable.WantedBuckets(n) <= HashTable.MAX_BUCKETS
    && HashValidate.Accepted(n, ReadHashes(table.hashes), ReadCells(table.keys), ValueCells(r, table), hashable, hashOf, cmp)
  }

  lemma HeaderVectorFits(buf: bytes, at: nat)
    requires Opens(buf) && HeaderVector(buf, at).Some?
    ensures |HeaderVector(buf, at).value| < 0x1_0000_0000
  {
    var r := ValueAt(buf, at);
    var pos := ObjectAt(buf, TextCount(buf) + r.data);
    WordInRange(buf, pos, 4);
    WordRanges();
    hide Opens, ValueAt, ObjectAt, Word, TextCount, VectorCount, ObjectCount, WordRange, ItemsAt;
  }

  lemma TableFits(buf: bytes, r: RValue)
    requires Opens(buf) && ReadTable(buf, r).Some?
    ensures |ReadTable(buf, r).value.keys| < 0x1_0000_0000
  {
    hide Opens, HeaderVector, TableAt;
    HeaderVectorFits(buf, TableAt(buf, r).value + 16);
  }

  /** The checks of the last pass on a set or map. */
  method ValidateTable(buf: bytes, r: RValue, hashable: Hashable, hashOf: HashFunction, cmp: ReadComparator) returns (ok: bool)
    requires Opens(buf) && ReadTable(buf, r).Some? && ItemCount(buf, r).Some?
    requires HashTable.WantedBuckets(ItemCount(buf, r).value) <= HashTable.MAX_BUCKETS
    ensures ok <==> TableOk(ItemCount(buf, r).value, r, ReadTable(buf, r).value, hashable, hashOf, cmp)
  {
    hide Opens, ReadTable, ItemCount, HashValidate.Accepted;
    var table := ReadTable(buf, r).value;
    TableFits(buf, r);
    if |table.hashes| != |table.keys| || (r.typ == MAP_VALUE_VALUE && |table.values| != |table.keys|) {
      return false;
    }
    var v := HashValidate.Validate(ItemCount(buf, r).value, ReadHashes(table.hashes), ReadCells(table.keys), ValueCells(r, table), hashable, hashOf, cmp);
    ok := v == HashValidate.Valid;
  }

  // ---- written tables pass ----

  /**
    In the buffer the keys can be hashed, with the hashes of create time, and of the keys with one hash each compares
    equal, and without error, to itself alone.
   */
  ghost predicate KeysReadFine(t: State, hash: int -> u32, keys: seq<int>, hashable: Hashable, hashOf: HashFunction, cmp: ReadComparator) {
    && (forall a :: 0 <= a < |keys| ==> KeyReadsFine(t, hash, keys[a], hashable, hashOf))
    && forall a, b :: 0 <= a < |keys| && 0 <= b < |keys| && hash(keys[a]) == hash(keys[b]) ==>
         HashValidate.SeparatesPair(cmp, AsRead(t)(keys[a]), AsRead(t)(keys[b]), a == b)
  }

  ghost predicate KeyReadsFine(t: State, hash: int -> u32, k: int, hashable: Hashable, hashOf: HashFunction) {
    IsHandle(t, k) && hashable(ToRead(t, k)) && hashOf(ToRead(t, k)) == hash(k)
  }

  lemma KeysSeparate(t: State, hash: int -> u32, keys: seq<int>, hashable: Hashable, hashOf: HashFunction, cmp: ReadComparator)
    requires KeysReadFine(t, hash, keys, hashable, hashOf, cmp)
    ensures var hv, kv := Hashes(hash, keys), Mapped(AsRead(t), Keys(keys));
      && |kv| == |keys| && HashValidate.Separates(cmp, hv, kv) && HashMapRefinement.HashedBy(hv, kv, hashOf)
      && forall a :: 0 <= a < |kv| && kv[a].Full? ==> hashable(kv[a].key)
  {
    hide HashValidate.SeparatesPair, ToRead;
    var hv, kv := Hashes(hash, keys), Mapped(AsRead(t), Keys(keys));
    assert forall a :: 0 <= a < |keys| ==> kv[a] == HashTable.Full(AsRead(t)(keys[a])) && hv[a] == hash(keys[a]);
    assert forall a :: 0 <= a < |keys| ==> KeyReadsFine(t, hash, keys[a], hashable, hashOf) ==> AsRead(t)(keys[a]) == ToRead(t, keys[a]);
  }

  lemma ValuesReadPlaced(t: State, hash: int -> u32, h: int, table: RTable, slots: seq<nat>, pos: seq<nat>)
    requires IsTable(t, h) && ReadsLaidOut(t, hash, h, table, slots, pos) && KindOf(t.values[h]) == MapTable
    ensures |table.values| == |table.keys|
    ensures HashTable.ValuesPlaced(ReadValueCells(t, TableValues(t, h)), ReadCells(table.values), slots)
  {
    hide HashTable.Placed, HashTable.IsTable, HashTable.HasEmptySlot, RightSize, Mapped, ToRead;
  }

  /** What the values of a map are read as: the empty-slot value as a blank. */
  function ReadValueCells(t: State, values: seq<int>): (r: seq<RSlot>)
    ensures |r| == |values|
    ensures forall a :: 0 <= a < |values| ==> r[a] == CellOf(Ref(AsRead(t)(values[a])))
  {
    seq(|values|, a requires 0 <= a < |values| => CellOf(Ref(AsRead(t)(values[a]))))
  }

  lemma TableAccepted(t: State, hash: int -> u32, h: int, r: RValue, table: RTable, slots: seq<nat>, pos: seq<nat>,
                      hashable: Hashable, hashOf: HashFunction, cmp: ReadComparator)
    requires IsTable(t, h) && ReadsLaidOut(t, hash, h, table, slots, pos) && KeysReadFine(t, hash, TableKeys(t, h), hashable, hashOf, cmp)
    requires r.typ == if KindOf(t.values[h]) == SetTable then SET_VALUE else MAP_VALUE_VALUE
    ensures |TableKeys(t, h)| + |TableKeys(t, h)| / 2 <= HashTable.MAX_BUCKETS
    ensures TableOk(|TableKeys(t, h)|, r, table, hashable, hashOf, cmp)
  {
    var keys := TableKeys(t, h);
    var hv, kv := Hashes(hash, keys), Mapped(AsRead(t), Keys(keys));
    assert HashTable.IsTable(ReadHashes(table.hashes), ReadCells(table.keys));
    KeysSeparate(t, hash, keys, hashable, hashOf, cmp);
    var isMap := KindOf(t.values[h]) == MapTable;
    if isMap { ValuesReadPlaced(t, hash, h, table, slots, pos); }
    hide HashTable.Placed, HashTable.HasEmptySlot, HashTable.ValuesPlaced, HashValidate.Separates, HashMapRefinement.HashedBy, HashValidate.Accepted;
    hide Mapped, Hashes, Keys, KeysReadFine, ReadValueCells, BlankNodes;
    HashValidate.PopulatedIsAccepted(cmp, hashable, hashOf, hv, kv, if isMap then Some(ReadValueCells(t, TableValues(t, h))) else None,
                                     ReadHashes(table.hashes), ReadCells(table.keys), ValueCells(r, table), slots, pos);
  }

  /**
    The last pass accepts every set and map the library writes, provided the keys hash in the buffer as they did at
    create time and are told apart there.
   */
  lemma WrittenTableOk(t: State, root: int, buf: bytes, hash: int -> u32, h: int, hashable: Hashable, hashOf: HashFunction, cmp: ReadComparator)
    requires IsWritten(t, root, buf) && LaidOut(t, hash, h) && KeysReadFine(t, hash, TableKeys(t, h), hashable, hashOf, cmp)
    ensures IsHandle(t, h) && Opens(buf) && ReadTable(buf, ToRead(t, h)).Some? && ItemCount(buf, ToRead(t, h)) == Some(|TableKeys(t, h)|)
    ensures TableOk(|TableKeys(t, h)|, ToRead(t, h), ReadTable(buf, ToRead(t, h)).value, hashable, hashOf, cmp)
  {
    hide *;
    WrittenFacts(t, root, buf);
    LaidOutIsTable(t, hash, h);
    var at := CountReads(t, root, buf, h);
    var slots, pos := WrittenIsLaidOut(t, hash, h);
    WrittenTableReads(t, root, h);
    PartTypes(t, h);
    TableAccepted(t, hash, h, ToRead(t, h), WrittenTable(t, h), slots, pos, hashable, hashOf, cmp);
  }

  lemma LaidOutIsTable(t: State, hash: int -> u32, h: int)
    requires LaidOut(t, hash, h)
    ensures IsTable(t, h)
  {
  }
}

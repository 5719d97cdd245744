/**
  Looking up keys in the sets and maps of a written buffer: a lookup finds just what a search through the keys
  the set or map was created with would find.
 */
module WrittenLookup {
  import opened Wrappers
  import opened PowersOfTwo
  import opened Bitvector
  import opened Unfolding
  import opened Values
  import opened CreateState
  import opened Bytes
  import opened Heap
  import opened Reader
  import opened ReadBack
  import opened Tables
  import opened CreatePasses
  import opened LaidOutTables
  import HashTable
  import HashLookup

  // ---- the table as the reader sees it ----

  type RSlot = HashTable.Slot<RValue>

  function HashOf(n: RNode): u32 {
    if n.Number? && 0 <= n.x < 0x1_0000_0000 then n.x else 0
  }

  function CellOf(n: RNode): RSlot {
    if n.Ref? && n.v.typ != EMPTY_SLOT then HashTable.Full(n.v) else HashTable.Empty
  }

  function ReadHashes(ns: seq<RNode>): (r: seq<u32>)
    ensures |r| == |ns| && forall b :: 0 <= b < |ns| ==> r[b] == HashOf(ns[b])
  {
    seq(|ns|, b requires 0 <= b < |ns| => HashOf(ns[b]))
  }

  function ReadCells(ns: seq<RNode>): (r: seq<RSlot>)
    ensures |r| == |ns| && forall b :: 0 <= b < |ns| ==> r[b] == CellOf(ns[b])
  {
    seq(|ns|, b requires 0 <= b < |ns| => CellOf(ns[b]))
  }

  /** The vector that a header word of a set or map points to. */
  function HeaderVector(buf: bytes, at: nat): Option<seq<RNode>>
    requires Opens(buf)
  {
    if !Within(buf, at, 8) then None
    else
      var r := ValueAt(buf, at);
      if IsHeapVector(r.typ) && r.data < VectorCount(buf) then VectorAt(buf, r.typ, ObjectAt(buf, TextCount(buf) + r.data)) else None
  }

  /** Where the header of a set or map is. */
  function TableAt(buf: bytes, r: RValue): Option<nat>
    requires Opens(buf)
  {
    if r.typ == SET_VALUE && r.data < SetCount(buf) then Some(ObjectAt(buf, TextCount(buf) + VectorCount(buf) + BitvectorCount(buf) + r.data))
    else if r.typ == MAP_VALUE_VALUE && r.data < MapCount(buf) then
      Some(ObjectAt(buf, TextCount(buf) + VectorCount(buf) + BitvectorCount(buf) + SetCount(buf) + r.data))
    else None
  }

  /** The vectors of a table: hashes, keys and, for a map, values. */
  datatype RTable = RTable(hashes: seq<RNode>, keys: seq<RNode>, values: seq<RNode>)

  function ReadTable(buf: bytes, r: RValue): Option<RTable>
    requires Opens(buf)
  {
    match TableAt(buf, r)
    case None => None
    case Some(at) =>
      match (HeaderVector(buf, at + 8), HeaderVector(buf, at + 16))
      case (Some(hs), Some(ks)) =>
        if r.typ == SET_VALUE then Some(RTable(hs, ks, []))
        else (match HeaderVector(buf, at + 24) case Some(vs) => Some(RTable(hs, ks, vs)) case None => None)
      case _ => None
  }

  /** The lookup of the reader: by hash and equality test. Returns the key, and the value in a map. */
  method Lookup(buf: bytes, r: RValue, hash: u32, test: RValue -> HashLookup.Match) returns (p: HashLookup.ProbeResult, key: Option<RNode>, value: Option<RNode>)
    requires Opens(buf) && ReadTable(buf, r).Some?
    requires var t := ReadTable(buf, r).value;
      && HashTable.IsTable(ReadHashes(t.hashes), ReadCells(t.keys)) && HashTable.HasEmptySlot(ReadCells(t.keys))
      && (r.typ == MAP_VALUE_VALUE ==> |t.values| == |t.keys|)
    ensures var t := ReadTable(buf, r).value;
      && HashLookup.Probes(ReadHashes(t.hashes), ReadCells(t.keys), hash, test, p)
      && (p.Found? ==> p.bucket < |t.keys| && key == Some(t.keys[p.bucket]))
      && (p.Found? && r.typ == MAP_VALUE_VALUE ==> value == Some(t.values[p.bucket]))
      && (!p.Found? ==> key == None && value == None)
  {
    var t := ReadTable(buf, r).value;
    p := HashLookup.Probe(ReadHashes(t.hashes), ReadCells(t.keys), hash, test);
    FoundInRange(ReadHashes(t.hashes), ReadCells(t.keys), hash, test, p);
    key, value := None, None;
    if p.Found? {
      key := Some(t.keys[p.bucket]);
      if r.typ == MAP_VALUE_VALUE {
        value := Some(t.values[p.bucket]);
      }
    }
  }

  lemma FoundInRange(hs: seq<u32>, ks: seq<RSlot>, hash: u32, test: RValue -> HashLookup.Match, p: HashLookup.ProbeResult)
    requires HashLookup.Probes(hs, ks, hash, test, p)
    ensures p.Found? ==> p.bucket < |ks|
  {
  }

  // ---- placed tables under a change of keys ----

  function Mapped<A, B>(f: A -> B, xs: seq<HashTable.Slot<A>>): (r: seq<HashTable.Slot<B>>)
    ensures |r| == |xs| && forall b :: 0 <= b < |xs| ==> r[b] == if xs[b].Full? then HashTable.Full(f(xs[b].key)) else HashTable.Empty
  {
    seq(|xs|, b requires 0 <= b < |xs| => if xs[b].Full? then HashTable.Full(f(xs[b].key)) else HashTable.Empty)
  }

  lemma ContentsMapped<A, B>(f: A -> B, hv: seq<u32>, kv: seq<HashTable.Slot<A>>, hs: seq<u32>, ks: seq<HashTable.Slot<A>>, slots: seq<nat>)
    requires HashTable.Contents(hv, kv, hs, ks, slots)
    ensures HashTable.Contents(hv, Mapped(f, kv), hs, Mapped(f, ks), slots)
  {
  }

  lemma OrderedMapped<A, B>(f: A -> B, hv: seq<u32>, ks: seq<HashTable.Slot<A>>, slots: seq<nat>, pos: seq<nat>)
    requires HashTable.Ordered(hv, ks, slots, pos)
    ensures HashTable.Ordered(hv, Mapped(f, ks), slots, pos)
  {
    var ks' := Mapped(f, ks);
    forall a | 0 <= a < |slots| ensures HashTable.Chained(ks', hv[a], pos[a]) {
      assert HashTable.Chained(ks, hv[a], pos[a]);
    }
  }

  // ---- written tables ----

  /** What a lookup should yield: the first key, in the order of creation, with the hash and not turned down. */
  ghost predicate FirstKey(t: State, hash: int -> u32, keys: seq<int>, x: u32, test: RValue -> HashLookup.Match, a: nat) {
    && a < |keys| && (forall i :: 0 <= i < |keys| ==> IsHandle(t, keys[i]))
    && KeyHit(t, hash, keys[a], x, test)
    && forall i :: 0 <= i < a ==> !KeyHit(t, hash, keys[i], x, test)
  }

  ghost predicate KeyHit(t: State, hash: int -> u32, k: int, x: u32, test: RValue -> HashLookup.Match) {
    IsHandle(t, k) && hash(k) == x && test(ToRead(t, k)) != HashLookup.No
  }

  /** p, key and value are the outcome of searching the keys of set or map h one by one. */
  ghost predicate IsSearch(t: State, hash: int -> u32, h: int, x: u32, test: RValue -> HashLookup.Match,
                           p: HashLookup.ProbeResult, key: Option<RNode>, value: Option<RNode>)
    requires IsTable(t, h)
  {
    var keys := TableKeys(t, h);
    match p
    case Miss => forall i :: 0 <= i < |keys| ==> !KeyHit(t, hash, keys[i], x, test)
    case ProbeError => exists a: nat :: FirstKey(t, hash, keys, x, test, a) && test(ToRead(t, keys[a])) == HashLookup.Failed
    case Found(b) =>
      exists a: nat :: FirstKey(t, hash, keys, x, test, a) && test(ToRead(t, keys[a])) == HashLookup.Yes
        && key == Some(Ref(ToRead(t, keys[a])))
        && (KindOf(t.values[h]) == MapTable ==> a < |TableValues(t, h)| && IsHandle(t, TableValues(t, h)[a]) && value == Some(Ref(ToRead(t, TableValues(t, h)[a]))))
  }

  function AsRead(t: State): int -> RValue {
    k => if IsHandle(t, k) then ToRead(t, k) else RValue(0, 0)
  }

  /** The buckets in no slot are blank. */
  ghost predicate BlankNodes(ns: seq<RNode>, slots: seq<nat>) {
    forall b :: 0 <= b < |ns| && b !in slots ==> CellOf(ns[b]) == HashTable.Empty
  }

  /** The table of a written set or map is the create-time table, key for key. */
  ghost predicate ReadsLaidOut(t: State, hash: int -> u32, h: int, table: RTable, slots: seq<nat>, pos: seq<nat>)
    requires IsTable(t, h)
  {
    var keys := TableKeys(t, h);
    && |slots| == |keys| && AllPublic(t, keys) && RightSize(|keys|, |table.keys|)
    && HashTable.IsTable(ReadHashes(table.hashes), ReadCells(table.keys)) && HashTable.HasEmptySlot(ReadCells(table.keys))
    && HashTable.Placed(Hashes(hash, keys), Mapped(AsRead(t), Keys(keys)), ReadHashes(table.hashes), ReadCells(table.keys), slots, pos)
    && (forall a :: 0 <= a < |slots| ==> slots[a] < |table.keys| && table.keys[slots[a]] == Ref(ToRead(t, keys[a])))
    && (KindOf(t.values[h]) == MapTable ==>
          var values := TableValues(t, h);
          && |values| == |slots| && AllPublic(t, values) && |table.values| == |table.keys| && BlankNodes(table.values, slots)
          && forall a :: 0 <= a < |slots| ==> slots[a] < |table.values| && table.values[slots[a]] == Ref(ToRead(t, values[a])))
  }

  /** Probing the table of a written set or map is searching its keys. */
  lemma ProbeIsSearch(t: State, hash: int -> u32, h: int, table: RTable, slots: seq<nat>, pos: seq<nat>,
                      x: u32, test: RValue -> HashLookup.Match, p: HashLookup.ProbeResult, key: Option<RNode>, value: Option<RNode>)
    requires IsTable(t, h) && ReadsLaidOut(t, hash, h, table, slots, pos)
    requires HashLookup.Probes(ReadHashes(table.hashes), ReadCells(table.keys), x, test, p)
    requires p.Found? ==> p.bucket < |table.keys| && key == Some(table.keys[p.bucket])
    requires p.Found? && KindOf(t.values[h]) == MapTable ==> value == Some(table.values[p.bucket])
    ensures IsSearch(t, hash, h, x, test, p, key, value)
  {
    hide HashTable.Placed, HashTable.IsTable, HashTable.HasEmptySlot, HashLookup.Probes, HashLookup.Hit;
    hide KeyHit, ReadHashes, ReadCells, Mapped, Hashes, TableKeys, TableValues, ToRead, RightSize, BlankNodes;
    var keys := TableKeys(t, h);
    var hv, kv := Hashes(hash, keys), Mapped(AsRead(t), Keys(keys));
    HashLookup.ProbeIsListLookup(hv, kv, ReadHashes(table.hashes), ReadCells(table.keys), slots, pos, x, test, p);
    hide HashLookup.FirstHit;
    HitsAreKeyHits(t, hash, keys, x, test);
    match HashLookup.FirstHit(hv, kv, x, test, 0)
    case None =>
    case Some(a) =>
      assert FirstKey(t, hash, keys, x, test, a);
      TestedKey(t, keys, a);
      HitIsTested(t, hash, keys[a], x, test);
  }

  lemma HitsAreKeyHits(t: State, hash: int -> u32, keys: seq<int>, x: u32, test: RValue -> HashLookup.Match)
    requires AllPublic(t, keys)
    ensures forall i :: 0 <= i < |keys| ==> IsHandle(t, keys[i])
    ensures forall i :: 0 <= i < |keys| ==> (HashLookup.Hit(Hashes(hash, keys), Mapped(AsRead(t), Keys(keys)), x, test, i) <==> KeyHit(t, hash, keys[i], x, test))
  {
  }

  lemma TestedKey(t: State, keys: seq<int>, a: nat)
    requires AllPublic(t, keys) && a < |keys|
    ensures IsHandle(t, keys[a]) && Mapped(AsRead(t), Keys(keys))[a] == HashTable.Full(ToRead(t, keys[a]))
  {
  }

  lemma HitIsTested(t: State, hash: int -> u32, k: int, x: u32, test: RValue -> HashLookup.Match)
    requires KeyHit(t, hash, k, x, test)
    ensures IsHandle(t, k) && test(ToRead(t, k)) != HashLookup.No
  {
  }

  // ---- the vectors of a written table ----

  function WrittenTable(t: State, h: int): RTable
    requires IsTable(t, h)
  {
    var hp, kp := HashPartOf(t, h), KeyPartOf(t, h);
    if IsHandle(t, hp) && IsHandle(t, kp) && IsHandle(t, h - 1) then
      RTable(ReadItems(t, t.values[hp]), ReadItems(t, t.values[kp]), if KindOf(t.values[h]) == SetTable then [] else ReadItems(t, t.values[h - 1]))
    else RTable([], [], [])
  }

  lemma HeaderVectorReads(t: State, root: int, p: int, at: nat)
    requires Writable(t) && IsHandle(t, root) && IsHandle(t, p) && IsHeapVector(t.values[p].typ)
    requires Opens(Serialized(t, root)) && Within(Serialized(t, root), at, 8) && ValueAt(Serialized(t, root), at) == ToRead(t, p)
    ensures HeaderVector(Serialized(t, root), at) == Some(ReadItems(t, t.values[p]))
  {
    hide Writable, Serialized, Opens, ReadItems, VectorAt, ObjectAt, ToRead, ValueAt, TextCount, VectorCount;
    VectorValueReads(t, root, p);
  }

  /** The parts of a table are heap vectors. */
  lemma PartTypes(t: State, h: int)
    requires Writable(t) && IsTable(t, h)
    ensures 2 <= h < |t.values| && IsHandle(t, h) && IsHandle(t, h - 1) && IsHandle(t, h - 2)
    ensures IsHandle(t, HashPartOf(t, h)) && IsHandle(t, KeyPartOf(t, h)) && HashPartOf(t, h) >= 0
    ensures t.values[HashPartOf(t, h)].typ == VECTOR_U32 && IsValueVector(t.values[KeyPartOf(t, h)].typ) && IsValueVector(t.values[h - 1].typ)
    ensures ToRead(t, h).typ == (if KindOf(t.values[h]) == SetTable then SET_VALUE else MAP_VALUE_VALUE)
  {
    if KindOf(t.values[h]) == SetTable { SetParts(t, h); } else { MapParts(t, h); }
  }

  lemma WrittenTableReads(t: State, root: int, h: int)
    requires Writable(t) && IsHandle(t, root) && IsTable(t, h)
    ensures Opens(Serialized(t, root)) && ReadTable(Serialized(t, root), ToRead(t, h)) == Some(WrittenTable(t, h))
  {
    hide *;
    PartTypes(t, h);
    var at := TableHeaderReads(t, root, h);
    var hp, kp, buf := HashPartOf(t, h), KeyPartOf(t, h), Serialized(t, root);
    PartIsHeap(t, hp);
    PartIsHeap(t, kp);
    PartIsHeap(t, h - 1);
    HeaderVectorReads(t, root, hp, at + 8);
    HeaderVectorReads(t, root, kp, at + 16);
    if KindOf(t.values[h]) == MapTable { HeaderVectorReads(t, root, h - 1, at + 24); }
    ReadTableIs(t, h, buf, at);
  }

  lemma PartIsHeap(t: State, p: int)
    requires 0 <= p < |t.values| && (t.values[p].typ == VECTOR_U32 || IsValueVector(t.values[p].typ))
    ensures IsHandle(t, p) && IsHeapVector(t.values[p].typ)
  {
  }

  lemma ReadTableIs(t: State, h: int, buf: bytes, at: nat)
    requires IsTable(t, h) && Opens(buf) && 2 <= h < |t.values| && IsHandle(t, HashPartOf(t, h)) && IsHandle(t, KeyPartOf(t, h))
    requires ToRead(t, h).typ == (if KindOf(t.values[h]) == SetTable then SET_VALUE else MAP_VALUE_VALUE)
    requires TableAt(buf, ToRead(t, h)) == Some(at)
    requires HeaderVector(buf, at + 8) == Some(ReadItems(t, t.values[HashPartOf(t, h)]))
    requires HeaderVector(buf, at + 16) == Some(ReadItems(t, t.values[KeyPartOf(t, h)]))
    requires KindOf(t.values[h]) == MapTable ==> HeaderVector(buf, at + 24) == Some(ReadItems(t, t.values[h - 1]))
    ensures ReadTable(buf, ToRead(t, h)) == Some(WrittenTable(t, h))
  {
    hide TableAt, HeaderVector, ReadItems, Opens, ToRead;
  }

  lemma TableHeaderReads(t: State, root: int, h: int) returns (at: nat)
    requires Writable(t) && IsHandle(t, root) && IsTable(t, h)
    ensures Good(t) && Opens(Serialized(t, root)) && TableAt(Serialized(t, root), ToRead(t, h)) == Some(at)
    ensures var buf := Serialized(t, root);
      && Within(buf, at + 8, 8) && ValueAt(buf, at + 8) == ToRead(t, HashPartOf(t, h))
      && Within(buf, at + 16, 8) && ValueAt(buf, at + 16) == ToRead(t, KeyPartOf(t, h))
      && (KindOf(t.values[h]) == MapTable ==> Within(buf, at + 24, 8) && ValueAt(buf, at + 24) == ToRead(t, h - 1))
  {
    hide *;
    GoodWritten(t);
    TableInRange(t, h);
    if KindOf(t.values[h]) == SetTable {
      at := SetTableReads(t, root, h);
    } else {
      at := MapTableReads(t, root, h);
    }
  }

  lemma TableInRange(t: State, h: int)
    requires IsTable(t, h)
    ensures 0 <= h < |t.values|
  {
  }

  lemma SetTableReads(t: State, root: int, h: int) returns (at: nat)
    requires Writable(t) && Good(t) && IsHandle(t, root) && IsTable(t, h) && KindOf(t.values[h]) == SetTable
    ensures Opens(Serialized(t, root)) && TableAt(Serialized(t, root), ToRead(t, h)) == Some(at) && IsHandle(t, h - 2)
    ensures var buf := Serialized(t, root);
      && Within(buf, at + 8, 8) && ValueAt(buf, at + 8) == ToRead(t, HashPartOf(t, h))
      && Within(buf, at + 16, 8) && ValueAt(buf, at + 16) == ToRead(t, KeyPartOf(t, h))
  {
    hide Writable, Good, Sized, TablesMade, Serialized, ObjectAt, Opens, TextCount, VectorCount, BitvectorCount, SetCount, MapCount, ObjectCount;
    hide Object, GoodValue, IsAt, ToRead, Rank, ValueAt, SetMade, GoodSet;
    GoodWritten(t);
    PartTypes(t, h);
    IndicesRead(t, root);
    ObjectReads(t, root, h);
    var buf, v := Serialized(t, root), t.values[h];
    SetIndex(t, root, h);
    ToReadFits(t, h - 2);
    ToReadFits(t, h - 1);
    at := ObjectAt(buf, TextCount(buf) + VectorCount(buf) + BitvectorCount(buf) + v.data);
    SetReadsAt(t, h, buf, at);
  }

  lemma MapTableReads(t: State, root: int, h: int) returns (at: nat)
    requires Writable(t) && Good(t) && IsHandle(t, root) && IsTable(t, h) && KindOf(t.values[h]) != SetTable
    ensures Opens(Serialized(t, root)) && TableAt(Serialized(t, root), ToRead(t, h)) == Some(at) && IsHandle(t, h - 3)
    ensures var buf := Serialized(t, root);
      && Within(buf, at + 8, 8) && ValueAt(buf, at + 8) == ToRead(t, HashPartOf(t, h))
      && Within(buf, at + 16, 8) && ValueAt(buf, at + 16) == ToRead(t, KeyPartOf(t, h))
      && Within(buf, at + 24, 8) && ValueAt(buf, at + 24) == ToRead(t, h - 1)
  {
    hide Writable, Good, Sized, TablesMade, Serialized, ObjectAt, Opens, TextCount, VectorCount, BitvectorCount, SetCount, MapCount, ObjectCount;
    hide Object, GoodValue, IsAt, ToRead, Rank, ValueAt, MapMade, GoodMap;
    GoodWritten(t);
    PartTypes(t, h);
    IndicesRead(t, root);
    ObjectReads(t, root, h);
    var buf, v := Serialized(t, root), t.values[h];
    MapIndex(t, root, h);
    ToReadFits(t, h - 3);
    ToReadFits(t, h - 2);
    ToReadFits(t, h - 1);
    at := ObjectAt(buf, TextCount(buf) + VectorCount(buf) + BitvectorCount(buf) + SetCount(buf) + v.data);
    MapReadsAt(t, h, buf, at);
  }

  lemma GoodWritten(t: State)
    requires Writable(t)
    ensures Good(t) && Sized(t) && TablesMade(t)
  {
  }

  // ---- a written table is well placed ----

  lemma HashesReadBack(t: State, p: int, hs: seq<u32>)
    requires IsHandle(t, p) && t.values[p].typ == VECTOR_U32 && !t.values[p].compressed && Part(t, p) == hs
    ensures ReadHashes(ReadItems(t, t.values[p])) == hs
  {
  }

  lemma CellsReadBack(t: State, p: int, cells: seq<Slot>, empty: int)
    requires IsHandle(t, p) && IsValueVector(t.values[p].typ) && Part(t, p) == Handles(cells, empty)
    requires IsHandle(t, empty) && t.values[empty].typ == EMPTY_SLOT
    requires forall b :: 0 <= b < |cells| && cells[b].Full? ==> IsHandle(t, cells[b].key) && t.values[cells[b].key].typ != EMPTY_SLOT
    ensures ReadCells(ReadItems(t, t.values[p])) == Mapped(AsRead(t), cells)
    ensures forall b :: 0 <= b < |cells| && cells[b].Full? ==> ReadItems(t, t.values[p])[b] == Ref(ToRead(t, cells[b].key))
  {
  }

  lemma FullCellsAreKeys(t: State, hv: seq<u32>, keys: seq<int>, hs: seq<u32>, cells: seq<Slot>, slots: seq<nat>)
    requires KeysAllowed(t, keys) && HashTable.Contents(hv, Keys(keys), hs, cells, slots)
    ensures forall b :: 0 <= b < |cells| && cells[b].Full? ==> IsHandle(t, cells[b].key) && t.values[cells[b].key].typ != EMPTY_SLOT
    ensures forall a :: 0 <= a < |slots| ==> slots[a] < |cells| && cells[slots[a]] == HashTable.Full(keys[a])
  {
    forall b | 0 <= b < |cells| && cells[b].Full? ensures IsHandle(t, cells[b].key) && t.values[cells[b].key].typ != EMPTY_SLOT {
      assert b in slots;
      var a :| 0 <= a < |slots| && slots[a] == b;
    }
  }

  lemma HashPartIsPlain(t: State, h: int)
    requires Writable(t) && IsTable(t, h)
    ensures IsHandle(t, HashPartOf(t, h)) && !t.values[HashPartOf(t, h)].compressed
  {
    if KindOf(t.values[h]) == SetTable { SetParts(t, h); } else { MapParts(t, h); }
    assert GoodValue(t, HashPartOf(t, h));
  }

  lemma PartLengths(t: State, h: int)
    requires Writable(t) && IsTable(t, h) && KindOf(t.values[h]) == MapTable
    ensures KeyPartOf(t, h) == h - 2 && |Part(t, h - 1)| == |Part(t, h - 2)|
  {
    hide Good, Sized, Kept, Occupied, Part, IsPartOf, IsHashPart, IsValuePart;
    MapParts(t, h);
    assert TableMade(t, h);
  }

  lemma MapValuesRead(t: State, h: int)
    requires Writable(t) && IsTable(t, h) && KindOf(t.values[h]) == MapTable
    ensures |WrittenTable(t, h).keys| == |Part(t, KeyPartOf(t, h))| && |WrittenTable(t, h).values| == |Part(t, h - 1)|
    ensures forall i :: 0 <= i < |Part(t, h - 1)| && IsHandle(t, Part(t, h - 1)[i]) ==>
      WrittenTable(t, h).values[i] == Ref(ToRead(t, Part(t, h - 1)[i]))
  {
    hide Writable, ToRead, ItemNumber, IsTable;
    PartTypes(t, h);
  }

  lemma BlanksRead(t: State, vs: seq<int>, read: seq<RNode>, slots: seq<nat>)
    requires BlankElsewhere(t, vs, slots) && |read| == |vs|
    requires forall i :: 0 <= i < |vs| && IsHandle(t, vs[i]) ==> read[i] == Ref(ToRead(t, vs[i]))
    ensures BlankNodes(read, slots)
  {
  }

  lemma ValuesFollowAt(t: State, h: int, slots: seq<nat>)
    requires IsTable(t, h) && KindOf(t.values[h]) == MapTable && ValuesFollow(t, h, slots)
    ensures |TableValues(t, h)| == |slots| && BlankElsewhere(t, Part(t, h - 1), slots)
    ensures forall a :: 0 <= a < |slots| ==> slots[a] < |Part(t, h - 1)| && Part(t, h - 1)[slots[a]] == TableValues(t, h)[a]
  {
  }

  lemma ValuesArePublic(t: State, h: int)
    requires Good(t) && IsTable(t, h) && KindOf(t.values[h]) == MapTable
    ensures AllPublic(t, TableValues(t, h)) && forall a :: 0 <= a < |TableValues(t, h)| ==> IsHandle(t, TableValues(t, h)[a])
  {
    hide Good;
    TableIsPublic(t, h);
  }

  lemma WritableIsGood(t: State)
    requires Writable(t)
    ensures Good(t)
  {
  }

  lemma ValuesReadBack(t: State, h: int, slots: seq<nat>)
    requires Writable(t) && IsTable(t, h) && KindOf(t.values[h]) == MapTable && ValuesFollow(t, h, slots)
    ensures var values, read := TableValues(t, h), WrittenTable(t, h).values;
      && |values| == |slots| && AllPublic(t, values) && |read| == |WrittenTable(t, h).keys| && BlankNodes(read, slots)
      && forall a :: 0 <= a < |slots| ==> slots[a] < |read| && read[slots[a]] == Ref(ToRead(t, values[a]))
  {
    hide *;
    WritableIsGood(t);
    PartLengths(t, h);
    MapValuesRead(t, h);
    ValuesFollowAt(t, h, slots);
    ValuesArePublic(t, h);
    BlanksRead(t, Part(t, h - 1), WrittenTable(t, h).values, slots);
  }

  lemma WrittenIsLaidOut(t: State, hash: int -> u32, h: int) returns (slots: seq<nat>, pos: seq<nat>)
    requires Writable(t) && LaidOut(t, hash, h)
    ensures ReadsLaidOut(t, hash, h, WrittenTable(t, h), slots, pos)
  {
    var hs, cells, sl, po, empty :| LaidOutAs(t, hash, h, hs, cells, sl, po, empty);
    slots, pos := sl, po;
    hide Writable;
    LaidOutReadsBack(t, hash, h, hs, cells, slots, pos, empty);
  }

  lemma LaidOutReadsBack(t: State, hash: int -> u32, h: int, hs: seq<u32>, cells: seq<Slot>, slots: seq<nat>, pos: seq<nat>, empty: int)
    requires Writable(t) && IsTable(t, h) && LaidOutAs(t, hash, h, hs, cells, slots, pos, empty)
    ensures ReadsLaidOut(t, hash, h, WrittenTable(t, h), slots, pos)
  {
    hide Writable, ToRead, ItemsOf, ReadItem, Part, AllPublic, Mapped, ReadHashes, ReadCells, TableKeys, TableValues, ReadItems, AsRead, Keys;
    hide HashTable.Ordered, HashTable.IsTable, HashTable.HasEmptySlot, ValuesFollow, RightSize, BlankNodes;
    var keys, hv := TableKeys(t, h), Hashes(hash, TableKeys(t, h));
    FullCellsAreKeys(t, hv, keys, hs, cells, slots);
    MappedTable(AsRead(t), hv, Keys(keys), hs, cells, slots, pos);
    assert AllPublic(t, keys);
    hide HashTable.Placed, KeysAllowed, HashTable.Contents;
    PartTypes(t, h);
    HashPartIsPlain(t, h);
    HashesReadBack(t, HashPartOf(t, h), hs);
    CellsReadBack(t, KeyPartOf(t, h), cells, empty);
    if KindOf(t.values[h]) == MapTable { ValuesReadBack(t, h, slots); }
  }

  lemma MappedTable<A, B>(f: A -> B, hv: seq<u32>, kv: seq<HashTable.Slot<A>>, hs: seq<u32>, ks: seq<HashTable.Slot<A>>, slots: seq<nat>, pos: seq<nat>)
    requires HashTable.Placed(hv, kv, hs, ks, slots, pos) && HashTable.IsTable(hs, ks) && HashTable.HasEmptySlot(ks)
    ensures HashTable.Placed(hv, Mapped(f, kv), hs, Mapped(f, ks), slots, pos) && HashTable.IsTable(hs, Mapped(f, ks)) && HashTable.HasEmptySlot(Mapped(f, ks))
  {
    ContentsMapped(f, hv, kv, hs, ks, slots);
    OrderedMapped(f, hv, ks, slots, pos);
    hide HashTable.Contents, HashTable.Ordered;
    var b :| 0 <= b < |ks| && ks[b] == HashTable.Empty;
    assert Mapped(f, ks)[b] == HashTable.Empty;
  }

  /**
    A lookup in a set or map of a written buffer: reading its header and vectors succeeds, probing terminates,
    and the outcome is that of searching the keys it was created with one by one.
   */
  method LookupWritten(t: State, root: int, h: int, ghost hash: int -> u32, buf: bytes, x: u32, test: RValue -> HashLookup.Match)
    returns (p: HashLookup.ProbeResult, key: Option<RNode>, value: Option<RNode>)
    requires Writable(t) && IsHandle(t, root) && IsTable(t, h) && buf == Serialized(t, root) && LaidOut(t, hash, h)
    ensures IsSearch(t, hash, h, x, test, p, key, value)
  {
    ghost var slots, pos := WrittenIsLaidOut(t, hash, h);
    WrittenTableReads(t, root, h);
    PartTypes(t, h);
    hide Writable, Serialized, Opens, LaidOut, ReadTable, WrittenTable, IsSearch, ToRead;
    hide HashTable.Placed, HashTable.IsTable, HashTable.HasEmptySlot, HashLookup.Probes;
    p, key, value := Lookup(buf, ToRead(t, h), x, test);
    ProbeIsSearch(t, hash, h, WrittenTable(t, h), slots, pos, x, test, p, key, value);
  }
}

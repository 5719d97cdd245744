/**
  Sets and maps whose vectors are hash tables: every key at its place, with its hash and, in a map, its value.
 */
module LaidOutTables {
  import opened Wrappers
  import opened PowersOfTwo
  import opened Bitvector
  import opened Unfolding
  import opened Values
  import opened CreateState
  import opened Prepare
  import opened Tables
  import opened CreatePasses
  import HashTable

  function HashPartOf(s: State, h: int): int
    requires IsTable(s, h)
  {
    if KindOf(s.values[h]) == SetTable then h - 2 else h - 3
  }

  function KeyPartOf(s: State, h: int): int
    requires IsTable(s, h)
  {
    if KindOf(s.values[h]) == SetTable then h - 1 else h - 2
  }

  /** The vectors that sets and maps keep their keys in are marked hashable. */
  ghost predicate KeysMarked(s: State) {
    forall h :: IsTable(s, h) && IsHandle(s, KeyPartOf(s, h)) ==> s.values[KeyPartOf(s, h)].typ == VECTOR_VALUE_HASHABLE
  }

  /** The values of a map, in the order of its keys. */
  function TableValues(s: State, h: int): seq<int>
    requires IsTable(s, h)
  {
    if KindOf(s.values[h]) == MapTable && s.values[h].data < |s.maps| then s.maps[s.values[h].data].values else []
  }

  /** The buckets in no slot hold the empty-slot value. */
  ghost predicate BlankElsewhere(s: State, vs: seq<int>, slots: seq<nat>) {
    forall b :: 0 <= b < |vs| && b !in slots ==> IsHandle(s, vs[b]) && s.values[vs[b]].typ == EMPTY_SLOT
  }

  /** The values of a map stand in the buckets of their keys, and nowhere else. */
  ghost predicate ValuesFollow(s: State, h: int, slots: seq<nat>)
    requires IsTable(s, h)
  {
    KindOf(s.values[h]) == MapTable ==>
      var values, vs := TableValues(s, h), Part(s, h - 1);
      |values| == |slots| && (forall a :: 0 <= a < |slots| ==> slots[a] < |vs| && vs[slots[a]] == values[a]) && BlankElsewhere(s, vs, slots)
  }

  /** The number of buckets is the one that populate computes for n keys. */
  ghost predicate RightSize(n: nat, buckets: nat) {
    n + n / 2 <= HashTable.MAX_BUCKETS && buckets == HashTable.BucketCount(n)
  }

  ghost predicate LaidOutAs(s: State, hash: int -> u32, h: int, hs: seq<u32>, cells: seq<Slot>, slots: seq<nat>, pos: seq<nat>, empty: int)
    requires IsTable(s, h)
  {
    var keys := TableKeys(s, h);
    && |slots| == |keys| && KeysAllowed(s, keys) && IsHandle(s, empty) && s.values[empty].typ == EMPTY_SLOT
    && HashTable.IsTable(hs, cells) && HashTable.HasEmptySlot(cells) && RightSize(|keys|, |cells|)
    && HashTable.Placed(Hashes(hash, keys), Keys(keys), hs, cells, slots, pos)
    && Part(s, HashPartOf(s, h)) == hs && Part(s, KeyPartOf(s, h)) == Handles(cells, empty)
    && ValuesFollow(s, h, slots)
  }

  /** The vectors of set or map h are a well-placed hash table of its keys. */
  ghost predicate LaidOut(s: State, hash: int -> u32, h: int) {
    IsTable(s, h) && exists hs, cells, slots, pos, empty :: LaidOutAs(s, hash, h, hs, cells, slots, pos, empty)
  }

  /** All tables of kind k among the first n values are laid out. */
  ghost predicate LaidOutUpTo(s: State, hash: int -> u32, k: Kind, n: int) {
    forall h :: 0 <= h < n && IsTable(s, h) && KindOf(s.values[h]) == k ==> LaidOut(s, hash, h)
  }

  ghost predicate AllTablesLaidOut(s: State, hash: int -> u32) {
    forall h :: IsTable(s, h) ==> LaidOut(s, hash, h)
  }

  // ---- a table that has just been filled ----

  lemma ValuesFollowCells(t: State, h: int, vs: seq<Slot>, slots: seq<nat>, empty: int)
    requires IsTable(t, h) && KindOf(t.values[h]) == MapTable && |TableValues(t, h)| == |slots|
    requires HashTable.ValuesPlaced(Cells(TableValues(t, h), empty), vs, slots) && Part(t, h - 1) == Handles(vs, empty)
    requires IsHandle(t, empty) && t.values[empty].typ == EMPTY_SLOT
    ensures ValuesFollow(t, h, slots)
  {
  }

  lemma JustLaidOut(t: State, hash: int -> u32, h: int, hs: seq<u32>, cells: seq<Slot>, vs: seq<Slot>, slots: seq<nat>, pos: seq<nat>, empty: int)
    requires IsTable(t, h) && |slots| == |TableKeys(t, h)| && KeysAllowed(t, TableKeys(t, h)) && IsHandle(t, empty) && t.values[empty].typ == EMPTY_SLOT
    requires HashTable.IsTable(hs, cells) && |TableKeys(t, h)| < |cells| && RightSize(|TableKeys(t, h)|, |cells|)
    requires HashTable.Placed(Hashes(hash, TableKeys(t, h)), Keys(TableKeys(t, h)), hs, cells, slots, pos)
    requires Part(t, HashPartOf(t, h)) == hs && Part(t, KeyPartOf(t, h)) == Handles(cells, empty)
    requires KindOf(t.values[h]) == MapTable ==>
      |TableValues(t, h)| == |slots| && HashTable.ValuesPlaced(Cells(TableValues(t, h), empty), vs, slots) && Part(t, h - 1) == Handles(vs, empty)
    ensures LaidOut(t, hash, h)
  {
    HashTable.PlacedLeavesRoom(Hashes(hash, TableKeys(t, h)), Keys(TableKeys(t, h)), hs, cells, slots, pos);
    hide HashTable.Placed, HashTable.ValuesPlaced, HashTable.HasEmptySlot, HashTable.IsTable, Handles, Part, KeysAllowed, RightSize, ValuesFollow;
    if KindOf(t.values[h]) == MapTable { ValuesFollowCells(t, h, vs, slots, empty); }
    assert LaidOutAs(t, hash, h, hs, cells, slots, pos, empty);
  }

  // ---- the tables before it ----

  /** Filling one table leaves the others as they are. */
  lemma OtherStaysLaidOut(s: State, t: State, hash: int -> u32, g: int, h: int)
    requires Good(s) && FilledAt(s, t, h) && IsTable(s, g) && g != h && LaidOut(s, hash, g)
    ensures LaidOut(t, hash, g)
  {
    var hs, cells, slots, pos, empty :| LaidOutAs(s, hash, g, hs, cells, slots, pos, empty);
    OtherTableSame(s, t, g, h);
    GrownAllowed(s, t, TableKeys(s, g));
    OtherValuesFollow(s, t, g, slots);
    hide Good, FilledAt, HashTable.Placed, HashTable.HasEmptySlot, HashTable.IsTable, Part, Handles, KeysAllowed, RightSize, ValuesFollow;
    assert LaidOutAs(t, hash, g, hs, cells, slots, pos, empty);
  }

  lemma OtherValuesFollow(s: State, t: State, g: int, slots: seq<nat>)
    requires IsTable(s, g) && IsTable(t, g) && s.values <= t.values && KindOf(t.values[g]) == KindOf(s.values[g])
    requires TableValues(t, g) == TableValues(s, g) && (KindOf(s.values[g]) == MapTable ==> Part(t, g - 1) == Part(s, g - 1))
    requires ValuesFollow(s, g, slots)
    ensures ValuesFollow(t, g, slots)
  {
    hide Part, TableValues;
  }

  lemma GrownAllowed(s: State, t: State, keys: seq<int>)
    requires KeysAllowed(s, keys) && s.values <= t.values
    ensures KeysAllowed(t, keys)
  {
  }

  lemma OtherTableSame(s: State, t: State, g: int, h: int)
    requires Good(s) && FilledAt(s, t, h) && IsTable(s, g) && g != h
    ensures s.values <= t.values && IsTable(t, g) && KindOf(t.values[g]) == KindOf(s.values[g])
    ensures TableKeys(t, g) == TableKeys(s, g) && TableValues(t, g) == TableValues(s, g)
    ensures Part(t, HashPartOf(s, g)) == Part(s, HashPartOf(s, g)) && Part(t, KeyPartOf(s, g)) == Part(s, KeyPartOf(s, g))
    ensures KindOf(s.values[g]) == MapTable ==> Part(t, g - 1) == Part(s, g - 1)
  {
    hide Good, Part;
    OtherParts(s, t, g, h, HashPartOf(s, g));
    OtherParts(s, t, g, h, KeyPartOf(s, g));
    OtherParts(s, t, g, h, g - 1);
  }

  lemma TableBefore(s: State, t: State, g: int, h: int)
    requires FilledAt(s, t, h) && 0 <= g < h && IsTable(t, g)
    ensures IsTable(s, g) && t.values[g] == s.values[g]
  {
  }

  /** Filling table h of kind k extends the tables laid out so far by one. */
  lemma OneMoreLaidOut(s: State, t: State, hash: int -> u32, k: Kind, h: int)
    requires Good(s) && FilledAt(s, t, h) && KindOf(s.values[h]) == k && LaidOutUpTo(s, hash, k, h) && LaidOut(t, hash, h)
    ensures LaidOutUpTo(t, hash, k, h + 1)
  {
    hide Good, FilledAt, LaidOut, KindOf;
    forall g | 0 <= g < h && IsTable(t, g) && KindOf(t.values[g]) == k ensures LaidOut(t, hash, g) {
      TableBefore(s, t, g, h);
      OtherStaysLaidOut(s, t, hash, g, h);
    }
  }

  /** Filling a map leaves the sets laid out. */
  lemma OthersStayLaidOut(s: State, t: State, hash: int -> u32, k: Kind, h: int, n: int)
    requires Good(s) && FilledAt(s, t, h) && KindOf(s.values[h]) != k && LaidOutUpTo(s, hash, k, n) && n <= |s.values|
    ensures LaidOutUpTo(t, hash, k, n)
  {
    forall g | 0 <= g < n && IsTable(t, g) && KindOf(t.values[g]) == k ensures LaidOut(t, hash, g) {
      assert IsTable(s, g);
      OtherStaysLaidOut(s, t, hash, g, h);
    }
    hide LaidOut;
  }

  lemma NotThatKind(s: State, hash: int -> u32, k: Kind, h: int)
    requires LaidOutUpTo(s, hash, k, h) && IsHandle(s, h) && KindOf(s.values[h]) != k
    ensures LaidOutUpTo(s, hash, k, h + 1)
  {
    hide LaidOut;
  }

  lemma BothKindsLaidOut(s: State, t: State, n: nat, hash: int -> u32)
    requires SameButTables(s, t, n) && LaidOutUpTo(t, hash, SetTable, n) && LaidOutUpTo(t, hash, MapTable, n)
    ensures AllTablesLaidOut(t, hash)
  {
    hide LaidOut;
  }

  lemma NothingLaidOut(s: State, hash: int -> u32)
    ensures LaidOutUpTo(s, hash, SetTable, 0) && LaidOutUpTo(s, hash, MapTable, 0)
  {
  }

  /** The bucket arrays, handed over to the vectors of table h, make a hash table of its keys. */
  lemma TableLaidOut(s: State, s1: State, t: State, hash: int -> u32, h: int, hs: seq<u32>, ks: seq<Slot>, vs: seq<Slot>, slots: seq<nat>, pos: seq<nat>, empty: int)
    requires Good(s) && IsTable(s, h) && FilledAt(s, t, h) && s1.values == t.values && s.values <= s1.values
    requires IsHandle(t, empty) && t.values[empty].typ == EMPTY_SLOT
    requires AllKeysFine(s1, TableKeys(s, h)) && |slots| == |TableKeys(s, h)| < |ks| && HashTable.IsTable(hs, ks) && RightSize(|slots|, |ks|)
    requires HashTable.Placed(Hashes(hash, TableKeys(s, h)), Keys(TableKeys(s, h)), hs, ks, slots, pos)
    requires KindOf(s.values[h]) == MapTable && s.values[h].data < |s.maps| ==>
      HashTable.ValuesPlaced(Cells(s.maps[s.values[h].data].values, empty), vs, slots)
    requires if KindOf(s.values[h]) == SetTable then Part(t, h - 2) == hs && Part(t, h - 1) == Handles(ks, empty)
             else Part(t, h - 3) == hs && Part(t, h - 2) == Handles(ks, empty) && Part(t, h - 1) == Handles(vs, empty)
    ensures LaidOut(t, hash, h)
  {
    TableIsPublic(s, h);
    KeysStayAllowed(s, s1, t, TableKeys(s, h));
    hide Good, HashTable.Placed, HashTable.IsTable, HashTable.ValuesPlaced, Part, Handles, KeysAllowed, AllKeysFine, AllPublic, LaidOut, RightSize;
    JustLaidOut(t, hash, h, hs, ks, vs, slots, pos, empty);
  }

  lemma KeysStayAllowed(s: State, s1: State, t: State, keys: seq<int>)
    requires AllPublic(s, keys) && AllKeysFine(s1, keys) && s1.values == t.values && s.values <= t.values
    ensures KeysAllowed(t, keys)
  {
  }

  // ---- the vectors of keys are marked ----

  /** The private value vectors that lie on no cycle have been marked. */
  ghost predicate MarkedUnless(s: State, t: State, cyclic: set<int>) {
    |t.values| == |s.values| && forall h :: IsHandle(s, h) && h !in cyclic && s.values[h].typ == VECTOR_VALUE && !s.values[h].outside ==>
      t.values[h].typ == VECTOR_VALUE_HASHABLE
  }

  lemma PartIsMarked(s: State, s1: State, s2: State, p: State, cyclic: set<int>, k: int)
    requires RenumberedTo(s, s1.values, s1.priv, |s1.values|) && MarkedTo(s1, s2) && CompressedTo(s2, p)
    requires Good(s1) && Unprepared(s1) && MarkedUnless(s1, s2, cyclic) && IsValuePart(p, k)
    requires forall g :: g in cyclic && IsHandle(s, g) ==> !s.values[g].setMap
    ensures p.values[k].typ == VECTOR_VALUE_HASHABLE
  {
    assert CompressedValue(s2, k, p.values[k]) && MarkedValue(s1.values[k], s2.values[k]);
    RenumberedKinds(s, s1.values, s1.priv, k);
    assert GoodValue(s1, k);
    hide Numbered, GoodItems, RenumberedValue, AllCompressTo;
  }

  lemma KeyPartIsPart(p: State, h: int)
    requires Good(p) && IsTable(p, h)
    ensures IsValuePart(p, KeyPartOf(p, h))
  {
    assert GoodValue(p, h);
  }

  /** The passes before the tables are filled mark the vectors of keys, for these lie on no cycle. */
  lemma PassesMark(s: State, s1: State, s2: State, p: State, cyclic: set<int>)
    requires RenumberedTo(s, s1.values, s1.priv, |s1.values|) && MarkedTo(s1, s2) && CompressedTo(s2, p)
    requires Good(s1) && Unprepared(s1) && MarkedUnless(s1, s2, cyclic) && Good(p)
    requires forall g :: g in cyclic && IsHandle(s, g) ==> !s.values[g].setMap
    ensures KeysMarked(p)
  {
    hide Good, Unprepared, RenumberedTo, MarkedTo, CompressedTo, MarkedUnless, IsValuePart;
    forall h | IsTable(p, h) && IsHandle(p, KeyPartOf(p, h)) ensures p.values[KeyPartOf(p, h)].typ == VECTOR_VALUE_HASHABLE {
      KeyPartIsPart(p, h);
      PartIsMarked(s, s1, s2, p, cyclic, KeyPartOf(p, h));
    }
  }

  /** Filling the tables leaves the marks. */
  lemma MarksStay(p: State, t: State, n: nat)
    requires KeysMarked(p) && Good(p) && SameButTables(p, t, n)
    ensures KeysMarked(t)
  {
    SameKeys(p, t, n);
    hide Good;
    forall h | IsTable(t, h) ensures IsHandle(t, KeyPartOf(t, h)) && t.values[KeyPartOf(t, h)].typ == VECTOR_VALUE_HASHABLE {
      assert IsTable(p, h);
      KeyPartIsPart(p, h);
    }
  }
}

/**
  Laying out sets and maps in their buckets: what filling one table changes in the create-state, and that it
  keeps everything else.
 */
module Tables {
  import opened Wrappers
  import opened PowersOfTwo
  import opened Bitvector
  import opened Unfolding
  import opened Values
  import opened CreateState
  import HashTable

  type Slot = HashTable.Slot<int>

  // ---- what the buckets hold ----

  lemma {:induction false} KeptFlip<T>(marks: seq<bool>, xs: seq<T>, b: nat)
    requires |marks| == |xs| && b < |xs| && marks[b]
    ensures multiset(Kept(marks, xs)) == multiset(Kept(marks[b := false], xs)) + multiset{xs[b]}
  {
    var n := |xs| - 1;
    if b < n {
      KeptFlip(marks[..n], xs[..n], b);
      assert marks[b := false][..n] == marks[..n][b := false];
    } else {
      assert marks[b := false][..n] == marks[..n];
    }
  }

  lemma {:induction false} KeptNone<T>(marks: seq<bool>, xs: seq<T>)
    requires |marks| == |xs| && forall b :: 0 <= b < |xs| ==> !marks[b]
    ensures Kept(marks, xs) == []
  {
    if xs != [] { KeptNone(marks[..|xs| - 1], xs[..|xs| - 1]); }
  }

  /** Elements placed at pairwise different slots are what the marked slots hold. */
  lemma {:induction false} KeptIsPlaced<T>(marks: seq<bool>, xs: seq<T>, slots: seq<nat>, ys: seq<T>)
    requires |marks| == |xs| && |slots| == |ys|
    requires forall a :: 0 <= a < |slots| ==> slots[a] < |xs| && xs[slots[a]] == ys[a]
    requires forall a, b :: 0 <= a < b < |slots| ==> slots[a] != slots[b]
    requires forall b :: 0 <= b < |xs| ==> (marks[b] <==> b in slots)
    ensures multiset(Kept(marks, xs)) == multiset(ys)
    decreases |slots|
  {
    if slots == [] {
      KeptNone(marks, xs);
    } else {
      var n := |slots| - 1;
      var last := slots[n];
      assert slots == slots[..n] + [last] && ys == ys[..n] + [ys[n]];
      KeptFlip(marks, xs, last);
      KeptIsPlaced(marks[last := false], xs, slots[..n], ys[..n]);
    }
  }

  // ---- filling one table ----

  const EMPTY_VALUE := CValue(EMPTY_SLOT, false, false, false, 0)

  /** p is one of the vectors that the set or map h keeps. */
  predicate IsPartOf(s: State, p: int, h: int) {
    IsHandle(s, h) &&
    match KindOf(s.values[h])
    case SetTable => p == h - 2 || p == h - 1
    case MapTable => p == h - 3 || p == h - 2 || p == h - 1
    case _ => false
  }

  predicate IsTable(s: State, h: int) {
    IsHandle(s, h) && (KindOf(s.values[h]) == SetTable || KindOf(s.values[h]) == MapTable)
  }

  /** A vector is kept by at most one table. */
  lemma PartsApart(s: State, p: int, g: int, h: int)
    requires Good(s) && IsTable(s, g) && IsTable(s, h) && g != h
    requires IsPartOf(s, p, g)
    ensures !IsPartOf(s, p, h)
  {
    hide Numbered;
    PartsAreSetMap(s, g);
    PartsAreSetMap(s, h);
    hide Good;
  }

  /** Sets and maps are not themselves kept by a table, what they keep is. */
  lemma PartsAreSetMap(s: State, h: int)
    requires Good(s) && IsTable(s, h)
    ensures !s.values[h].setMap && forall p :: IsPartOf(s, p, h) ==> IsHandle(s, p) && s.values[p].setMap
  {
    hide Good;
    GoodAt(s, h);
    hide GoodItems, ValidText, ValidBits, AllPublic;
  }

  lemma GoodAt(s: State, h: int)
    requires Good(s) && IsHandle(s, h)
    ensures GoodValue(s, h)
  {
    hide GoodValue;
  }

  lemma PartIsVector(s: State, p: int, h: int)
    requires Good(s) && IsPartOf(s, p, h)
    ensures IsHandle(s, p) && s.values[p].setMap && KindOf(s.values[p]) == PrivateVector && s.values[p].data < |s.priv|
  {
    hide Good;
    GoodAt(s, h);
    PartsAreSetMap(s, h);
    GoodAt(s, p);
    hide GoodItems, ValidText, ValidBits, AllPublic, GoodSet, GoodMap;
  }

  /** t is s with new items in the parts of table h, and perhaps the empty-slot value added. */
  ghost predicate FilledAt(s: State, t: State, h: int) {
    && IsTable(s, h)
    && t == s.(values := t.values, priv := t.priv) && |t.priv| == |s.priv|
    && (t.values == s.values || t.values == s.values + [EMPTY_VALUE])
    && (forall p :: IsHandle(s, p) && KindOf(s.values[p]) == PrivateVector && s.values[p].data < |s.priv| && !IsPartOf(s, p, h) ==>
          t.priv[s.values[p].data] == s.priv[s.values[p].data])
  }

  lemma AppendedRank(s: State, t: State, k: Kind, n: nat)
    requires k != InWord && s.values <= t.values && n <= |t.values|
    requires forall h :: |s.values| <= h < |t.values| ==> KindOf(t.values[h]) == InWord
    ensures Rank(t.values, k, n) == Rank(s.values, k, if n <= |s.values| then n else |s.values|)
    decreases n
  {
    if n > 0 {
      AppendedRank(s, t, k, n - 1);
    }
  }

  lemma FilledNumbered(s: State, t: State, h: int)
    requires Numbered(s) && FilledAt(s, t, h)
    ensures Numbered(t)
  {
    forall k: Kind, n: nat | k != InWord && n <= |t.values|
      ensures Rank(t.values, k, n) == Rank(s.values, k, if n <= |s.values| then n else |s.values|)
    {
      AppendedRank(s, t, k, n);
    }
    hide Rank;
  }

  /** Items that were fine as handles or numbers still are. */
  lemma GrownItems(s: State, t: State, v: CValue, items: seq<int>)
    requires s.values <= t.values
    ensures GoodItems(s, v, items) ==> GoodItems(t, v, items)
    ensures AllPublic(s, items) ==> AllPublic(t, items)
  {
    if GoodItems(s, v, items) && v.compressed {
      forall i | 0 <= i < |items| ensures IsPublic(t, items[i]) && CompressesTo(v.typ, t.values[items[i]]) {
        assert CompressesTo(v.typ, s.values[items[i]]);
      }
    }
  }

  lemma PartIsNotPublic(s: State, h: int, g: int)
    requires Good(s) && IsHandle(s, g) && !s.values[g].setMap
    ensures !IsPartOf(s, g, h)
  {
    if IsPartOf(s, g, h) { PartIsVector(s, g, h); }
  }

  /** Filling a table keeps every value well-formed. */
  lemma FilledGoodValue(s: State, t: State, h: int, g: int)
    requires Good(s) && FilledAt(s, t, h) && IsHandle(s, g)
    ensures GoodValue(t, g)
  {
    assert GoodValue(s, g);
    if KindOf(s.values[g]) == PrivateVector {
      if !s.values[g].setMap { PartIsNotPublic(s, h, g); }
      hide Good, IsPartOf, IsTable, Rank;
      FilledVectorGood(s, t, h, g);
    } else {
      hide Good, IsPartOf, IsTable, Rank;
      FilledOtherGood(s, t, h, g);
    }
  }

  lemma FilledVectorGood(s: State, t: State, h: int, g: int)
    requires FilledAt(s, t, h) && IsHandle(s, g) && KindOf(s.values[g]) == PrivateVector && GoodValue(s, g)
    requires !s.values[g].setMap ==> !IsPartOf(s, g, h)
    ensures GoodValue(t, g)
  {
    hide IsPartOf, IsTable, GoodItems;
    var v := s.values[g];
    if !v.setMap { GrownItems(s, t, v, s.priv[v.data]); }
  }

  lemma FilledOtherGood(s: State, t: State, h: int, g: int)
    requires FilledAt(s, t, h) && IsHandle(s, g) && KindOf(s.values[g]) != PrivateVector && GoodValue(s, g)
    ensures GoodValue(t, g)
  {
    hide IsPartOf, IsTable, GoodItems, AllPublic;
    var v := s.values[g];
    match KindOf(v)
    case OutsideVector => GrownItems(s, t, v, s.outside[v.data]);
    case SetTable => GrownItems(s, t, v, s.sets[v.data].keys);
    case MapTable => GrownItems(s, t, v, s.maps[v.data].keys); GrownItems(s, t, v, s.maps[v.data].values);
    case _ =>
  }

  /** Filling a table keeps the shape of every handle but those of the table's own vectors. */
  lemma FilledShape(s: State, t: State, h: int, g: int)
    requires Good(s) && FilledAt(s, t, h) && IsPublic(s, g)
    ensures CShape(s, Ref(g)) == CShape(t, Ref(g))
  {
    PartIsNotPublic(s, h, g);
    assert s.values[g] == t.values[g];
    hide Good, IsPartOf;
  }

  ghost predicate SamePublicShapes(s: State, t: State) {
    |s.values| <= |t.values| && forall h :: IsPublic(s, h) ==> IsPublic(t, h) && CShape(s, Ref(h)) == CShape(t, Ref(h))
  }

  lemma FillingKeeps(s: State, t: State, h: int)
    requires Good(s) && FilledAt(s, t, h) && |t.values| < 0xFFFF_FFFF
    ensures Good(t) && SamePublicShapes(s, t)
  {
    FilledNumbered(s, t, h);
    forall g | IsHandle(t, g) ensures GoodValue(t, g) {
      if IsHandle(s, g) { FilledGoodValue(s, t, h, g); }
    }
    forall g | IsPublic(s, g) ensures CShape(s, Ref(g)) == CShape(t, Ref(g)) {
      FilledShape(s, t, h, g);
    }
    hide GoodValue, Numbered, CShape;
  }

  // ---- the tables made so far ----

  ghost predicate Made(s: State, h: int)
    requires IsHandle(s, h)
  {
    var v := s.values[h];
    && (KindOf(v) == SetTable ==> v.data < |s.sets| && SetMade(s, s.sets[v.data]))
    && (KindOf(v) == MapTable ==> v.data < |s.maps| && MapMade(s, s.maps[v.data]))
  }

  ghost predicate Unmade(s: State, h: int) {
    forall p :: IsPartOf(s, p, h) ==> Part(s, p) == []
  }

  /** Sets below handle ns and maps below handle nm have been laid out; the parts of the others are empty. */
  ghost predicate MadeUpTo(s: State, ns: int, nm: int) {
    && (forall h :: IsTable(s, h) ==> if h < (if KindOf(s.values[h]) == SetTable then ns else nm) then Made(s, h) else Unmade(s, h))
    && (forall h :: IsHandle(s, h) && s.values[h].setMap ==> GoodPart(s, s.values[h], ItemsOf(s, s.values[h])))
  }

  /** The parts of another table, and its keys and values, are not touched. */
  lemma OtherParts(s: State, t: State, g: int, h: int, p: int)
    requires Good(s) && FilledAt(s, t, h) && IsTable(s, g) && g != h && IsPartOf(s, p, g)
    ensures Part(t, p) == Part(s, p)
  {
    PartsApart(s, p, g, h);
    PartIsVector(s, p, g);
    hide IsPartOf, Good;
  }

  lemma SetParts(s: State, g: int)
    requires Good(s) && IsHandle(s, g) && KindOf(s.values[g]) == SetTable
    ensures s.values[g].data < |s.sets|
    ensures var x := s.sets[s.values[g].data];
      && x.hashVector == g - 2 && x.keyVector == g - 1
      && IsPartOf(s, g - 2, g) && IsPartOf(s, g - 1, g)
      && IsHashPart(s, g - 2) && IsValuePart(s, g - 1)
  {
    assert GoodValue(s, g);
  }

  lemma MapParts(s: State, g: int)
    requires Good(s) && IsHandle(s, g) && KindOf(s.values[g]) == MapTable
    ensures s.values[g].data < |s.maps|
    ensures var x := s.maps[s.values[g].data];
      && x.hashVector == g - 3 && x.keyVector == g - 2 && x.valueVector == g - 1
      && IsPartOf(s, g - 3, g) && IsPartOf(s, g - 2, g) && IsPartOf(s, g - 1, g)
      && IsHashPart(s, g - 3) && IsValuePart(s, g - 2) && IsValuePart(s, g - 1)
  {
    assert GoodValue(s, g);
  }

  lemma GrownOccupied(s: State, t: State, ks: seq<int>)
    requires s.values <= t.values && forall i :: 0 <= i < |ks| ==> IsHandle(s, ks[i])
    ensures Occupied(s, ks) == Occupied(t, ks)
  {
  }

  lemma OtherSetStaysMade(s: State, t: State, g: int, h: int)
    requires Good(s) && FilledAt(s, t, h) && IsHandle(s, g) && KindOf(s.values[g]) == SetTable && g != h
    requires Made(s, g) && PartsOfHandles(s, g)
    ensures Made(t, g)
  {
    hide Good, Kept, KindOf, Part, IsPartOf, Occupied;
    SetParts(s, g);
    OtherParts(s, t, g, h, g - 2);
    OtherParts(s, t, g, h, g - 1);
    GrownOccupied(s, t, Part(s, g - 1));
  }

  lemma OtherMapStaysMade(s: State, t: State, g: int, h: int)
    requires Good(s) && FilledAt(s, t, h) && IsHandle(s, g) && KindOf(s.values[g]) == MapTable && g != h
    requires Made(s, g) && PartsOfHandles(s, g)
    ensures Made(t, g)
  {
    hide Good, Kept, Zip, KindOf, Part, IsPartOf, Occupied;
    MapParts(s, g);
    OtherParts(s, t, g, h, g - 3);
    OtherParts(s, t, g, h, g - 2);
    OtherParts(s, t, g, h, g - 1);
    GrownOccupied(s, t, Part(s, g - 2));
  }

  ghost predicate PartsOfHandles(s: State, g: int) {
    forall p :: IsPartOf(s, p, g) && IsHandle(s, p) && IsValueVector(s.values[p].typ) ==> forall i :: 0 <= i < |Part(s, p)| ==> IsHandle(s, Part(s, p)[i])
  }

  /** After filling set or map h, one more table is made. */
  lemma FillStep(s: State, t: State, h: int, ns: int, nm: int)
    requires Good(s) && FilledAt(s, t, h) && MadeUpTo(s, ns, nm) && |t.values| < 0xFFFF_FFFF
    requires if KindOf(s.values[h]) == SetTable then h == ns else h == nm
    requires Made(t, h)
    requires forall p :: IsPartOf(s, p, h) ==> IsHandle(t, p) && GoodPart(t, t.values[p], Part(t, p))
    ensures if KindOf(s.values[h]) == SetTable then MadeUpTo(t, ns + 1, nm) else MadeUpTo(t, ns, nm + 1)
  {
    hide Good, Made, Unmade, GoodPart, ItemsOf, Part, IsPartOf;
    forall g | IsTable(t, g) && g != h ensures IsTable(s, g) && (Made(s, g) ==> Made(t, g)) && (Unmade(s, g) ==> Unmade(t, g)) {
      assert IsTable(s, g);
      OtherTable(s, t, g, h, ns, nm);
    }
    forall g | IsHandle(t, g) && t.values[g].setMap ensures GoodPart(t, t.values[g], ItemsOf(t, t.values[g])) {
      OtherPart(s, t, g, h, ns, nm);
    }
  }

  lemma PartKindsSame(s: State, t: State, p: int, g: int, h: int)
    requires FilledAt(s, t, h) && IsTable(s, g)
    ensures IsPartOf(t, p, g) <==> IsPartOf(s, p, g)
  {
  }

  lemma OtherTable(s: State, t: State, g: int, h: int, ns: int, nm: int)
    requires Good(s) && FilledAt(s, t, h) && MadeUpTo(s, ns, nm) && IsTable(s, g) && g != h
    ensures (Made(s, g) ==> Made(t, g)) && (Unmade(s, g) ==> Unmade(t, g))
  {
    assert PartsOfHandles(s, g);
    hide Good, Made, Part, GoodPart, ItemsOf, IsPartOf;
    if Made(s, g) {
      if KindOf(s.values[g]) == SetTable { OtherSetStaysMade(s, t, g, h); } else { OtherMapStaysMade(s, t, g, h); }
    }
    forall p | IsPartOf(t, p, g) ensures Part(t, p) == Part(s, p) {
      PartKindsSame(s, t, p, g, h);
      OtherParts(s, t, g, h, p);
    }
  }

  lemma OtherPart(s: State, t: State, g: int, h: int, ns: int, nm: int)
    requires Good(s) && FilledAt(s, t, h) && MadeUpTo(s, ns, nm) && IsHandle(t, g) && t.values[g].setMap
    requires forall p :: IsPartOf(s, p, h) ==> IsHandle(t, p) && GoodPart(t, t.values[p], Part(t, p))
    ensures GoodPart(t, t.values[g], ItemsOf(t, t.values[g]))
  {
    hide Made, Unmade, MadeUpTo, IsPartOf, Good, ItemsOf, GoodPart;
    NewPart(s, t, h, g);
    if !IsPartOf(s, g, h) {
      PartWasGood(s, ns, nm, g);
      UnfilledItems(s, t, h, g);
      GrownPart(s, t, s.values[g], ItemsOf(s, s.values[g]));
    }
  }

  lemma NewPart(s: State, t: State, h: int, g: int)
    requires FilledAt(s, t, h) && IsHandle(t, g) && t.values[g].setMap
    ensures IsHandle(s, g) && s.values[g] == t.values[g] && Part(t, g) == ItemsOf(t, t.values[g])
  {
  }

  lemma PartWasGood(s: State, ns: int, nm: int, g: int)
    requires MadeUpTo(s, ns, nm) && IsHandle(s, g) && s.values[g].setMap
    ensures GoodPart(s, s.values[g], ItemsOf(s, s.values[g]))
  {
    hide Made, Unmade, GoodPart, ItemsOf, IsTable;
  }

  lemma GrownPart(s: State, t: State, v: CValue, items: seq<int>)
    requires s.values <= t.values && GoodPart(s, v, items)
    ensures GoodPart(t, v, items)
  {
  }

  /** A vector that is no part of the filled table keeps its items. */
  lemma UnfilledItems(s: State, t: State, h: int, g: int)
    requires Good(s) && FilledAt(s, t, h) && IsHandle(s, g) && s.values[g].setMap && !IsPartOf(s, g, h)
    ensures t.values[g] == s.values[g] && ItemsOf(t, t.values[g]) == ItemsOf(s, s.values[g])
  {
    assert GoodValue(s, g);
    hide Good, IsPartOf;
  }

  /** When every table is made, the state is as the output passes need it. */
  lemma AllMade(s: State)
    requires Good(s) && MadeUpTo(s, |s.values|, |s.values|)
    ensures TablesMade(s)
  {
    forall h | IsHandle(s, h) ensures TableMade(s, h) {
      assert IsTable(s, h) ==> Made(s, h);
    }
  }

  // ---- from bucket arrays to items ----

  /** The keys of a table as populating takes them. */
  function Keys(keys: seq<int>): (r: seq<Slot>)
    ensures |r| == |keys| && forall i :: 0 <= i < |keys| ==> r[i] == HashTable.Full(keys[i])
  {
    seq(|keys|, i requires 0 <= i < |keys| => HashTable.Full(keys[i]))
  }

  /** A map may hold the empty-slot value itself; populating then sees a blank. */
  function Cells(values: seq<int>, empty: int): (r: seq<Slot>)
    ensures |r| == |values|
    ensures forall i :: 0 <= i < |values| ==> r[i] == if values[i] == empty then HashTable.Empty else HashTable.Full(values[i])
  {
    seq(|values|, i requires 0 <= i < |values| => if values[i] == empty then HashTable.Empty else HashTable.Full(values[i]))
  }

  function Handles(cells: seq<Slot>, empty: int): (r: seq<int>)
    ensures |r| == |cells| && forall b :: 0 <= b < |cells| ==> r[b] == if cells[b].Empty? then empty else cells[b].key
  {
    seq(|cells|, b requires 0 <= b < |cells| => if cells[b].Empty? then empty else cells[b].key)
  }

  /** Keys that may stand in a table: public handles that are not the empty-slot value. */
  ghost predicate KeysAllowed(s: State, keys: seq<int>) {
    AllPublic(s, keys) && forall a :: 0 <= a < |keys| ==> s.values[keys[a]].typ != EMPTY_SLOT
  }

  lemma OccupiedIsPlaced(t: State, keys: seq<int>, hv: seq<u32>, hs: seq<u32>, ks: seq<Slot>, slots: seq<nat>, empty: int)
    requires KeysAllowed(t, keys) && IsHandle(t, empty) && t.values[empty].typ == EMPTY_SLOT
    requires HashTable.Contents(hv, Keys(keys), hs, ks, slots) && |slots| == |keys|
    ensures forall b :: 0 <= b < |ks| ==> (Occupied(t, Handles(ks, empty))[b] <==> b in slots)
    ensures forall a :: 0 <= a < |slots| ==> Handles(ks, empty)[slots[a]] == keys[a]
    ensures forall b :: 0 <= b < |ks| ==> IsHandle(t, Handles(ks, empty)[b])
  {
    forall b | 0 <= b < |ks|
      ensures (Occupied(t, Handles(ks, empty))[b] <==> b in slots) && IsHandle(t, Handles(ks, empty)[b])
    {
      if b in slots {
        var a :| 0 <= a < |slots| && slots[a] == b;
        assert ks[b] == HashTable.Full(keys[a]);
      }
    }
  }

  /** The buckets of a populated set hold its keys. */
  lemma SetIsMade(t: State, h: int, hv: seq<u32>, hs: seq<u32>, ks: seq<Slot>, slots: seq<nat>, empty: int)
    requires Good(t) && IsHandle(t, h) && KindOf(t.values[h]) == SetTable && t.values[h].data < |t.sets|
    requires var keys := t.sets[t.values[h].data].keys;
      KeysAllowed(t, keys) && HashTable.Contents(hv, Keys(keys), hs, ks, slots) && |slots| == |keys|
    requires IsHandle(t, empty) && t.values[empty].typ == EMPTY_SLOT
    requires Part(t, h - 2) == hs && Part(t, h - 1) == Handles(ks, empty)
    ensures Made(t, h)
    ensures forall p :: IsPartOf(t, p, h) ==> IsHandle(t, p) && GoodPart(t, t.values[p], Part(t, p))
  {
    hide Good, Occupied, Kept, Handles, Keys, KeysAllowed, Part;
    var keys, read := t.sets[t.values[h].data].keys, Handles(ks, empty);
    OccupiedIsPlaced(t, keys, hv, hs, ks, slots, empty);
    SetParts(t, h);
    KeptIsPlaced(Occupied(t, read), read, slots, keys);
    HashesAreGood(t, h - 2, hs);
    HandlesAreGood(t, h - 1, read);
    hide GoodPart;
  }

  lemma HashesAreGood(t: State, p: int, hs: seq<u32>)
    requires IsHashPart(t, p)
    ensures GoodPart(t, t.values[p], hs)
  {
  }

  lemma HandlesAreGood(t: State, p: int, hs: seq<int>)
    requires IsValuePart(t, p) && forall i :: 0 <= i < |hs| ==> IsHandle(t, hs[i])
    ensures GoodPart(t, t.values[p], hs)
  {
  }

  /** The buckets of a populated map hold its key-value pairs. */
  lemma MapIsMade(t: State, h: int, hv: seq<u32>, hs: seq<u32>, ks: seq<Slot>, vs: seq<Slot>, slots: seq<nat>, empty: int)
    requires Good(t) && IsHandle(t, h) && KindOf(t.values[h]) == MapTable && t.values[h].data < |t.maps|
    requires var x := t.maps[t.values[h].data];
      && KeysAllowed(t, x.keys) && AllPublic(t, x.values) && |x.keys| == |x.values| == |slots| && |vs| == |ks|
      && HashTable.Contents(hv, Keys(x.keys), hs, ks, slots) && HashTable.ValuesPlaced(Cells(x.values, empty), vs, slots)
    requires IsHandle(t, empty) && t.values[empty].typ == EMPTY_SLOT
    requires Part(t, h - 3) == hs && Part(t, h - 2) == Handles(ks, empty) && Part(t, h - 1) == Handles(vs, empty)
    ensures Made(t, h)
    ensures forall p :: IsPartOf(t, p, h) ==> IsHandle(t, p) && GoodPart(t, t.values[p], Part(t, p))
  {
    hide Good, Occupied, Kept, Handles, Keys, Zip, KeysAllowed, Part, Cells, AllPublic;
    var x, readK, readV := t.maps[t.values[h].data], Handles(ks, empty), Handles(vs, empty);
    OccupiedIsPlaced(t, x.keys, hv, hs, ks, slots, empty);
    ValuesAreHandles(t, x.values, vs, slots, empty);
    MapParts(t, h);
    KeptIsPlaced(Occupied(t, readK), Zip(readK, readV), slots, Zip(x.keys, x.values));
    HashesAreGood(t, h - 3, hs);
    HandlesAreGood(t, h - 2, readK);
    HandlesAreGood(t, h - 1, readV);
    hide GoodPart;
  }

  lemma ValuesAreHandles(t: State, values: seq<int>, vs: seq<Slot>, slots: seq<nat>, empty: int)
    requires AllPublic(t, values) && |values| == |slots| && HashTable.ValuesPlaced(Cells(values, empty), vs, slots) && IsHandle(t, empty)
    ensures forall a :: 0 <= a < |slots| ==> Handles(vs, empty)[slots[a]] == values[a]
    ensures forall b :: 0 <= b < |vs| ==> IsHandle(t, Handles(vs, empty)[b])
  {
    forall b | 0 <= b < |vs| ensures IsHandle(t, Handles(vs, empty)[b]) {
      if b in slots {
        var a :| 0 <= a < |slots| && slots[a] == b;
        assert vs[b] == Cells(values, empty)[a];
      }
    }
  }

  // ---- the meaning of public handles ----

  ghost predicate Reachable(s: State, n: Node<int>) {
    match n case Ref(h) => IsPublic(s, h) case Number(t, x) => IsNumberVector(t) && Fits(t, x)
  }

  ghost predicate AllReachable(s: State, ns: seq<Node<int>>) {
    forall i :: 0 <= i < |ns| ==> Reachable(s, ns[i])
  }

  /** Public handles lead to public handles only. */
  lemma ReachableItems(s: State, n: Node<int>)
    requires Good(s) && Reachable(s, n)
    ensures match CShape(s, n)
      case Broken => false
      case Leaf(_) => true
      case Vector(items) => AllReachable(s, items)
      case SetOf(keys) => AllReachable(s, keys)
      case MapOf(keys, values) => |keys| == |values| && AllReachable(s, keys) && AllReachable(s, values)
  {
    if n.Ref? {
      assert GoodValue(s, n.v);
    }
    hide Good, Decode;
  }

  /** States that give all public handles the same shapes give them the same meaning. */
  lemma SamePublicMeaning(s: State, t: State, h: int, d: nat)
    requires Good(s) && SamePublicShapes(s, t) && IsPublic(s, h)
    ensures CUnfold(s, h, d) == CUnfold(t, h, d)
  {
    var r: Relation<Node<int>, Node<int>> := (a, b) => a == b && Reachable(s, a);
    forall a, b | r(a, b) ensures Matches(r, CGraph(s)(a), CGraph(t)(b)) {
      ReachableItems(s, a);
      hide Good, CShape;
      SelfMatches(s, r, CGraph(s)(a));
      assert CGraph(s)(a) == CGraph(t)(b) by {
        if a.Number? { NumberShapeSame(s, t, a); }
      }
    }
    assert r(Ref(h), Ref(h));
    StrictBisimulation(CGraph(s), CGraph(t), r);
    BisimilarUnfoldAlike(CGraph(s), CGraph(t), r, Ref(h), Ref(h), d);
  }

  lemma NumberShapeSame(s: State, t: State, a: Node<int>)
    requires a.Number?
    ensures CShape(s, a) == CShape(t, a)
  {
  }

  lemma SelfMatches(s: State, r: Relation<Node<int>, Node<int>>, x: Shape<Node<int>>)
    requires forall a :: Reachable(s, a) ==> r(a, a)
    requires match x
      case Broken => false
      case Leaf(_) => true
      case Vector(items) => AllReachable(s, items)
      case SetOf(keys) => AllReachable(s, keys)
      case MapOf(keys, values) => |keys| == |values| && AllReachable(s, keys) && AllReachable(s, values)
    ensures Matches(r, x, x)
  {
    hide Reachable;
    match x
    case SetOf(keys) => assert AllRelated(r, keys, keys);
    case MapOf(keys, values) => assert AllRelated(r, keys, keys) && AllRelated(r, values, values);
    case _ =>
  }
}

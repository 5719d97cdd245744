/**
  What the passes over a create-state have in common: the outcomes of laying out tables, what each pass leaves
  unchanged, and how the passes add up.
 */
module CreatePasses {
  import opened Wrappers
  import opened PowersOfTwo
  import opened Bitvector
  import opened Unfolding
  import opened Values
  import opened CreateState
  import opened Prepare
  import opened Tables
  import opened Bytes
  import opened Heap
  import opened Reader
  import opened ReadBack
  import opened RoundTrip
  import opened Output
  import HashTable

  type Comparator = (int, int) -> HashTable.Comparison

  datatype TableResult = TableDone | NotHashable | EmptySlotKey | DuplicateKey | CompareFailed

  datatype OutputResult = Written | UnsupportedVersion | NoRoot | Refused(why: TableResult)

  /** Vectors of values that may lie on a cycle, sets and maps have no hash. */
  predicate IsHashable(t: u32) {
    t != VECTOR_VALUE && t != SET_VALUE && t != MAP_VALUE_VALUE
  }

  function TableKeys(s: State, h: int): seq<int>
    requires IsHandle(s, h)
  {
    var v := s.values[h];
    if KindOf(v) == SetTable && v.data < |s.sets| then s.sets[v.data].keys
    else if KindOf(v) == MapTable && v.data < |s.maps| then s.maps[v.data].keys
    else []
  }

  /** A key that no table takes, and why: the first such key decides. */
  ghost predicate KeyRefused(s: State, k: int, r: TableResult) {
    IsHandle(s, k) &&
    match r
    case NotHashable => !IsHashable(s.values[k].typ)
    case EmptySlotKey => s.values[k].typ == EMPTY_SLOT
    case _ => false
  }

  ghost predicate KeyFine(s: State, k: int) {
    IsHandle(s, k) && IsHashable(s.values[k].typ) && s.values[k].typ != EMPTY_SLOT
  }

  ghost predicate FirstRefusedKey(s: State, keys: seq<int>, r: TableResult) {
    exists i :: 0 <= i < |keys| && KeyRefused(s, keys[i], r) && forall j :: 0 <= j < i ==> KeyFine(s, keys[j])
  }

  ghost predicate AllKeysFine(s: State, keys: seq<int>) {
    forall i :: 0 <= i < |keys| ==> KeyFine(s, keys[i])
  }

  /** Tables small enough for the bucket count. */
  ghost predicate TablesFit(s: State) {
    forall h :: IsTable(s, h) ==> |TableKeys(s, h)| + |TableKeys(s, h)| / 2 <= HashTable.MAX_BUCKETS
  }

  function Hashes(hash: int -> u32, keys: seq<int>): (r: seq<u32>)
    ensures |r| == |keys| && forall i :: 0 <= i < |keys| ==> r[i] == hash(keys[i])
  {
    seq(|keys|, i requires 0 <= i < |keys| => hash(keys[i]))
  }

  /** The outcome of laying out a table: which keys are to blame, or none. */
  ghost predicate TableOutcome(s: State, keys: seq<int>, hash: int -> u32, cmp: Comparator, r: TableResult) {
    var hv, kv := Hashes(hash, keys), Keys(keys);
    match r
    case TableDone => AllKeysFine(s, keys) && HashTable.AllDifferent(cmp, hv, kv)
    case DuplicateKey => AllKeysFine(s, keys) && HashTable.FirstBadPair(cmp, hv, kv, HashTable.Equal)
    case CompareFailed => AllKeysFine(s, keys) && HashTable.FirstBadPair(cmp, hv, kv, HashTable.Broken)
    case _ => FirstRefusedKey(s, keys, r)
  }

  lemma RootStaysPublic(s: State, t: State, root: int)
    requires SamePublicShapes(s, t) && IsPublic(s, root)
    ensures IsPublic(t, root)
  {
  }

  lemma SamePublicTransitive(s: State, t: State, u: State)
    requires SamePublicShapes(s, t) && SamePublicShapes(t, u)
    ensures SamePublicShapes(s, u)
  {
    forall h | IsPublic(s, h) ensures IsPublic(u, h) && CShape(s, Ref(h)) == CShape(u, Ref(h)) {
      assert IsPublic(t, h);
    }
    hide CShape;
  }

  /** What the passes leave of a value: its ownership, and all of a set or map. */
  predicate PassedValue(v: CValue, w: CValue) {
    && w.setMap == v.setMap
    && (v.typ == EMPTY_SLOT ==> w == v)
    && (KindOf(v) == SetTable || KindOf(v) == MapTable || KindOf(w) == SetTable || KindOf(w) == MapTable ==> w == v)
  }

  lemma PassedThrough(s: State, s1: State, s2: State, p: State, h: int)
    requires RenumberedTo(s, s1.values, s1.priv, |s1.values|) && MarkedTo(s1, s2) && CompressedTo(s2, p) && IsHandle(s, h)
    ensures PassedValue(s.values[h], p.values[h])
    ensures p.values[h].setMap == s1.values[h].setMap && p.values[h].data == s1.values[h].data
  {
    assert RenumberedValue(s, s1.values, s1.priv, h);
    assert MarkedValue(s1.values[h], s2.values[h]);
    assert CompressedValue(s2, h, p.values[h]);
    hide Rank, AllCompressTo;
  }

  /** Renumbering, marking and compressing keep the shape of every public handle and leave the tables' vectors empty. */
  lemma PassesKeep(s: State, s1: State, s2: State, p: State)
    requires Good(s) && s1 == s.(values := s1.values, priv := s1.priv) && RenumberedTo(s, s1.values, s1.priv, |s1.values|) && SameShapes(s, s1)
    requires Good(s1) && Unprepared(s1) && MarkedTo(s1, s2) && SameShapes(s1, s2)
    requires CompressedTo(s2, p) && SameShapes(s2, p) && Good(p) && TablesFit(s)
    ensures SamePublicShapes(s, p) && MadeUpTo(p, 0, 0) && TablesFit(p) && |p.values| == |s.values|
    ensures forall h :: IsHandle(s, h) ==> PassedValue(s.values[h], p.values[h])
  {
    assert p == s.(values := p.values, priv := s1.priv) && |p.values| == |s.values|;
    hide Good, RenumberedTo, MarkedTo, CompressedTo, CShape, Unprepared, TablesFit, MadeUpTo;
    forall h | IsHandle(s, h)
      ensures PassedValue(s.values[h], p.values[h]) && p.values[h].setMap == s1.values[h].setMap && p.values[h].data == s1.values[h].data
    {
      PassedThrough(s, s1, s2, p, h);
    }
    forall h | IsHandle(s, h) ensures CShape(s, Ref(h)) == CShape(p, Ref(h)) {
      assert IsHandle(s1, h) && IsHandle(s2, h);
    }
    BlankTables(s1, p);
    SameFit(s, p);
  }

  lemma BlankTables(s: State, p: State)
    requires Unprepared(s) && Good(p) && p.priv == s.priv && |p.values| == |s.values|
    requires forall h :: IsHandle(p, h) ==> p.values[h].setMap == s.values[h].setMap && p.values[h].data == s.values[h].data
    ensures MadeUpTo(p, 0, 0)
  {
    forall h | IsHandle(p, h) && p.values[h].setMap ensures Part(p, h) == [] && GoodPart(p, p.values[h], Part(p, h)) {
      assert GoodValue(p, h);
    }
    forall h | IsTable(p, h) ensures Unmade(p, h) {
      forall q | IsPartOf(p, q, h) ensures Part(p, q) == [] {
        PartIsVector(p, q, h);
      }
    }
    hide Good, GoodPart, Unmade, Made;
  }

  lemma SameFit(s: State, p: State)
    requires TablesFit(s) && p == s.(values := p.values, priv := p.priv) && |p.values| == |s.values|
    requires forall h :: IsHandle(s, h) ==> PassedValue(s.values[h], p.values[h])
    ensures TablesFit(p)
  {
    forall h | IsTable(p, h) ensures IsTable(s, h) && TableKeys(p, h) == TableKeys(s, h) {
      assert PassedValue(s.values[h], p.values[h]);
    }
  }

  lemma RenumberStart(s: State)
    ensures RenumberedTo(s, s.values, [], 0)
  {
  }

  lemma RenumberFacts(s: State, values: seq<CValue>, newPriv: seq<seq<int>>, i: nat)
    requires Good(s) && Unprepared(s) && RenumberedTo(s, values, newPriv, i) && i < |values|
    ensures |newPriv| <= i && |newPriv| == Rank(values, PrivateVector, i) && i < 0xFFFF_FFFF
    ensures var v := s.values[i];
      && (KindOf(v) == PrivateVector ==> v.data < |s.priv|)
      && (KindOf(v) == SetTable || KindOf(v) == MapTable ==> v.data == Rank(s.values, KindOf(v), i))
      && (v.outside ==> IsHeapVector(v.typ))
  {
    assert GoodValue(s, i);
    RankMonotone(values, PrivateVector, 0, i);
  }

  /** The assignment for value i, whichever branch it took, is the one renumbering calls for. */
  lemma RenumberedAt(s: State, values: seq<CValue>, newPriv: seq<seq<int>>, i: nat, values': seq<CValue>, newPriv': seq<seq<int>>)
    requires |s.values| == |values| == |values'| && i < |values| && values[i] == s.values[i]
    requires |newPriv| == Rank(values, PrivateVector, i) && (KindOf(s.values[i]) == PrivateVector ==> s.values[i].data < |s.priv|)
    requires forall h :: 0 <= h < |values| && h != i ==> values'[h] == values[h]
    requires if KindOf(s.values[i]) != PrivateVector then values'[i] == s.values[i] && newPriv' == newPriv
             else if s.priv[s.values[i].data] == [] && !s.values[i].setMap then values'[i] == s.values[i].(typ := VECTOR_EMPTY, data := 0) && newPriv' == newPriv
             else |newPriv| < 0x1_0000_0000 && values'[i] == s.values[i].(data := |newPriv|) && newPriv' == newPriv + [s.priv[s.values[i].data]]
    ensures RenumberedValue(s, values', newPriv', i) && newPriv <= newPriv'
    ensures |newPriv'| == |newPriv| + if KindOf(values'[i]) == PrivateVector then 1 else 0
  {
    RankSameKinds(values, values', PrivateVector, i);
  }

  /** The type a vector is given is the one the scan of its items calls for; other values keep theirs. */
  ghost predicate CompressionChosen(s: State, h: int, t: u32)
    requires IsHandle(s, h)
  {
    var v := s.values[h];
    if IsValueVector(v.typ) && !v.outside && !v.setMap then v.data < |s.priv| && CompressionIs(s, s.priv[v.data], v.typ, t)
    else t == v.typ
  }

  lemma CompressFacts(s: State, h: int)
    requires Good(s) && NoEmptyVectors(s) && IsHandle(s, h) && IsValueVector(s.values[h].typ)
    ensures var v := s.values[h];
      && !v.outside && !v.compressed && v.data < |s.priv|
      && (!v.setMap ==> s.priv[v.data] != [] && AllPublic(s, s.priv[v.data]))
  {
    assert GoodValue(s, h);
  }

  /** Vectors compressed so far do not change what the scan of another vector finds. */
  lemma CompressChosen(s: State, t: State, h: int, r: u32)
    requires t == s.(values := t.values) && |t.values| == |s.values|
    requires forall g :: IsHandle(s, g) ==> CompressedValue(s, g, t.values[g])
    requires IsHandle(s, h) && IsValueVector(s.values[h].typ) && s.values[h].data < |s.priv|
    requires s.priv[s.values[h].data] != [] && AllPublic(s, s.priv[s.values[h].data])
    requires CompressionIs(t, s.priv[s.values[h].data], s.values[h].typ, r)
    ensures CompressionIs(s, s.priv[s.values[h].data], s.values[h].typ, r)
    ensures r == s.values[h].typ || r == VECTOR_VALUE || (IsNumberVector(r) && AllCompressTo(s, s.priv[s.values[h].data], r))
  {
    var items := s.priv[s.values[h].data];
    forall g | IsHandle(s, g) ensures SameToScan(s.values[g], t.values[g]) {
      assert CompressedValue(s, g, t.values[g]);
    }
    ScanSame(s, t, items);
    assert CompressionIs(s, items, s.values[h].typ, r) by { hide AllFit, AllInts, AllFloats, SomeNegative; }
    hide CompressionIs;
    CompressionFits(s, items, s.values[h].typ, r);
  }

  predicate SameToScan(v: CValue, w: CValue) {
    (IsIntValue(v) || IsIntValue(w) || v.typ == FLOAT || w.typ == FLOAT) ==> w == v
  }

  lemma ScanSame(s: State, t: State, items: seq<int>)
    requires |t.values| == |s.values| && AllPublic(s, items)
    requires forall g :: IsHandle(s, g) ==> SameToScan(s.values[g], t.values[g])
    ensures AllInts(s, items) == AllInts(t, items) && AllFloats(s, items) == AllFloats(t, items)
    ensures AllInts(s, items) ==> SomeNegative(s, items) == SomeNegative(t, items) && forall u: u32 :: AllFit(s, items, u) == AllFit(t, items, u)
  {
  }

  /** Every set and map can be laid out. */
  ghost predicate TablesLayOut(s: State, hash: int -> u32, cmp: Comparator) {
    AllLaidOut(s, SetTable, |s.values|, hash, cmp) && AllLaidOut(s, MapTable, |s.values|, hash, cmp)
  }

  /**
    The output for create-state s, written from its prepared form t: when every size is in range, it opens,
    and its root unfolds to what the root of s unfolds to, at every depth.
   */
  ghost predicate ReadsBack(s: State, t: State, root: int, out: bytes) {
    && Good(t) && IsHandle(t, root)
    && (Sized(t) ==> out == Serialized(t, root) && Opens(out) && forall d: nat :: RUnfold(out, d) == CUnfold(s, root, d))
  }

  lemma OutputReadsBack(s: State, t: State, root: int, out: bytes)
    requires Good(s) && Good(t) && TablesMade(t) && SamePublicShapes(s, t) && IsPublic(s, root) && IsPublic(t, root)
    requires Sized(t) ==> out == Serialized(t, root)
    ensures ReadsBack(s, t, root, out)
  {
    hide Good, Sized, TablesMade, SamePublicShapes, Opens, Serialized, CUnfold, RUnfold;
    if Sized(t) {
      SerializeThenRead(t, root, 0);
      forall d: nat ensures RUnfold(out, d) == CUnfold(s, root, d) {
        SerializeThenRead(t, root, d);
        SamePublicMeaning(s, t, root, d);
      }
    }
  }

  /** Every table of kind k among the first n values can be laid out. */
  ghost predicate AllLaidOut(s: State, k: Kind, n: nat, hash: int -> u32, cmp: Comparator) {
    forall h :: 0 <= h < n && IsTable(s, h) && KindOf(s.values[h]) == k ==> TableOutcome(s, TableKeys(s, h), hash, cmp, TableDone)
  }

  /** Filling tables touches only private vectors, and adds at most the empty-slot value. */
  ghost predicate SameButTables(s: State, t: State, n: nat) {
    && n == |s.values| && t == s.(values := t.values, priv := t.priv) && |t.priv| == |s.priv|
    && (t.values == s.values || t.values == s.values + [EMPTY_VALUE])
  }

  lemma TableStep(s: State, before: State, after: State, n: nat, h: int, hash: int -> u32, cmp: Comparator, r: TableResult)
    requires Good(s) && TablesFit(s) && SameButTables(s, before, n) && SamePublicShapes(s, before)
    requires Good(before) && FilledAt(before, after, h) && h < n && |after.values| < 0xFFFF_FFFF
    requires after.values == before.values || before.values == s.values
    requires TableOutcome(before, TableKeys(before, h), hash, cmp, r)
    ensures SameButTables(s, after, n) && SamePublicShapes(s, after) && Good(after) && TablesFit(after)
    ensures IsTable(s, h) && TableOutcome(s, TableKeys(s, h), hash, cmp, r)
    ensures r != TableDone ==> !TableOutcome(s, TableKeys(s, h), hash, cmp, TableDone)
  {
    FillingKeeps(before, after, h);
    TableIsPublic(s, h);
    SameKeys(s, before, n);
    SameKeys(s, after, n);
    SameOutcome(s, before, TableKeys(s, h), hash, cmp, r);
    if r != TableDone { OutcomeIsUnique(s, TableKeys(s, h), hash, cmp, r); }
    hide Good, TableOutcome, CShape, TableKeys;
  }

  lemma SameKeys(s: State, t: State, n: nat)
    requires SameButTables(s, t, n)
    ensures forall h :: IsTable(t, h) <==> IsTable(s, h)
    ensures forall h :: IsTable(s, h) ==> TableKeys(t, h) == TableKeys(s, h)
  {
  }

  /** A table cannot both be laid out and be refused. */
  lemma OutcomeIsUnique(s: State, keys: seq<int>, hash: int -> u32, cmp: Comparator, r: TableResult)
    requires TableOutcome(s, keys, hash, cmp, r) && r != TableDone
    ensures !TableOutcome(s, keys, hash, cmp, TableDone)
  {
    var hv, kv := Hashes(hash, keys), Keys(keys);
    match r
    case DuplicateKey => HashTable.VerdictIsUnique(cmp, hv, kv, HashTable.Equal);
    case CompareFailed => HashTable.VerdictIsUnique(cmp, hv, kv, HashTable.Broken);
    case _ =>
  }

  lemma NotASet(s: State, ns: int, nm: int)
    requires MadeUpTo(s, ns, nm) && IsHandle(s, ns) && s.values[ns].typ != SET_VALUE
    ensures MadeUpTo(s, ns + 1, nm)
  {
    assert KindOf(s.values[ns]) != SetTable;
    hide Made, Unmade, GoodPart;
  }

  lemma NotAMap(s: State, ns: int, nm: int)
    requires MadeUpTo(s, ns, nm) && IsHandle(s, nm) && s.values[nm].typ != MAP_VALUE_VALUE
    ensures MadeUpTo(s, ns, nm + 1)
  {
    assert KindOf(s.values[nm]) != MapTable;
    hide Made, Unmade, GoodPart;
  }

  lemma TablesComplete(s: State, t: State, n: nat)
    requires SameButTables(s, t, n) && Good(t) && MadeUpTo(t, n, n)
    ensures TablesMade(t)
  {
    assert forall h :: IsTable(t, h) ==> h < n;
    assert MadeUpTo(t, |t.values|, |t.values|) by { hide Made, Unmade, GoodPart; }
    AllMade(t);
  }

  lemma SamePublicRefl(s: State)
    ensures SamePublicShapes(s, s)
  {
  }

  lemma FilledBySlot(s: State, s1: State, h: int)
    requires Good(s) && IsTable(s, h) && |s1.values| < 0xFFFF_FFFF
    requires s1 == s.(values := s1.values) && (s1.values == s.values || s1.values == s.values + [EMPTY_VALUE])
    ensures FilledAt(s, s1, h) && Good(s1) && IsTable(s1, h)
  {
    assert FilledAt(s, s1, h);
    hide Good;
    FillingKeeps(s, s1, h);
  }

  lemma SameOutcome(s: State, t: State, keys: seq<int>, hash: int -> u32, cmp: Comparator, r: TableResult)
    requires s.values <= t.values && AllPublic(s, keys)
    ensures TableOutcome(t, keys, hash, cmp, r) ==> TableOutcome(s, keys, hash, cmp, r) && (r == TableDone ==> AllKeysFine(t, keys))
  {
    GrownKeys(s, t, keys);
    hide AllKeysFine, FirstRefusedKey, HashTable.AllDifferent, HashTable.FirstBadPair;
  }

  lemma GrownKeys(s: State, t: State, keys: seq<int>)
    requires s.values <= t.values && AllPublic(s, keys)
    ensures AllPublic(t, keys)
    ensures AllKeysFine(t, keys) <==> AllKeysFine(s, keys)
    ensures forall r :: FirstRefusedKey(t, keys, r) <==> FirstRefusedKey(s, keys, r)
  {
    forall i, r | 0 <= i < |keys|
      ensures KeyFine(s, keys[i]) <==> KeyFine(t, keys[i])
      ensures KeyRefused(s, keys[i], r) <==> KeyRefused(t, keys[i], r)
    {
      assert IsPublic(s, keys[i]);
    }
    hide KeyFine, KeyRefused;
  }

  /** The bucket arrays, handed over, make up the table. */
  lemma TablePopulated(s: State, s1: State, t: State, h: int, hv: seq<u32>, hs: seq<u32>, ks: seq<Slot>, vs: seq<Slot>, slots: seq<nat>, pos: seq<nat>,
                       empty: int, ns: int, nm: int)
    requires Good(s) && MadeUpTo(s, ns, nm) && IsTable(s, h) && h == (if KindOf(s.values[h]) == SetTable then ns else nm)
    requires Good(s1) && FilledAt(s, s1, h) && s1.priv == s.priv && FilledAt(s1, t, h) && t.values == s1.values && |t.values| < 0xFFFF_FFFF
    requires IsHandle(t, empty) && t.values[empty].typ == EMPTY_SLOT
    requires AllKeysFine(s1, TableKeys(s, h)) && |slots| == |TableKeys(s, h)| && |hs| == |ks| == |vs|
    requires HashTable.Placed(hv, Keys(TableKeys(s, h)), hs, ks, slots, pos)
    requires KindOf(s.values[h]) == MapTable && s.values[h].data < |s.maps| ==>
      HashTable.ValuesPlaced(Cells(s.maps[s.values[h].data].values, empty), vs, slots)
    requires if KindOf(s.values[h]) == SetTable then Part(t, h - 2) == hs && Part(t, h - 1) == Handles(ks, empty)
             else Part(t, h - 3) == hs && Part(t, h - 2) == Handles(ks, empty) && Part(t, h - 1) == Handles(vs, empty)
    ensures FilledAt(s, t, h) && Good(t)
    ensures if KindOf(s.values[h]) == SetTable then MadeUpTo(t, ns + 1, nm) else MadeUpTo(t, ns, nm + 1)
  {
    TableIsPublic(s, h);
    GrownKeys(s, t, TableKeys(s, h));
    GrownKeys(s, s1, TableKeys(s, h));
    assert KeysAllowed(t, TableKeys(s, h)) by { hide Good, MadeUpTo; }
    FillingKeeps(s1, t, h);
    FilledTwice(s, s1, t, h);
    hide Good, MadeUpTo, FirstRefusedKey, AllKeysFine, KeysAllowed, Made, GoodPart, Part, FilledAt;
    if KindOf(s.values[h]) == SetTable {
      SetIndexed(s, t, h);
      SetIsMade(t, h, hv, hs, ks, slots, empty);
    } else {
      MapIndexed(s, t, h);
      MapIsMade(t, h, hv, hs, ks, vs, slots, empty);
    }
    FilledParts(s, t, h);
    FillStep(s, t, h, ns, nm);
  }

  lemma FilledTwice(s: State, s1: State, t: State, h: int)
    requires FilledAt(s, s1, h) && s1.priv == s.priv && FilledAt(s1, t, h) && t.values == s1.values
    ensures FilledAt(s, t, h)
  {
    forall p | IsHandle(s, p) && KindOf(s.values[p]) == PrivateVector && s.values[p].data < |s.priv| && !IsPartOf(s, p, h)
      ensures t.priv[s.values[p].data] == s.priv[s.values[p].data]
    {
      assert IsHandle(s1, p) && s1.values[p] == s.values[p] && !IsPartOf(s1, p, h);
    }
  }

  lemma FilledParts(s: State, t: State, h: int)
    requires FilledAt(s, t, h)
    ensures forall p :: IsPartOf(s, p, h) <==> IsPartOf(t, p, h)
  {
  }

  lemma SetIndexed(s: State, t: State, h: int)
    requires Good(s) && FilledAt(s, t, h) && KindOf(s.values[h]) == SetTable
    ensures IsHandle(t, h) && t.values[h] == s.values[h] && s.values[h].data < |t.sets| && t.sets[s.values[h].data].keys == TableKeys(s, h)
  {
    SetParts(s, h);
  }

  lemma MapIndexed(s: State, t: State, h: int)
    requires Good(s) && FilledAt(s, t, h) && KindOf(s.values[h]) == MapTable
    ensures IsHandle(t, h) && t.values[h] == s.values[h] && s.values[h].data < |t.maps| && t.maps == s.maps && t.maps[s.values[h].data].keys == TableKeys(s, h)
    ensures AllPublic(t, t.maps[s.values[h].data].values) && |t.maps[s.values[h].data].values| == |TableKeys(s, h)|
  {
    MapParts(s, h);
    TableIsPublic(s, h);
  }

  lemma TableIsPublic(s: State, h: int)
    requires Good(s) && IsTable(s, h)
    ensures AllPublic(s, TableKeys(s, h)) && |s.values| < 0xFFFF_FFFF
    ensures KindOf(s.values[h]) == MapTable ==>
      && s.values[h].data < |s.maps| && |s.maps[s.values[h].data].values| == |TableKeys(s, h)|
      && AllPublic(s, s.maps[s.values[h].data].values)
  {
    assert GoodValue(s, h);
  }

  lemma SetTransferred(s: State, h: int, hash: seq<int>, key: seq<int>)
    requires Good(s) && IsTable(s, h) && KindOf(s.values[h]) == SetTable
    ensures IsPartOf(s, h - 2, h) && IsPartOf(s, h - 1, h) && IsHandle(s, h - 2) && s.values[h - 2].data < |s.priv| && s.values[h - 1].data < |s.priv|
    ensures var t := s.(priv := s.priv[s.values[h - 2].data := hash][s.values[h - 1].data := key]);
      FilledAt(s, t, h) && Part(t, h - 2) == hash && Part(t, h - 1) == key
  {
    TwoParts(s, h);
    SetParts(s, h);
    hide Good, Rank;
  }

  lemma MapTransferred(s: State, h: int, hash: seq<int>, key: seq<int>, value: seq<int>)
    requires Good(s) && IsTable(s, h) && KindOf(s.values[h]) == MapTable
    ensures IsPartOf(s, h - 3, h) && IsPartOf(s, h - 2, h) && IsPartOf(s, h - 1, h) && IsHandle(s, h - 3)
    ensures s.values[h - 3].data < |s.priv| && s.values[h - 2].data < |s.priv| && s.values[h - 1].data < |s.priv|
    ensures var t := s.(priv := s.priv[s.values[h - 3].data := hash][s.values[h - 2].data := key][s.values[h - 1].data := value]);
      FilledAt(s, t, h) && Part(t, h - 3) == hash && Part(t, h - 2) == key && Part(t, h - 1) == value
  {
    TwoParts(s, h);
    MapParts(s, h);
    hide Good, Rank;
  }

  /** The vectors of a table have different places in the vector table, and no other vector has them. */
  lemma TwoParts(s: State, h: int)
    requires Good(s) && IsTable(s, h)
    ensures forall p :: IsPartOf(s, p, h) ==> IsHandle(s, p) && KindOf(s.values[p]) == PrivateVector && s.values[p].data < |s.priv|
    ensures forall p, q :: IsPartOf(s, p, h) && IsHandle(s, q) && KindOf(s.values[q]) == PrivateVector && q != p ==>
      s.values[p].data != s.values[q].data
  {
    forall p | IsPartOf(s, p, h) ensures IsHandle(s, p) && KindOf(s.values[p]) == PrivateVector && s.values[p].data < |s.priv| {
      PartIsVector(s, p, h);
    }
    forall p, q | IsPartOf(s, p, h) && IsHandle(s, q) && KindOf(s.values[q]) == PrivateVector && q != p
      ensures s.values[p].data != s.values[q].data
    {
      if s.values[p].data == s.values[q].data { DataIsUnique(s, p, q); }
    }
  }
}

/**
  The checker of hash tables found in a buffer: what it accepts, that it accepts every table populate
  makes, and that every table it accepts works as a finite map.
 */
module HashValidate {
  import opened Wrappers
  import opened PowersOfTwo
  import opened Probing
  import opened HashTable
  import opened HashLookup
  import opened HashMapRefinement

  datatype Validation =
    | Valid
    | WrongBucketCount | ValueWithoutKey | NoEmptySlot | WrongItemCount | NotHashable | WrongHash
    | ProbeFailed | WrongPlace

  function OccupiedBelow<K>(ks: seq<Slot<K>>, n: nat): set<nat>
    requires n <= |ks|
  {
    set b: nat | b < n && ks[b] != Empty
  }

  lemma OccupiedGrows<K>(ks: seq<Slot<K>>, n: nat)
    requires n < |ks|
    ensures |OccupiedBelow(ks, n + 1)| == |OccupiedBelow(ks, n)| + if ks[n] == Empty then 0 else 1
  {
    if ks[n] == Empty {
      assert OccupiedBelow(ks, n + 1) == OccupiedBelow(ks, n);
    } else {
      assert OccupiedBelow(ks, n + 1) == OccupiedBelow(ks, n) + {n};
    }
  }

  /** A value may only stand beside a key. */
  ghost predicate ValuesHaveKeys<K>(ks: seq<Slot<K>>, vs: Option<seq<Slot<K>>>) {
    vs.Some? ==> |vs.value| == |ks| && forall b :: 0 <= b < |ks| && ks[b] == Empty ==> vs.value[b] == Empty
  }

  /** Every key can be hashed and stands beside its hash; empty slots hash to 0. */
  ghost predicate HashesMatch<K>(hs: seq<u32>, ks: seq<Slot<K>>, hashable: K -> bool, hashOf: K -> u32) {
    |hs| == |ks| && forall b :: 0 <= b < |ks| ==>
      match ks[b] case Empty => hs[b] == 0 case Full(k) => hashable(k) && hs[b] == hashOf(k)
  }

  /** Probing for the key in bucket b ends in bucket b. */
  ghost predicate FoundInPlace<K>(hs: seq<u32>, ks: seq<Slot<K>>, cmp: (K, K) -> Comparison, b: nat)
    requires b < |ks| && |hs| == |ks|
  {
    ks[b].Full? ==> Probes(hs, ks, hs[b], KeyTest(cmp, ks[b].key), Found(b))
  }

  ghost predicate Accepted<K>(nItems: u32, hs: seq<u32>, ks: seq<Slot<K>>, vs: Option<seq<Slot<K>>>,
                              hashable: K -> bool, hashOf: K -> u32, cmp: (K, K) -> Comparison)
    requires WantedBuckets(nItems) <= MAX_BUCKETS
  {
    && |hs| == |ks| == BucketCount(nItems)
    && ValuesHaveKeys(ks, vs)
    && HasEmptySlot(ks)
    && |OccupiedBelow(ks, |ks|)| == nItems
    && HashesMatch(hs, ks, hashable, hashOf)
    && (forall b :: 0 <= b < |ks| ==> FoundInPlace(hs, ks, cmp, b))
  }

  method CountSlots<K>(ks: seq<Slot<K>>, vs: Option<seq<Slot<K>>>) returns (ok: bool, nUsed: nat, nEmpty: nat)
    requires vs.Some? ==> |vs.value| == |ks|
    ensures ok <==> ValuesHaveKeys(ks, vs)
    ensures ok ==> nUsed == |OccupiedBelow(ks, |ks|)| && (nEmpty == 0 <==> !HasEmptySlot(ks))
  {
    nUsed, nEmpty := 0, 0;
    assert OccupiedBelow(ks, 0) == {};
    for b := 0 to |ks|
      invariant nUsed == |OccupiedBelow(ks, b)|
      invariant nEmpty == 0 <==> forall c :: 0 <= c < b ==> ks[c] != Empty
      invariant vs.Some? ==> forall c :: 0 <= c < b && ks[c] == Empty ==> vs.value[c] == Empty
    {
      OccupiedGrows(ks, b);
      if ks[b] == Empty {
        nEmpty := nEmpty + 1;
      } else {
        nUsed := nUsed + 1;
      }
      if vs.Some? && ks[b] == Empty && vs.value[b] != Empty {
        return false, nUsed, nEmpty;
      }
    }
    ok := true;
  }

  method CheckHashes<K>(hs: seq<u32>, ks: seq<Slot<K>>, hashable: K -> bool, hashOf: K -> u32) returns (r: Validation)
    requires |hs| == |ks|
    ensures r in {Valid, NotHashable, WrongHash} && (r == Valid <==> HashesMatch(hs, ks, hashable, hashOf))
  {
    for b := 0 to |ks|
      invariant forall c :: 0 <= c < b ==>
        match ks[c] case Empty => hs[c] == 0 case Full(k) => hashable(k) && hs[c] == hashOf(k)
    {
      if ks[b].Full? && !hashable(ks[b].key) {
        return NotHashable;
      }
      var h := if ks[b].Full? then hashOf(ks[b].key) else 0;
      if h != hs[b] {
        return WrongHash;
      }
    }
    r := Valid;
  }

  method CheckPlaces<K>(hs: seq<u32>, ks: seq<Slot<K>>, cmp: (K, K) -> Comparison) returns (r: Validation)
    requires IsTable(hs, ks) && HasEmptySlot(ks)
    ensures r in {Valid, ProbeFailed, WrongPlace} && (r == Valid <==> forall b :: 0 <= b < |ks| ==> FoundInPlace(hs, ks, cmp, b))
  {
    for b := 0 to |ks|
      invariant forall c :: 0 <= c < b ==> FoundInPlace(hs, ks, cmp, c)
    {
      if ks[b].Full? {
        var probe := Probe(hs, ks, hs[b], KeyTest(cmp, ks[b].key));
        if probe != Found(b) {
          if FoundInPlace(hs, ks, cmp, b) {
            ProbesIsFunctional(hs, ks, hs[b], KeyTest(cmp, ks[b].key), probe, Found(b));
          }
          return if probe == ProbeError then ProbeFailed else WrongPlace;
        }
      }
    }
    r := Valid;
  }

  method Validate<K>(nItems: u32, hs: seq<u32>, ks: seq<Slot<K>>, vs: Option<seq<Slot<K>>>,
                     hashable: K -> bool, hashOf: K -> u32, cmp: (K, K) -> Comparison) returns (r: Validation)
    requires WantedBuckets(nItems) <= MAX_BUCKETS
    requires |hs| == |ks| < TWO_32 && (vs.Some? ==> |vs.value| == |ks|)
    ensures r == Valid <==> Accepted(nItems, hs, ks, vs, hashable, hashOf, cmp)
  {
    var n := ComputeBucketCount(nItems);
    if n != |ks| {
      return WrongBucketCount;
    }
    var ok, nUsed, nEmpty := CountSlots(ks, vs);
    if !ok {
      return ValueWithoutKey;
    }
    if nEmpty == 0 {
      return NoEmptySlot;
    }
    if nUsed != nItems {
      return WrongItemCount;
    }
    r := CheckHashes(hs, ks, hashable, hashOf);
    if r != Valid {
      return;
    }
    r := CheckPlaces(hs, ks, cmp);
  }

  // ---- accepted tables work ----

  /** Different occupied buckets of an accepted table hold unequal keys. */
  lemma AcceptedKeysAreDistinct<K(!new), C>(nItems: u32, hs: seq<u32>, ks: seq<Slot<K>>, vs: Option<seq<Slot<K>>>,
                                            hashable: K -> bool, hashOf: K -> u32, cmp: (K, K) -> Comparison, canon: K -> C,
                                            b: nat, c: nat)
    requires WantedBuckets(nItems) <= MAX_BUCKETS && Accepted(nItems, hs, ks, vs, hashable, hashOf, cmp)
    requires Decides(cmp, canon) && RespectsEquality(hashOf, canon)
    requires b < |ks| && c < |ks| && ks[b].Full? && ks[c].Full? && canon(ks[b].key) == canon(ks[c].key)
    ensures b == c
  {
    assert FoundInPlace(hs, ks, cmp, b) && FoundInPlace(hs, ks, cmp, c);
    EqualTestsProbeAlike(hs, ks, hs[b], KeyTest(cmp, ks[b].key), KeyTest(cmp, ks[c].key), Found(b));
    ProbesIsFunctional(hs, ks, hs[b], KeyTest(cmp, ks[c].key), Found(b), Found(c));
  }

  lemma EqualTestsProbeAlike<K(!new)>(hs: seq<u32>, ks: seq<Slot<K>>, hash: u32, t1: K -> Match, t2: K -> Match, r: ProbeResult)
    requires Probes(hs, ks, hash, t1, r) && forall k :: t1(k) == t2(k)
    ensures Probes(hs, ks, hash, t2, r)
  {
    var t: nat :| Stops(hs, ks, hash, t1, t) && r == ResultAt(ks, hash, t1, t)
                  && forall s: nat :: s < t ==> !Stops(hs, ks, hash, t1, s);
    assert Stops(hs, ks, hash, t2, t);
    forall s: nat | s < t ensures !Stops(hs, ks, hash, t2, s) { assert !Stops(hs, ks, hash, t1, s); }
  }

  /**
    A probe of an accepted table, for any key, ends in bucket b exactly when b holds an equal key, and
    misses exactly when no bucket does.
   */
  lemma AcceptedTableIsMap<K(!new), C>(nItems: u32, hs: seq<u32>, ks: seq<Slot<K>>, vs: Option<seq<Slot<K>>>,
                                       hashable: K -> bool, hashOf: K -> u32, cmp: (K, K) -> Comparison, canon: K -> C,
                                       k: K, r: ProbeResult)
    requires WantedBuckets(nItems) <= MAX_BUCKETS && Accepted(nItems, hs, ks, vs, hashable, hashOf, cmp)
    requires Decides(cmp, canon) && RespectsEquality(hashOf, canon)
    requires Probes(hs, ks, hashOf(k), KeyTest(cmp, k), r)
    ensures forall b: nat :: r == Found(b) <==> b < |ks| && ks[b].Full? && canon(ks[b].key) == canon(k)
    ensures r == Miss <==> !exists b :: 0 <= b < |ks| && ks[b].Full? && canon(ks[b].key) == canon(k)
  {
    var t: nat :| Stops(hs, ks, hashOf(k), KeyTest(cmp, k), t) && r == ResultAt(ks, hashOf(k), KeyTest(cmp, k), t)
                  && forall s: nat :: s < t ==> !Stops(hs, ks, hashOf(k), KeyTest(cmp, k), s);
    forall b: nat | b < |ks| && ks[b].Full? && canon(ks[b].key) == canon(k) ensures r == Found(b) {
      assert FoundInPlace(hs, ks, cmp, b);
      EqualTestsProbeAlike(hs, ks, hs[b], KeyTest(cmp, ks[b].key), KeyTest(cmp, k), Found(b));
      ProbesIsFunctional(hs, ks, hs[b], KeyTest(cmp, k), Found(b), r);
    }
  }

  // ---- populated tables are accepted ----

  function SlotSet(slots: seq<nat>): set<nat> {
    set s | s in slots
  }

  lemma {:induction false} DistinctCount(slots: seq<nat>)
    requires forall a, b :: 0 <= a < b < |slots| ==> slots[a] != slots[b]
    ensures |SlotSet(slots)| == |slots|
  {
    if slots != [] {
      var n := |slots| - 1;
      DistinctCount(slots[..n]);
      SlotSetGrows(slots[..n], slots[n]);
      assert slots == slots[..n] + [slots[n]];
    }
  }

  lemma SlotSetGrows(slots: seq<nat>, s: nat)
    requires s !in slots
    ensures |SlotSet(slots + [s])| == |SlotSet(slots)| + 1
  {
    assert SlotSet(slots + [s]) == SlotSet(slots) + {s};
  }

  /** Of the keys with one hash, each compares equal, and without error, to itself alone. */
  ghost predicate Separates<K>(cmp: (K, K) -> Comparison, hv: seq<u32>, kv: seq<Slot<K>>) {
    && |hv| == |kv| && (forall a :: 0 <= a < |kv| ==> kv[a].Full?)
    && forall a, b :: 0 <= a < |kv| && 0 <= b < |kv| && hv[a] == hv[b] ==> SeparatesPair(cmp, kv[a].key, kv[b].key, a == b)
  }

  predicate SeparatesPair<K>(cmp: (K, K) -> Comparison, x: K, y: K, same: bool) {
    match cmp(x, y) case CompareError => false case Order(sign) => sign == 0 <==> same
  }

  lemma DistinctKeysSeparate<K(!new), C>(cmp: (K, K) -> Comparison, canon: K -> C, hv: seq<u32>, kv: seq<Slot<K>>)
    requires Decides(cmp, canon) && Distinct(kv, canon) && |hv| == |kv|
    ensures Separates(cmp, hv, kv)
  {
  }

  /** Every table that populate makes for hashable keys is accepted, if the comparison tells them apart. */
  lemma PopulatedIsAccepted<K(!new)>(cmp: (K, K) -> Comparison, hashable: K -> bool, hashOf: K -> u32,
                                     hv: seq<u32>, kv: seq<Slot<K>>, vv: Option<seq<Slot<K>>>,
                                     hs: seq<u32>, ks: seq<Slot<K>>, vs: Option<seq<Slot<K>>>, slots: seq<nat>, pos: seq<nat>)
    requires Separates(cmp, hv, kv) && HashedBy(hv, kv, hashOf)
    requires |kv| + |kv| / 2 <= MAX_BUCKETS && |ks| == BucketCount(|kv|)
    requires forall a :: 0 <= a < |kv| && kv[a].Full? ==> hashable(kv[a].key)
    requires Placed(hv, kv, hs, ks, slots, pos) && |slots| == |kv|
    requires vs.Some? ==> vv.Some? && |vs.value| == |ks| && ValuesPlaced(vv.value, vs.value, slots)
    ensures Accepted(|kv|, hs, ks, vs, hashable, hashOf, cmp)
  {
    BucketsExceedItems(|kv|);
    PlacedLeavesRoom(hv, kv, hs, ks, slots, pos);
    DistinctCount(slots);
    assert OccupiedBelow(ks, |ks|) == SlotSet(slots);
    forall b | 0 <= b < |ks| ensures FoundInPlace(hs, ks, cmp, b) {
      if ks[b].Full? {
        var a :| 0 <= a < |slots| && slots[a] == b;
        PopulatedKeyIsFound(cmp, hv, kv, hs, ks, slots, pos, a);
      }
    }
  }

  lemma PopulatedKeyIsFound<K(!new)>(cmp: (K, K) -> Comparison, hv: seq<u32>, kv: seq<Slot<K>>,
                                     hs: seq<u32>, ks: seq<Slot<K>>, slots: seq<nat>, pos: seq<nat>, a: nat)
    requires Separates(cmp, hv, kv)
    requires Placed(hv, kv, hs, ks, slots, pos) && |slots| == |kv| && a < |kv|
    ensures Probes(hs, ks, hv[a], KeyTest(cmp, kv[a].key), Found(slots[a]))
  {
    var test := KeyTest(cmp, kv[a].key);
    assert SeparatesPair(cmp, kv[a].key, kv[a].key, true);
    assert Stops(hs, ks, hv[a], test, pos[a]);
    forall s: nat | s < pos[a] ensures !Stops(hs, ks, hv[a], test, s) {
      assert Chained(ks, hv[a], pos[a]);
      var b := BucketAt(hv[a], |ks|, s);
      if hs[b] == hv[a] {
        var x := OwnerOf(hv, kv, hs, ks, slots, pos, hv[a], s);
        assert x != a;
        assert SeparatesPair(cmp, kv[a].key, kv[x].key, false);
      }
    }
  }

  // ---- accepted tables are populated ----

  /** Probing with the hash of bucket b comes to b first at step t, past occupied buckets only. */
  ghost predicate ReachedAt<K>(hs: seq<u32>, ks: seq<Slot<K>>, b: nat, t: nat)
    requires b < |ks| && |hs| == |ks|
  {
    && BucketAt(hs[b], |ks|, t) == b && Chained(ks, hs[b], t)
    && forall s: nat :: s < t ==> BucketAt(hs[b], |ks|, s) != b
  }

  ghost function StepTo<K>(hs: seq<u32>, ks: seq<Slot<K>>, b: nat): nat {
    if b < |ks| && |hs| == |ks| && exists t: nat :: ReachedAt(hs, ks, b, t) then var t: nat :| ReachedAt(hs, ks, b, t); t else 0
  }

  lemma FoundIsReached<K>(hs: seq<u32>, ks: seq<Slot<K>>, cmp: (K, K) -> Comparison, b: nat)
    requires b < |ks| && |hs| == |ks| && ks[b].Full? && FoundInPlace(hs, ks, cmp, b)
    ensures ReachedAt(hs, ks, b, StepTo(hs, ks, b))
  {
    var test := KeyTest(cmp, ks[b].key);
    var t: nat :| Stops(hs, ks, hs[b], test, t) && ResultAt(ks, hs[b], test, t) == Found(b)
                  && forall s: nat :: s < t ==> !Stops(hs, ks, hs[b], test, s);
    forall s: nat | s < t ensures ks[BucketAt(hs[b], |ks|, s)] != Empty && BucketAt(hs[b], |ks|, s) != b {
      assert !Stops(hs, ks, hs[b], test, s);
    }
    assert ReachedAt(hs, ks, b, t);
  }

  lemma {:induction false} Highest(bs: set<nat>, rank: nat -> nat) returns (m: nat)
    requires bs != {}
    ensures m in bs && forall x :: x in bs ==> rank(x) <= rank(m)
  {
    m :| m in bs;
    if bs != {m} {
      var other := Highest(bs - {m}, rank);
      if rank(m) < rank(other) { m := other; }
    }
  }

  /** The members of a set in the order of their ranks. */
  lemma {:induction false} ByRank(bs: set<nat>, rank: nat -> nat) returns (slots: seq<nat>)
    ensures |slots| == |bs| && forall x :: x in slots <==> x in bs
    ensures forall a, b :: 0 <= a < b < |slots| ==> slots[a] != slots[b] && rank(slots[a]) <= rank(slots[b])
  {
    slots := [];
    if bs != {} {
      var m := Highest(bs, rank);
      var rest := ByRank(bs - {m}, rank);
      slots := rest + [m];
      assert forall a :: 0 <= a < |rest| ==> rest[a] in bs - {m};
    }
  }

  function AtSlots<T>(xs: seq<T>, slots: seq<nat>): (r: seq<T>)
    requires forall a :: 0 <= a < |slots| ==> slots[a] < |xs|
    ensures |r| == |slots| && forall a :: 0 <= a < |slots| ==> r[a] == xs[slots[a]]
  {
    seq(|slots|, a requires 0 <= a < |slots| => xs[slots[a]])
  }

  lemma ReachedIsOrdered<K>(hs: seq<u32>, ks: seq<Slot<K>>, slots: seq<nat>, pos: seq<nat>)
    requires |hs| == |ks| > 0 && |pos| == |slots| && forall a :: 0 <= a < |slots| ==> slots[a] < |ks| && pos[a] == StepTo(hs, ks, slots[a])
    requires forall a :: 0 <= a < |slots| ==> ReachedAt(hs, ks, slots[a], StepTo(hs, ks, slots[a]))
    requires forall a, b :: 0 <= a < b < |slots| ==> slots[a] != slots[b] && pos[a] <= pos[b]
    ensures Ordered(AtSlots(hs, slots), ks, slots, pos)
  {
    hide StepTo, Chained;
    var hv := AtSlots(hs, slots);
    forall a, s: nat | 0 <= a < |slots| && s < pos[a] ensures BucketAt(hv[a], |ks|, s) != slots[a] {
      assert ReachedAt(hs, ks, slots[a], pos[a]);
    }
    forall a, b | 0 <= a < b < |slots| && hv[a] == hv[b] ensures pos[a] < pos[b] {
      assert ReachedAt(hs, ks, slots[a], pos[a]) && ReachedAt(hs, ks, slots[b], pos[b]);
    }
  }

  lemma OccupiedContents<K>(hs: seq<u32>, ks: seq<Slot<K>>, hashable: K -> bool, hashOf: K -> u32, slots: seq<nat>)
    requires HashesMatch(hs, ks, hashable, hashOf) && forall x :: x in slots <==> x in OccupiedBelow(ks, |ks|)
    requires forall a, b :: 0 <= a < b < |slots| ==> slots[a] != slots[b]
    ensures forall a :: 0 <= a < |slots| ==> slots[a] < |ks|
    ensures Contents(AtSlots(hs, slots), AtSlots(ks, slots), hs, ks, slots)
    ensures HashedBy(AtSlots(hs, slots), AtSlots(ks, slots), hashOf)
    ensures forall a :: 0 <= a < |slots| ==> ks[slots[a]].Full? && hashable(ks[slots[a]].key)
  {
    forall a | 0 <= a < |slots| ensures slots[a] < |ks| && ks[slots[a]] != Empty {
      assert slots[a] in slots;
    }
    forall b | 0 <= b < |ks| && b !in slots ensures ks[b] == Empty {
      assert b !in OccupiedBelow(ks, |ks|);
    }
  }

  /**
    Only tables that populate could have made are accepted: some list of as many hashable keys as the count says, with
    their hashes, is placed in them, with the values beside the keys, and they have the size populate asks for.
   */
  lemma AcceptedIsPopulated<K>(nItems: u32, hs: seq<u32>, ks: seq<Slot<K>>, vs: Option<seq<Slot<K>>>,
                               hashable: K -> bool, hashOf: K -> u32, cmp: (K, K) -> Comparison)
    returns (slots: seq<nat>, pos: seq<nat>)
    requires WantedBuckets(nItems) <= MAX_BUCKETS && Accepted(nItems, hs, ks, vs, hashable, hashOf, cmp)
    ensures |ks| == |hs| == BucketCount(nItems) && |slots| == nItems && forall a :: 0 <= a < |slots| ==> slots[a] < |ks|
    ensures Placed(AtSlots(hs, slots), AtSlots(ks, slots), hs, ks, slots, pos)
    ensures HashedBy(AtSlots(hs, slots), AtSlots(ks, slots), hashOf)
    ensures forall a :: 0 <= a < |slots| ==> ks[slots[a]].Full? && hashable(ks[slots[a]].key)
    ensures vs.Some? ==> |vs.value| == |ks| && ValuesPlaced(AtSlots(vs.value, slots), vs.value, slots)
  {
    var rank := (b: nat) => StepTo(hs, ks, b);
    slots := ByRank(OccupiedBelow(ks, |ks|), rank);
    OccupiedContents(hs, ks, hashable, hashOf, slots);
    forall a | 0 <= a < |slots| ensures ReachedAt(hs, ks, slots[a], StepTo(hs, ks, slots[a])) {
      FoundIsReached(hs, ks, cmp, slots[a]);
    }
    pos := seq(|slots|, a requires 0 <= a < |slots| => StepTo(hs, ks, slots[a]));
    ReachedIsOrdered(hs, ks, slots, pos);
    hide StepTo, ReachedAt, FoundInPlace;
  }
}

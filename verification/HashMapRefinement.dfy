/**
  A populated table refines a finite map.

  Two keys are equal when they have the same canonical form; this represents any equivalence relation on
  keys. Comparison decides it and hashing respects it.
 */
module HashMapRefinement {
  import opened Wrappers
  import opened PowersOfTwo
  import opened Probing
  import opened HashTable
  import opened HashLookup

  ghost predicate Decides<K(!new), C>(cmp: (K, K) -> Comparison, canon: K -> C) {
    forall x, y :: cmp(x, y).Order? && (cmp(x, y).sign == 0 <==> canon(x) == canon(y))
  }

  ghost predicate RespectsEquality<K(!new), C>(hashOf: K -> u32, canon: K -> C) {
    forall x, y :: canon(x) == canon(y) ==> hashOf(x) == hashOf(y)
  }

  ghost predicate HashedBy<K>(hv: seq<u32>, kv: seq<Slot<K>>, hashOf: K -> u32) {
    |hv| == |kv| && forall a :: 0 <= a < |kv| && kv[a].Full? ==> hv[a] == hashOf(kv[a].key)
  }

  /** The equality test a probe for key k applies to stored keys. */
  function KeyTest<K>(cmp: (K, K) -> Comparison, k: K): K -> Match {
    x => match cmp(k, x) case CompareError => Failed case Order(c) => if c == 0 then Yes else No
  }

  ghost predicate Distinct<K, C>(kv: seq<Slot<K>>, canon: K -> C) {
    && (forall a :: 0 <= a < |kv| ==> kv[a].Full?)
    && (forall a, b :: 0 <= a < b < |kv| ==> canon(kv[a].key) != canon(kv[b].key))
  }

  /** The finite map that the key and value lists describe. */
  ghost function AsMap<K, C(!new), V>(kv: seq<Slot<K>>, vv: seq<V>, canon: K -> C): map<C, V>
    requires |kv| == |vv| && Distinct(kv, canon)
  {
    map a | 0 <= a < |kv| :: canon(kv[a].key) := vv[a]
  }

  /** Populate accepts a list of keys exactly when they are pairwise unequal as map keys. */
  lemma AllDifferentIsDistinct<K(!new), C>(cmp: (K, K) -> Comparison, hashOf: K -> u32, canon: K -> C, hv: seq<u32>, kv: seq<Slot<K>>)
    requires Decides(cmp, canon) && RespectsEquality(hashOf, canon) && HashedBy(hv, kv, hashOf)
    requires Empty !in kv
    ensures AllDifferent(cmp, hv, kv) <==> Distinct(kv, canon)
  {
    assert forall a :: 0 <= a < |kv| ==> kv[a] in kv;
    forall a, b | 0 <= a < b < |kv|
      ensures PairVerdict(cmp, hv, kv, a, b) == Different <==> canon(kv[a].key) != canon(kv[b].key)
    {
    }
    if AllDifferent(cmp, hv, kv) {
      forall a, b | 0 <= a < b < |kv| ensures canon(kv[a].key) != canon(kv[b].key) {
        assert PairVerdict(cmp, hv, kv, a, b) == Different;
      }
    }
  }

  lemma AsMapContents<K, C(!new), V>(kv: seq<Slot<K>>, vv: seq<V>, canon: K -> C, c: C)
    requires |kv| == |vv| && Distinct(kv, canon)
    ensures c in AsMap(kv, vv, canon) <==> exists a :: 0 <= a < |kv| && canon(kv[a].key) == c
    ensures forall a :: 0 <= a < |kv| && canon(kv[a].key) == c ==> AsMap(kv, vv, canon)[c] == vv[a]
  {
  }

  /**
    Looking any key up in the populated table is looking it up in the map: the bucket found holds an equal
    key and the map's value, and a miss means the map has no such key.
   */
  lemma LookupIsMapLookup<K(!new), C(!new)>(cmp: (K, K) -> Comparison, hashOf: K -> u32, canon: K -> C,
                                      hv: seq<u32>, kv: seq<Slot<K>>, vv: seq<Slot<K>>,
                                      hs: seq<u32>, ks: seq<Slot<K>>, vs: seq<Slot<K>>,
                                      slots: seq<nat>, pos: seq<nat>, k: K, r: ProbeResult)
    requires Decides(cmp, canon) && RespectsEquality(hashOf, canon) && HashedBy(hv, kv, hashOf)
    requires Placed(hv, kv, hs, ks, slots, pos) && |slots| == |kv| == |vv| && |vs| == |ks| && ValuesPlaced(vv, vs, slots)
    requires Distinct(kv, canon)
    requires Probes(hs, ks, hashOf(k), KeyTest(cmp, k), r)
    ensures var m := AsMap(kv, vv, canon);
      if canon(k) in m
      then r.Found? && r.bucket < |ks| && ks[r.bucket].Full? && canon(ks[r.bucket].key) == canon(k) && vs[r.bucket] == m[canon(k)]
      else r == Miss
  {
    AsMapContents(kv, vv, canon, canon(k));
    ProbeIsListLookup(hv, kv, hs, ks, slots, pos, hashOf(k), KeyTest(cmp, k), r);
    FirstHitIsEqualKey(cmp, hashOf, canon, hv, kv, k);
    hide Ordered, Decides, RespectsEquality, Distinct, AsMap, FirstHit, Probes;
  }

  /** Searching the key list for a key finds the one equal key, if there is one. */
  lemma FirstHitIsEqualKey<K(!new), C>(cmp: (K, K) -> Comparison, hashOf: K -> u32, canon: K -> C, hv: seq<u32>, kv: seq<Slot<K>>, k: K)
    requires Decides(cmp, canon) && RespectsEquality(hashOf, canon) && HashedBy(hv, kv, hashOf)
    requires Distinct(kv, canon)
    ensures match FirstHit(hv, kv, hashOf(k), KeyTest(cmp, k), 0)
      case None => forall a :: 0 <= a < |kv| ==> canon(kv[a].key) != canon(k)
      case Some(a) => kv[a].Full? && canon(kv[a].key) == canon(k) && KeyTest(cmp, k)(kv[a].key) == Yes
  {
    var test := KeyTest(cmp, k);
    forall a | 0 <= a < |kv| ensures Hit(hv, kv, hashOf(k), test, a) <==> canon(k) == canon(kv[a].key) {
    }
  }
}

/**
  The iterator over the slots of one hash, the helper lookups built on it, and integer-key lookups.
 */
module HashIteration {
  import opened Wrappers
  import opened PowersOfTwo
  import opened Probing
  import opened HashTable
  import opened HashLookup

  /** Keys of a map table paired with the value in the same bucket. */
  function Paired<K>(ks: seq<Slot<K>>, vs: seq<Slot<K>>): (r: seq<Slot<(K, Slot<K>)>>)
    requires |ks| == |vs|
    ensures |r| == |ks|
    ensures forall b :: 0 <= b < |ks| ==> r[b] == (if ks[b] == Empty then Empty else Full((ks[b].key, vs[b])))
  {
    seq(|ks|, b requires 0 <= b < |ks| => if ks[b] == Empty then Empty else Full((ks[b].key, vs[b])))
  }

  /** The tests made by the helper lookups: a plain check of the key, or of the key and then its value. */
  function SetTest<K>(checkKey: K -> bool): K -> Match {
    k => if checkKey(k) then Yes else No
  }

  function MapTest<K>(checkKey: K -> bool, checkValue: Slot<K> -> bool): ((K, Slot<K>)) -> Match {
    (kv: (K, Slot<K>)) => if checkKey(kv.0) && checkValue(kv.1) then Yes else No
  }

  function SameInteger<K>(intOf: K -> Option<int>, v: int): K -> bool {
    k => intOf(k) == Some(v)
  }

  /** The probes from step `from` up to step `to` meet no bucket that holds the hash. */
  ghost predicate HashAbsent(hs: seq<u32>, hash: u32, from: nat, to: nat) {
    |hs| > 0 && forall s: nat :: from <= s < to ==> hs[BucketAt(hash, |hs|, s)] != hash
  }

  class HashIterator {
    var i: u32
    var perturb: u32
    var mask: u32
    ghost var steps: nat

    constructor (hash: u32, nBuckets: u32)
      requires nBuckets > 0
      ensures Walking(hash, nBuckets) && steps == 0
    {
      perturb := hash;
      i := hash;
      mask := nBuckets - 1;
      steps := 0;
    }

    /** The iterator is in the middle of the probe sequence of `hash`. */
    ghost predicate Walking(hash: u32, n: nat)
      reads this
    {
      mask + 1 == n && ProbeState(i, perturb) == StateAt(hash, steps)
    }

    /** The next bucket of the probe sequence, whatever its hash; an empty bucket ends the walk for good. */
    method ProbeHash<K>(ks: seq<Slot<K>>, ghost hash: u32) returns (more: bool, bucket: nat)
      requires Walking(hash, |ks|)
      modifies this
      ensures Walking(hash, |ks|) && bucket == BucketAt(hash, |ks|, old(steps))
      ensures more <==> ks[bucket] != Empty
      ensures steps == old(steps) + if more then 1 else 0
    {
      bucket := ProbeState(i, perturb).Bucket(mask + 1);
      if ks[bucket] == Empty {
        return false, bucket;
      }
      i, perturb := (5 * i + perturb + 1) % TWO_32, perturb / 32;
      steps := steps + 1;
      more := true;
    }

    /** The next occupied bucket that holds `hash`. */
    method NextSlot<K>(hs: seq<u32>, ks: seq<Slot<K>>, hash: u32) returns (more: bool, bucket: nat)
      requires IsTable(hs, ks) && HasEmptySlot(ks)
      requires Walking(hash, |ks|) && Chained(ks, hash, steps)
      modifies this
      ensures Walking(hash, |ks|) && Chained(ks, hash, steps) && old(steps) <= steps
      ensures bucket < |ks|
      ensures more ==> steps > old(steps) && bucket == BucketAt(hash, |ks|, steps - 1) && hs[bucket] == hash && ks[bucket] != Empty
      ensures !more ==> ks[BucketAt(hash, |ks|, steps)] == Empty
      ensures steps <= ProbeBound(|ks|)
      ensures HashAbsent(hs, hash, old(steps), steps - (if more then 1 else 0))
    {
      ghost var end := ProbeEndsAtEmpty(ks, hash);
      while true
        invariant Walking(hash, |ks|) && Chained(ks, hash, steps) && old(steps) <= steps <= end
        invariant HashAbsent(hs, hash, old(steps), steps)
        decreases end - steps
      {
        more, bucket := ProbeHash(ks, hash);
        if !more || hs[bucket] == hash {
          return;
        }
      }
    }
  }

  /** The first bucket of the hash whose key passes the check. */
  method GetSet<K>(hs: seq<u32>, ks: seq<Slot<K>>, hash: u32, checkKey: K -> bool) returns (r: ProbeResult)
    requires IsTable(hs, ks) && HasEmptySlot(ks)
    ensures Probes(hs, ks, hash, SetTest(checkKey), r)
    ensures r.Found? ==> r.bucket < |ks| && hs[r.bucket] == hash && ks[r.bucket] != Empty && checkKey(ks[r.bucket].key)
  {
    hide BucketAt, StateAt;
    ghost var test := SetTest(checkKey);
    var iter := new HashIterator(hash, |ks|);
    var more, bucket := iter.NextSlot(hs, ks, hash);
    while more
      invariant iter.Walking(hash, |ks|) && Chained(ks, hash, iter.steps) && iter.steps <= ProbeBound(|ks|) && bucket < |ks|
      invariant more ==> iter.steps > 0 && bucket == BucketAt(hash, |ks|, iter.steps - 1) && hs[bucket] == hash && ks[bucket] != Empty
      invariant !more ==> ks[BucketAt(hash, |ks|, iter.steps)] == Empty
      invariant forall s: nat :: s < iter.steps - (if more then 1 else 0) ==> !Stops(hs, ks, hash, test, s)
      decreases ProbeBound(|ks|) - iter.steps, more
    {
      if checkKey(ks[bucket].key) {
        assert Stops(hs, ks, hash, test, iter.steps - 1);
        return Found(bucket);
      }
      more, bucket := iter.NextSlot(hs, ks, hash);
    }
    assert Stops(hs, ks, hash, test, iter.steps);
    r := Miss;
  }

  /** The first bucket of the hash whose key and value both pass their checks. */
  method GetMap<K>(hs: seq<u32>, ks: seq<Slot<K>>, vs: seq<Slot<K>>, hash: u32, checkKey: K -> bool, checkValue: Slot<K> -> bool)
    returns (r: ProbeResult)
    requires IsTable(hs, ks) && HasEmptySlot(ks) && |vs| == |ks|
    ensures Probes(hs, Paired(ks, vs), hash, MapTest(checkKey, checkValue), r)
    ensures r.Found? ==> r.bucket < |ks| && hs[r.bucket] == hash && ks[r.bucket] != Empty && checkKey(ks[r.bucket].key) && checkValue(vs[r.bucket])
  {
    hide BucketAt, StateAt, Stops, ResultAt, NoneStops, HashAbsent, Chained, Probes;
    ghost var test := MapTest(checkKey, checkValue);
    ghost var kvs := Paired(ks, vs);
    var iter := new HashIterator(hash, |ks|);
    var more, bucket := iter.NextSlot(hs, ks, hash);
    NoneStopsYet(hs, kvs, hash, test);
    MapSlotsSkipped(hs, ks, vs, hash, test, 0, iter.steps - (if more then 1 else 0));
    while more
      invariant iter.Walking(hash, |ks|) && Chained(ks, hash, iter.steps) && iter.steps <= ProbeBound(|ks|) && bucket < |ks|
      invariant more ==> iter.steps > 0 && bucket == BucketAt(hash, |ks|, iter.steps - 1) && hs[bucket] == hash && ks[bucket] != Empty
      invariant !more ==> ks[BucketAt(hash, |ks|, iter.steps)] == Empty
      invariant NoneStops(hs, kvs, hash, test, iter.steps - (if more then 1 else 0))
      decreases ProbeBound(|ks|) - iter.steps, more
    {
      MapSlotStops(hs, ks, vs, hash, checkKey, checkValue, iter.steps - 1);
      if checkKey(ks[bucket].key) && checkValue(vs[bucket]) {
        return Found(bucket);
      }
      ghost var before := iter.steps;
      more, bucket := iter.NextSlot(hs, ks, hash);
      MapSlotsSkipped(hs, ks, vs, hash, test, before, iter.steps - (if more then 1 else 0));
    }
    MapWalkEnds(hs, ks, vs, hash, test, iter.steps);
    r := Miss;
  }

  ghost predicate NoneStops<K>(hs: seq<u32>, ks: seq<Slot<K>>, hash: u32, test: K -> Match, t: int)
    requires |hs| == |ks| > 0
  {
    forall s: nat :: s < t ==> !Stops(hs, ks, hash, test, s)
  }

  lemma NoneStopsYet<K>(hs: seq<u32>, ks: seq<Slot<K>>, hash: u32, test: K -> Match)
    requires |hs| == |ks| > 0
    ensures NoneStops(hs, ks, hash, test, 0)
  {
  }

  lemma MapSlotsSkipped<K>(hs: seq<u32>, ks: seq<Slot<K>>, vs: seq<Slot<K>>, hash: u32, test: ((K, Slot<K>)) -> Match, before: nat, t: nat)
    requires |hs| == |ks| == |vs| > 0 && before <= t
    requires NoneStops(hs, Paired(ks, vs), hash, test, before) && Chained(ks, hash, t)
    requires HashAbsent(hs, hash, before, t)
    ensures NoneStops(hs, Paired(ks, vs), hash, test, t)
  {
  }

  lemma MapWalkEnds<K>(hs: seq<u32>, ks: seq<Slot<K>>, vs: seq<Slot<K>>, hash: u32, test: ((K, Slot<K>)) -> Match, t: nat)
    requires |hs| == |ks| == |vs| > 0
    requires ks[BucketAt(hash, |ks|, t)] == Empty && NoneStops(hs, Paired(ks, vs), hash, test, t)
    ensures Probes(hs, Paired(ks, vs), hash, test, Miss)
  {
    assert Stops(hs, Paired(ks, vs), hash, test, t);
  }

  lemma MapSlotStops<K>(hs: seq<u32>, ks: seq<Slot<K>>, vs: seq<Slot<K>>, hash: u32, checkKey: K -> bool, checkValue: Slot<K> -> bool, t: nat)
    requires |hs| == |ks| == |vs| > 0
    requires ks[BucketAt(hash, |ks|, t)] != Empty && hs[BucketAt(hash, |ks|, t)] == hash
    requires NoneStops(hs, Paired(ks, vs), hash, MapTest(checkKey, checkValue), t)
    ensures var b := BucketAt(hash, |ks|, t);
      if checkKey(ks[b].key) && checkValue(vs[b]) then Probes(hs, Paired(ks, vs), hash, MapTest(checkKey, checkValue), Found(b))
      else NoneStops(hs, Paired(ks, vs), hash, MapTest(checkKey, checkValue), t + 1)
  {
    var b := BucketAt(hash, |ks|, t);
    if checkKey(ks[b].key) && checkValue(vs[b]) {
      assert Stops(hs, Paired(ks, vs), hash, MapTest(checkKey, checkValue), t);
    }
  }

  /** A populated map table is a populated table of key/value pairs. */
  lemma PairedIsPlaced<K>(hv: seq<u32>, kv: seq<Slot<K>>, vv: seq<Slot<K>>, hs: seq<u32>, ks: seq<Slot<K>>, vs: seq<Slot<K>>,
                          slots: seq<nat>, pos: seq<nat>)
    requires Placed(hv, kv, hs, ks, slots, pos) && |slots| == |kv| == |vv|
    requires |vs| == |ks| && ValuesPlaced(vv, vs, slots)
    ensures Placed(hv, Paired(kv, vv), hs, Paired(ks, vs), slots, pos)
  {
    forall a | 0 <= a < |kv| ensures Chained(Paired(ks, vs), hv[a], pos[a]) {
      assert Chained(ks, hv[a], pos[a]);
    }
  }

  // ---- integer keys ----

  /** The 64-bit integer reinterpreted as unsigned, modulo UINT32_MAX. */
  function HashI64(v: int): u32
    requires -0x8000_0000_0000_0000 <= v < 0x8000_0000_0000_0000
  {
    (v % 0x1_0000_0000_0000_0000) % 0xFFFF_FFFF
  }

  /** The hash stored for a 32-bit integer key, signed or unsigned. */
  function HashInt32(v: int): u32
    requires -0x8000_0000 <= v < 0x1_0000_0000
  {
    v % 0x1_0000_0000
  }

  /** The two integer hashes disagree for exactly two integers. */
  lemma IntegerHashesAgree(v: int)
    requires -0x8000_0000 <= v < 0x1_0000_0000
    ensures HashI64(v) == HashInt32(v) <==> v != -1 && v != 0xFFFF_FFFF
  {
    if v < 0 {
      assert v + 0x1_0000_0000_0000_0000 == 0xFFFF_FFFF * 0x1_0000_0001 + (v + 1);
      if v < -1 {
        ModOfMultiple(v + 0x1_0000_0000_0000_0000, v + 0x1_0000_0000, 0xFFFF_FFFF, 0x1_0000_0000);
      } else {
        ModOfMultiple(v + 0x1_0000_0000_0000_0000, 0, 0xFFFF_FFFF, 0x1_0000_0001);
      }
    }
  }

  /** Integer keys are 32-bit and are stored under their own hash. */
  ghost predicate IntegersHashed<K>(hv: seq<u32>, kv: seq<Slot<K>>, intOf: K -> Option<int>) {
    |hv| == |kv| && forall a :: 0 <= a < |kv| && kv[a].Full? && intOf(kv[a].key).Some? ==>
      var v := intOf(kv[a].key).value;
      -0x8000_0000 <= v < 0x1_0000_0000 && hv[a] == HashInt32(v)
  }

  ghost predicate StoresInteger<K>(kv: seq<Slot<K>>, intOf: K -> Option<int>, v: int) {
    exists a :: 0 <= a < |kv| && kv[a].Full? && intOf(kv[a].key) == Some(v)
  }

  /** Is the 64-bit integer a key of the set? */
  method IsIntInSet<K>(hs: seq<u32>, ks: seq<Slot<K>>, intOf: K -> Option<int>, v: int) returns (r: ProbeResult)
    requires -0x8000_0000_0000_0000 <= v < 0x8000_0000_0000_0000
    requires IsTable(hs, ks) && HasEmptySlot(ks)
    ensures Probes(hs, ks, HashI64(v), SetTest(SameInteger(intOf, v)), r)
  {
    r := GetSet(hs, ks, HashI64(v), SameInteger(intOf, v));
  }

  /**
    An int64 lookup in a populated table succeeds if and only if the integer is stored and is neither
    -1 nor 2^32 - 1: those two hash differently when looked up.
   */
  lemma IntLookupIsExact<K>(hv: seq<u32>, kv: seq<Slot<K>>, hs: seq<u32>, ks: seq<Slot<K>>, slots: seq<nat>, pos: seq<nat>,
                            intOf: K -> Option<int>, v: int, r: ProbeResult)
    requires -0x8000_0000_0000_0000 <= v < 0x8000_0000_0000_0000
    requires Placed(hv, kv, hs, ks, slots, pos) && |slots| == |kv| && IntegersHashed(hv, kv, intOf)
    requires Probes(hs, ks, HashI64(v), SetTest(SameInteger(intOf, v)), r)
    ensures r.Found? <==> StoresInteger(kv, intOf, v) && v != -1 && v != 0xFFFF_FFFF
    ensures r.Found? ==> ks[r.bucket].Full? && intOf(ks[r.bucket].key) == Some(v)
    ensures r != ProbeError
  {
    var test := SetTest(SameInteger(intOf, v));
    ProbeIsListLookup(hv, kv, hs, ks, slots, pos, HashI64(v), test, r);
    var first := FirstHit(hv, kv, HashI64(v), test, 0);
    if -0x8000_0000 <= v < 0x1_0000_0000 {
      IntegerHashesAgree(v);
      if StoresInteger(kv, intOf, v) && v != -1 && v != 0xFFFF_FFFF {
        var a :| 0 <= a < |kv| && kv[a].Full? && intOf(kv[a].key) == Some(v);
        assert Hit(hv, kv, HashI64(v), test, a);
      }
    }
  }
}

/**
  Reading a populated table: probing for one key, iterating over the slots of one hash, and the agreement
  of both with a plain finite map.
 */
module HashLookup {
  import opened Wrappers
  import opened PowersOfTwo
  import opened Probing
  import opened HashTable

  /** What the equality test says about a stored key. */
  datatype Match = Yes | No | Failed

  datatype ProbeResult = Miss | ProbeError | Found(bucket: nat)

  /** A probe stops at an empty bucket, or at a key of its hash that the test does not turn down. */
  ghost predicate Stops<K>(hs: seq<u32>, ks: seq<Slot<K>>, hash: u32, test: K -> Match, t: nat)
    requires |hs| == |ks| > 0
  {
    var b := BucketAt(hash, |ks|, t);
    ks[b] == Empty || (hs[b] == hash && test(ks[b].key) != No)
  }

  ghost function ResultAt<K>(ks: seq<Slot<K>>, hash: u32, test: K -> Match, t: nat): ProbeResult
    requires |ks| > 0
  {
    var b := BucketAt(hash, |ks|, t);
    if ks[b] == Empty then Miss else if test(ks[b].key) == Failed then ProbeError else Found(b)
  }

  /** r is the result of the first probe that stops. */
  ghost predicate Probes<K>(hs: seq<u32>, ks: seq<Slot<K>>, hash: u32, test: K -> Match, r: ProbeResult) {
    |hs| == |ks| > 0 &&
    exists t: nat :: Stops(hs, ks, hash, test, t) && r == ResultAt(ks, hash, test, t)
                     && forall s: nat :: s < t ==> !Stops(hs, ks, hash, test, s)
  }

  lemma ProbesIsFunctional<K>(hs: seq<u32>, ks: seq<Slot<K>>, hash: u32, test: K -> Match, r: ProbeResult, r': ProbeResult)
    requires Probes(hs, ks, hash, test, r) && Probes(hs, ks, hash, test, r')
    ensures r == r'
  {
    var t: nat :| Stops(hs, ks, hash, test, t) && r == ResultAt(ks, hash, test, t)
                  && forall s: nat :: s < t ==> !Stops(hs, ks, hash, test, s);
    var t': nat :| Stops(hs, ks, hash, test, t') && r' == ResultAt(ks, hash, test, t')
                   && forall s: nat :: s < t' ==> !Stops(hs, ks, hash, test, s);
    assert !(t < t') && !(t' < t);
  }

  method Probe<K>(hs: seq<u32>, ks: seq<Slot<K>>, hash: u32, test: K -> Match) returns (r: ProbeResult)
    requires IsTable(hs, ks) && HasEmptySlot(ks)
    ensures Probes(hs, ks, hash, test, r)
  {
    ghost var end := ProbeEndsAtEmpty(ks, hash);
    var state := Start(hash);
    ghost var t := 0;
    while true
      invariant state == StateAt(hash, t) && t <= end
      invariant forall s: nat :: s < t ==> !Stops(hs, ks, hash, test, s)
      decreases end - t
    {
      var bucket := state.Bucket(|ks|);
      assert bucket == BucketAt(hash, |ks|, t);
      if ks[bucket] == Empty {
        assert Stops(hs, ks, hash, test, t);
        return Miss;
      }
      if hs[bucket] == hash {
        var answer := test(ks[bucket].key);
        if answer != No {
          assert Stops(hs, ks, hash, test, t);
          return if answer == Failed then ProbeError else Found(bucket);
        }
      }
      state := state.Step();
      t := t + 1;
    }
  }

  // ---- the reference: searching the list of keys the table was made from ----

  predicate Hit<K>(hv: seq<u32>, kv: seq<Slot<K>>, hash: u32, test: K -> Match, a: nat)
    requires |hv| == |kv| && a < |kv|
  {
    hv[a] == hash && kv[a].Full? && test(kv[a].key) != No
  }

  /** The first key of the list, from index a on, that has the hash and is not turned down. */
  function FirstHit<K>(hv: seq<u32>, kv: seq<Slot<K>>, hash: u32, test: K -> Match, a: nat): (r: Option<nat>)
    requires |hv| == |kv| && a <= |kv|
    ensures r == None ==> forall x :: a <= x < |kv| ==> !Hit(hv, kv, hash, test, x)
    ensures r.Some? ==> a <= r.value < |kv| && Hit(hv, kv, hash, test, r.value)
                        && forall x :: a <= x < r.value ==> !Hit(hv, kv, hash, test, x)
    decreases |kv| - a
  {
    if a == |kv| then None
    else if Hit(hv, kv, hash, test, a) then Some(a)
    else FirstHit(hv, kv, hash, test, a + 1)
  }

  function ListLookup<K>(hv: seq<u32>, kv: seq<Slot<K>>, slots: seq<nat>, hash: u32, test: K -> Match): ProbeResult
    requires |hv| == |kv| == |slots|
  {
    match FirstHit(hv, kv, hash, test, 0)
    case None => Miss
    case Some(a) => if kv[a].Full? && test(kv[a].key) == Failed then ProbeError else Found(slots[a])
  }

  /** Probing a populated table is searching the list it was populated from, for any hash and any test. */
  lemma ProbeIsListLookup<K>(hv: seq<u32>, kv: seq<Slot<K>>, hs: seq<u32>, ks: seq<Slot<K>>, slots: seq<nat>, pos: seq<nat>,
                             hash: u32, test: K -> Match, r: ProbeResult)
    requires Placed(hv, kv, hs, ks, slots, pos) && |slots| == |kv|
    requires Probes(hs, ks, hash, test, r)
    ensures r == ListLookup(hv, kv, slots, hash, test)
  {
    var t: nat :| Stops(hs, ks, hash, test, t) && r == ResultAt(ks, hash, test, t)
                  && forall s: nat :: s < t ==> !Stops(hs, ks, hash, test, s);
    var first := FirstHit(hv, kv, hash, test, 0);
    if ks[BucketAt(hash, |ks|, t)] == Empty {
      forall a | 0 <= a < |kv| ensures !Hit(hv, kv, hash, test, a) {
        if hv[a] == hash {
          SameHashIsEarlier(hv, kv, hs, ks, slots, pos, a, t);
          assert !Stops(hs, ks, hash, test, pos[a]);
        }
      }
    } else {
      var a := OwnerOf(hv, kv, hs, ks, slots, pos, hash, t);
      assert Hit(hv, kv, hash, test, a);
      assert pos[a] == t by { assert Stops(hs, ks, hash, test, pos[a]); }
      forall x | 0 <= x < a ensures !Hit(hv, kv, hash, test, x) {
        if hv[x] == hash { assert !Stops(hs, ks, hash, test, pos[x]); }
      }
    }
  }
}

/**
  Iteration over the keys of a set, or the pairs of a map, bucket by bucket; and what a whole iteration over a
  written set or map yields.
 */
module Iteration {
  import opened Wrappers
  import opened Unfolding
  import opened Values
  import opened CreateState
  import opened Bytes
  import opened Heap
  import opened Reader
  import opened ReadBack
  import opened Tables
  import opened RoundTrip
  import opened LaidOutTables
  import opened WrittenLookup

  /** What an iteration has passed after n buckets. */
  function Passed<T>(ks: seq<RNode>, xs: seq<T>, n: nat): seq<T>
    requires n <= |ks| == |xs|
  {
    Kept(Filled(ks)[..n], xs[..n])
  }

  lemma PassedStep<T>(ks: seq<RNode>, xs: seq<T>, n: nat)
    requires n < |ks| == |xs|
    ensures Passed(ks, xs, n + 1) == Passed(ks, xs, n) + if IsFilled(ks[n]) then [xs[n]] else []
  {
    assert Filled(ks)[..n + 1][..n] == Filled(ks)[..n] && xs[..n + 1][..n] == xs[..n];
  }

  lemma PassedAll<T>(ks: seq<RNode>, xs: seq<T>)
    requires |ks| == |xs|
    ensures Passed(ks, xs, |ks|) == Kept(Filled(ks), xs)
  {
    assert Filled(ks)[..|ks|] == Filled(ks) && xs[..|ks|] == xs;
  }

  class BucketIterator {
    var state: nat

    constructor ()
      ensures state == 0
    {
      state := 0;
    }

    /** The next key, if there is one: goes past empty buckets, and past the bucket of the key. */
    method NextKey(ks: seq<RNode>) returns (k: Option<RNode>)
      requires state <= |ks|
      modifies this
      ensures old(state) <= state <= |ks|
      ensures Passed(ks, ks, state) == Passed(ks, ks, old(state)) + if k.Some? then [k.value] else []
      ensures if k.Some? then old(state) < state && IsFilled(k.value) else state == |ks|
    {
      while state < |ks|
        invariant old(state) <= state <= |ks|
        invariant Passed(ks, ks, state) == Passed(ks, ks, old(state))
      {
        PassedStep(ks, ks, state);
        var key := ks[state];
        state := state + 1;
        if IsFilled(key) {
          return Some(key);
        }
      }
      k := None;
    }

    /** The next key with its value. */
    method NextPair(ks: seq<RNode>, vs: seq<RNode>) returns (p: Option<(RNode, RNode)>)
      requires state <= |ks| == |vs|
      modifies this
      ensures old(state) <= state <= |ks|
      ensures Passed(ks, Zip(ks, vs), state) == Passed(ks, Zip(ks, vs), old(state)) + if p.Some? then [p.value] else []
      ensures if p.Some? then old(state) < state && IsFilled(p.value.0) else state == |ks|
    {
      while state < |ks|
        invariant old(state) <= state <= |ks|
        invariant Passed(ks, Zip(ks, vs), state) == Passed(ks, Zip(ks, vs), old(state))
      {
        PassedStep(ks, Zip(ks, vs), state);
        var key, value := ks[state], vs[state];
        state := state + 1;
        if IsFilled(key) {
          return Some((key, value));
        }
      }
      p := None;
    }
  }

  /** Iterating until nothing comes yields the keys of all filled buckets, in bucket order, each once. */
  method IterateSet(ks: seq<RNode>) returns (keys: seq<RNode>)
    ensures keys == Kept(Filled(ks), ks)
  {
    var it := new BucketIterator();
    keys := [];
    PassedAll(ks, ks);
    var more := true;
    while more
      invariant it.state <= |ks| && keys == Passed(ks, ks, it.state) && (more || it.state == |ks|)
      invariant fresh(it)
      decreases more, |ks| - it.state
    {
      var k := it.NextKey(ks);
      if k.Some? {
        keys := keys + [k.value];
      } else {
        more := false;
      }
    }
  }

  method IterateMap(ks: seq<RNode>, vs: seq<RNode>) returns (pairs: seq<(RNode, RNode)>)
    requires |ks| == |vs|
    ensures pairs == Kept(Filled(ks), Zip(ks, vs))
  {
    var it := new BucketIterator();
    pairs := [];
    PassedAll(ks, Zip(ks, vs));
    var more := true;
    while more
      invariant it.state <= |ks| && pairs == Passed(ks, Zip(ks, vs), it.state) && (more || it.state == |ks|)
      invariant fresh(it)
      decreases more, |ks| - it.state
    {
      var p := it.NextPair(ks, vs);
      if p.Some? {
        pairs := pairs + [p.value];
      } else {
        more := false;
      }
    }
  }

  // ---- what a written table yields ----

  /** Handles as the reader sees them. */
  function ReadRefs(s: State, hs: seq<int>): (r: seq<RNode>)
    requires AllPublic(s, hs)
    ensures |r| == |hs| && forall i :: 0 <= i < |hs| ==> r[i] == Ref(ToRead(s, hs[i]))
  {
    seq(|hs|, i requires 0 <= i < |hs| => Ref(ToRead(s, hs[i])))
  }

  lemma AppliedIsReadRefs(s: State, v: CValue, hs: seq<int>)
    requires IsValueVector(v.typ) && AllPublic(s, hs)
    ensures Apply((k: int) => ReadItem(s, v, k), hs) == ReadRefs(s, hs)
  {
  }

  lemma KeysIterated(s: State, v: CValue, keys: seq<int>, ks: seq<int>, read: seq<RNode>)
    requires IsValueVector(v.typ) && |read| == |ks| && (forall i :: 0 <= i < |ks| ==> IsHandle(s, ks[i]) && read[i] == ReadItem(s, v, ks[i]))
    requires AllPublic(s, keys) && multiset(Kept(Occupied(s, ks), ks)) == multiset(keys)
    ensures multiset(Kept(Filled(read), read)) == multiset(ReadRefs(s, keys))
  {
    var f := (k: int) => ReadItem(s, v, k);
    FilledIsOccupied(s, v, ks, read);
    AppliedIsReadRefs(s, v, keys);
    hide ReadItem, AllPublic;
    KeptApply(f, Occupied(s, ks), ks);
    ApplyPermuted(f, keys, Kept(Occupied(s, ks), ks));
  }

  lemma TablesArePublic(s: State, h: int)
    requires Writable(s) && IsTable(s, h)
    ensures IsPublic(s, h)
  {
    assert TableMade(s, h);
    if KindOf(s.values[h]) == SetTable { SetParts(s, h); } else { MapParts(s, h); }
  }

  /** Iterating over a written set yields the keys it was created from, each as often, in some order. */
  lemma IterationYieldsKeys(s: State, root: int, h: int)
    requires Writable(s) && IsHandle(s, root) && IsTable(s, h) && KindOf(s.values[h]) == SetTable
    ensures Opens(Serialized(s, root)) && s.values[h].data < |s.sets| && AllPublic(s, s.sets[s.values[h].data].keys)
    ensures var t := ReadTable(Serialized(s, root), ToRead(s, h));
      t.Some? && multiset(Kept(Filled(t.value.keys), t.value.keys)) == multiset(ReadRefs(s, s.sets[s.values[h].data].keys))
  {
    hide *;
    TablesArePublic(s, h);
    SetFacts(s, h);
    WrittenTableReads(s, root, h);
    PartTypes(s, h);
    WrittenKeys(s, h);
    var v := s.values[h - 1];
    KeysIterated(s, v, s.sets[s.values[h].data].keys, ItemsOf(s, v), ReadItems(s, v));
  }

  lemma WrittenKeys(s: State, h: int)
    requires Writable(s) && IsTable(s, h)
    ensures IsHandle(s, KeyPartOf(s, h)) && WrittenTable(s, h).keys == ReadItems(s, s.values[KeyPartOf(s, h)])
    ensures KindOf(s.values[h]) == SetTable ==> KeyPartOf(s, h) == h - 1
    ensures KindOf(s.values[h]) == MapTable ==> IsHandle(s, h - 1) && KeyPartOf(s, h) == h - 2 && WrittenTable(s, h).values == ReadItems(s, s.values[h - 1])
  {
    hide ReadItems;
    PartTypes(s, h);
    if KindOf(s.values[h]) == SetTable { SetParts(s, h); } else { MapParts(s, h); }
  }

  lemma PairsIterated(s: State, v: CValue, keys: seq<int>, values: seq<int>, ks: seq<int>, vs: seq<int>, readK: seq<RNode>, readV: seq<RNode>)
    requires IsValueVector(v.typ) && |readK| == |readV| == |ks| == |vs| && |keys| == |values|
    requires forall i :: 0 <= i < |ks| ==> IsHandle(s, ks[i]) && readK[i] == ReadItem(s, v, ks[i])
    requires forall i :: 0 <= i < |vs| ==> IsHandle(s, vs[i]) && readV[i] == ReadItem(s, v, vs[i])
    requires AllPublic(s, keys) && AllPublic(s, values)
    requires multiset(Kept(Occupied(s, ks), Zip(ks, vs))) == multiset(Zip(keys, values))
    ensures multiset(Kept(Filled(readK), Zip(readK, readV))) == multiset(Zip(ReadRefs(s, keys), ReadRefs(s, values)))
  {
    var g := (p: (int, int)) => (ReadItem(s, v, p.0), ReadItem(s, v, p.1));
    FilledIsOccupied(s, v, ks, readK);
    FilledIsOccupied(s, v, vs, readV);
    AppliedIsReadRefs(s, v, keys);
    AppliedIsReadRefs(s, v, values);
    hide ReadItem, AllPublic, Occupied, Filled;
    assert Zip(readK, readV) == Apply(g, Zip(ks, vs));
    KeptApply(g, Occupied(s, ks), Zip(ks, vs));
    ApplyPermuted(g, Zip(keys, values), Kept(Occupied(s, ks), Zip(ks, vs)));
    assert Zip(ReadRefs(s, keys), ReadRefs(s, values)) == Apply(g, Zip(keys, values)) by {
      assert ReadRefs(s, keys) == Apply((k: int) => ReadItem(s, v, k), keys);
      assert ReadRefs(s, values) == Apply((k: int) => ReadItem(s, v, k), values);
    }
  }

  /** Iterating over a written map yields the pairs it was created from, each key with its own value. */
  lemma IterationYieldsPairs(s: State, root: int, h: int)
    requires Writable(s) && IsHandle(s, root) && IsTable(s, h) && KindOf(s.values[h]) == MapTable
    ensures Opens(Serialized(s, root)) && s.values[h].data < |s.maps|
    ensures var x := s.maps[s.values[h].data]; AllPublic(s, x.keys) && AllPublic(s, x.values) && |x.keys| == |x.values|
    ensures var x, t := s.maps[s.values[h].data], ReadTable(Serialized(s, root), ToRead(s, h));
      && t.Some? && |t.value.keys| == |t.value.values|
      && multiset(Kept(Filled(t.value.keys), Zip(t.value.keys, t.value.values))) == multiset(Zip(ReadRefs(s, x.keys), ReadRefs(s, x.values)))
  {
    hide *;
    TablesArePublic(s, h);
    MapFacts(s, h);
    WrittenTableReads(s, root, h);
    PartTypes(s, h);
    WrittenKeys(s, h);
    var x, v, w := s.maps[s.values[h].data], s.values[h - 2], s.values[h - 1];
    ReadLikeKeys(s, v, w);
    PairsIterated(s, v, x.keys, x.values, ItemsOf(s, v), ItemsOf(s, w), ReadItems(s, v), ReadItems(s, w));
  }
}

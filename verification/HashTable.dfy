/**
  The open-addressing hash table behind sets and maps: choosing the number of buckets, populating a table,
  probing it for a key, and iterating over the slots of one hash.

  Keys are an abstract type. The outcome of comparing two keys is what the library's comparison callbacks
  deliver: an order, or an error.
 */
module HashTable {
  import opened Wrappers
  import opened PowersOfTwo
  import opened Probing

  /** A key or value cell of a table: the empty-slot marker, or a handle. */
  datatype Slot<+K> = Empty | Full(key: K)

  datatype Comparison = Order(sign: int) | CompareError

  // ---- number of buckets ----

  const MAX_BUCKETS: nat := 0x8000_0000

  /** The smallest power of two that is at least m. */
  function LeastPowerOfTwo(m: nat): (p: nat)
    requires m <= MAX_BUCKETS
    ensures IsPowerOfTwo(p) && m <= p <= MAX_BUCKETS && (p == 1 || p / 2 < m)
  {
    DoubleUntil(m, 1)
  }

  function DoubleUntil(m: nat, p: nat): (r: nat)
    requires m <= MAX_BUCKETS
    requires IsPowerOfTwo(p) && (p == 1 || p / 2 < m) && p <= MAX_BUCKETS
    ensures IsPowerOfTwo(r) && m <= r <= MAX_BUCKETS && (r == 1 || r / 2 < m)
    decreases m - p
  {
    if p >= m then p else
      DoubleStaysInRange(p, m);
      DoubleUntil(m, 2 * p)
  }

  lemma DoubleStaysInRange(p: nat, m: nat)
    requires IsPowerOfTwo(p) && p < m <= MAX_BUCKETS
    ensures 2 * p <= MAX_BUCKETS
  {
    var k := PowerOfTwoExponent(p);
    Pow2_32();
    assert Pow2(32) == 2 * Pow2(31);
    if k >= 31 {
      if k > 31 { Pow2Increases(31, k); }
    } else if k + 1 < 31 {
      Pow2Increases(k + 1, 31);
    }
    assert Pow2(k + 1) == 2 * Pow2(k);
  }

  /**
    The doubling loop in 32-bit arithmetic. For m above 2^31 it never ends (DoublingDiverges), so a
    caller can only call it up to there.
   */
  method NextPowerOfTwo(m: u32) returns (p: u32)
    requires m <= MAX_BUCKETS
    ensures p == LeastPowerOfTwo(m)
  {
    p := 1;
    while p < m
      invariant IsPowerOfTwo(p) && 1 <= p <= MAX_BUCKETS && (p == 1 || p / 2 < m)
      invariant DoubleUntil(m, p) == LeastPowerOfTwo(m)
      decreases m - p
    {
      DoubleStaysInRange(p, m);
      p := (2 * p) % TWO_32;
    }
  }

  /** The loop variable after k doublings reaches m for some k exactly when m is at most 2^31. */
  lemma DoublingDiverges(m: u32)
    ensures (exists k: nat :: Pow2(k) % TWO_32 >= m) <==> m <= MAX_BUCKETS
  {
    Pow2_32();
    assert Pow2(32) == 2 * Pow2(31);
    if m <= MAX_BUCKETS {
      assert Pow2(31) % TWO_32 >= m;
    }
    forall k: nat ensures Pow2(k) % TWO_32 <= MAX_BUCKETS {
      if k < 31 {
        Pow2Increases(k, 31);
      } else if k >= 32 {
        Pow2Add(32, k - 32);
        ModOfMultiple(Pow2(k), 0, TWO_32, Pow2(k - 32));
      }
    }
  }

  /** n_items + n_items / 2 in 32-bit arithmetic, the size the bucket count is rounded up from. */
  function WantedBuckets(nItems: u32): u32 {
    (nItems + nItems / 2) % 0x1_0000_0000
  }

  function BucketCount(nItems: u32): (n: nat)
    requires WantedBuckets(nItems) <= MAX_BUCKETS
    ensures IsPowerOfTwo(n) && n <= MAX_BUCKETS
  {
    if nItems == 1 then 2 else LeastPowerOfTwo(WantedBuckets(nItems))
  }

  method ComputeBucketCount(nItems: u32) returns (n: u32)
    requires WantedBuckets(nItems) <= MAX_BUCKETS
    ensures n == BucketCount(nItems)
  {
    if nItems == 1 {
      return 2;
    }
    n := NextPowerOfTwo(WantedBuckets(nItems));
  }

  /** Unless the 32-bit sum wraps, there are more buckets than items: every table has an empty slot. */
  lemma BucketsExceedItems(nItems: u32)
    requires nItems + nItems / 2 <= MAX_BUCKETS
    ensures BucketCount(nItems) > nItems
    ensures nItems > 1 ==> BucketCount(nItems) < 3 * nItems
  {
    hide IsPowerOfTwo, DoubleUntil;
    assert WantedBuckets(nItems) == nItems + nItems / 2;
  }

  /** The bucket count of more than one item is the power of two from half as many more up: only one is in that range. */
  lemma BucketCountIs(nItems: u32, p: nat)
    requires nItems + nItems / 2 <= MAX_BUCKETS
    ensures BucketCount(0) == 1 && BucketCount(1) == 2
    ensures nItems > 1 ==> (p == BucketCount(nItems) <==> IsPowerOfTwo(p) && nItems + nItems / 2 <= p < 2 * (nItems + nItems / 2))
  {
    hide DoubleUntil;
    assert WantedBuckets(nItems) == nItems + nItems / 2;
    assert WantedBuckets(0) == 0;
    if nItems > 1 && IsPowerOfTwo(p) && nItems + nItems / 2 <= p < 2 * (nItems + nItems / 2) {
      OnePowerInRange(p, BucketCount(nItems), nItems + nItems / 2);
    }
  }

  lemma OnePowerInRange(p: nat, q: nat, m: nat)
    requires IsPowerOfTwo(p) && IsPowerOfTwo(q) && m <= p < 2 * m && m <= q < 2 * m
    ensures p == q
  {
    var j := PowerOfTwoExponent(p);
    var k := PowerOfTwoExponent(q);
    hide IsPowerOfTwo;
    if j < k {
      PowersApart(j, k);
    } else if k < j {
      PowersApart(k, j);
    }
  }

  lemma PowersApart(j: nat, k: nat)
    requires j < k
    ensures 2 * Pow2(j) <= Pow2(k)
  {
    if j + 1 < k { Pow2Increases(j + 1, k); }
  }

  // ---- tables ----

  /** A table of |keys| buckets, with one 32-bit hash for each bucket. */
  predicate IsTable<K>(hs: seq<u32>, ks: seq<Slot<K>>) {
    |hs| == |ks| && 0 < |ks| <= MAX_BUCKETS && IsPowerOfTwo(|ks|)
  }

  ghost predicate HasEmptySlot<K>(ks: seq<Slot<K>>) {
    exists b :: 0 <= b < |ks| && ks[b] == Empty
  }

  /** The first t probes for `hash` all hit occupied buckets. */
  ghost predicate Chained<K>(ks: seq<Slot<K>>, hash: u32, t: nat)
    requires |ks| > 0
  {
    forall s: nat :: s < t ==> ks[BucketAt(hash, |ks|, s)] != Empty
  }

  lemma ProbeEndsAtEmpty<K>(ks: seq<Slot<K>>, hash: u32) returns (t: nat)
    requires IsPowerOfTwo(|ks|) && 0 < |ks| <= MAX_BUCKETS && HasEmptySlot(ks)
    ensures t < ProbeBound(|ks|) && ks[BucketAt(hash, |ks|, t)] == Empty
  {
    var b :| 0 <= b < |ks| && ks[b] == Empty;
    t := ProbesCoverAllBuckets(hash, |ks|, b);
  }

  // ---- what it means for a table to hold a list of keys ----

  /** Key a is in bucket slots[a], with its hash; the slots are pairwise different; all other buckets are blank. */
  ghost predicate Contents<K>(hv: seq<u32>, kv: seq<Slot<K>>, hs: seq<u32>, ks: seq<Slot<K>>, slots: seq<nat>) {
    && |hs| == |ks| && |slots| <= |hv| == |kv|
    && (forall a :: 0 <= a < |slots| ==> slots[a] < |ks|)
    && (forall a :: 0 <= a < |slots| ==> hs[slots[a]] == hv[a] && ks[slots[a]] == kv[a] && kv[a] != Empty)
    && (forall a, b :: 0 <= a < b < |slots| ==> slots[a] != slots[b])
    && (forall b :: 0 <= b < |ks| && b !in slots ==> hs[b] == 0 && ks[b] == Empty)
  }

  /**
    The probe for key a reaches its bucket slots[a] first at step pos[a], past occupied buckets only, and
    keys that share a hash lie on their common probe sequence in input order.
   */
  ghost predicate Ordered<K>(hv: seq<u32>, ks: seq<Slot<K>>, slots: seq<nat>, pos: seq<nat>) {
    && |ks| > 0 && |slots| == |pos| <= |hv|
    && (forall a :: 0 <= a < |slots| ==> BucketAt(hv[a], |ks|, pos[a]) == slots[a] && Chained(ks, hv[a], pos[a]))
    && (forall a, s: nat :: 0 <= a < |slots| && s < pos[a] ==> BucketAt(hv[a], |ks|, s) != slots[a])
    && (forall a, b :: 0 <= a < b < |slots| && hv[a] == hv[b] ==> pos[a] < pos[b])
  }

  /** The table (hs, ks) holds exactly the first |slots| keys of (hv, kv). */
  ghost predicate Placed<K>(hv: seq<u32>, kv: seq<Slot<K>>, hs: seq<u32>, ks: seq<Slot<K>>, slots: seq<nat>, pos: seq<nat>) {
    Contents(hv, kv, hs, ks, slots) && Ordered(hv, ks, slots, pos)
  }

  ghost predicate ValuesPlaced<K>(vv: seq<Slot<K>>, vs: seq<Slot<K>>, slots: seq<nat>) {
    && |slots| <= |vv|
    && (forall a :: 0 <= a < |slots| ==> slots[a] < |vs| && vs[slots[a]] == vv[a])
    && (forall b :: 0 <= b < |vs| && b !in slots ==> vs[b] == Empty)
  }

  lemma BlankTable<K>(hv: seq<u32>, kv: seq<Slot<K>>, hs: seq<u32>, ks: seq<Slot<K>>)
    requires |hs| == |ks| > 0 && |hv| == |kv|
    requires forall b :: 0 <= b < |ks| ==> hs[b] == 0 && ks[b] == Empty
    ensures Placed(hv, kv, hs, ks, [], [])
  {
  }

  /** If every bucket were taken by fewer than n pairwise different slots, n buckets would not fit. */
  lemma {:induction false} SomeBucketFree(slots: seq<nat>, n: nat) returns (b: nat)
    requires |slots| < n
    ensures b < n && b !in slots
  {
    if n - 1 !in slots {
      b := n - 1;
    } else {
      var i :| 0 <= i < |slots| && slots[i] == n - 1;
      var rest := slots[..i] + slots[i + 1..];
      b := SomeBucketFree(rest, n - 1);
      forall k | 0 <= k < |slots| ensures slots[k] != b {
        if k < i { assert rest[k] == slots[k]; } else if k > i { assert rest[k - 1] == slots[k]; }
      }
    }
  }

  lemma PlacedLeavesRoom<K>(hv: seq<u32>, kv: seq<Slot<K>>, hs: seq<u32>, ks: seq<Slot<K>>, slots: seq<nat>, pos: seq<nat>)
    requires Placed(hv, kv, hs, ks, slots, pos) && |slots| < |ks|
    ensures HasEmptySlot(ks)
  {
    var b := SomeBucketFree(slots, |ks|);
  }

  lemma AddContents<K>(hv: seq<u32>, kv: seq<Slot<K>>, hs: seq<u32>, ks: seq<Slot<K>>, slots: seq<nat>, b: nat)
    requires Contents(hv, kv, hs, ks, slots) && |slots| < |hv| && kv[|slots|] != Empty
    requires b < |ks| && b !in slots
    ensures var j := |slots|; Contents(hv, kv, hs[b := hv[j]], ks[b := kv[j]], slots + [b])
  {
    var slots' := slots + [b];
    assert forall c :: c in slots || c == b ==> c in slots' by { assert slots'[|slots|] == b; }
  }

  lemma AddOrdered<K>(hv: seq<u32>, ks: seq<Slot<K>>, slots: seq<nat>, pos: seq<nat>, t: nat, key: Slot<K>)
    requires Ordered(hv, ks, slots, pos) && |slots| < |hv| && key != Empty
    requires Chained(ks, hv[|slots|], t) && ks[BucketAt(hv[|slots|], |ks|, t)] == Empty
    requires forall a :: 0 <= a < |slots| && hv[a] == hv[|slots|] ==> pos[a] < t
    ensures var b := BucketAt(hv[|slots|], |ks|, t); Ordered(hv, ks[b := key], slots + [b], pos + [t])
  {
    var j := |slots|;
    var b := BucketAt(hv[j], |ks|, t);
    forall a | 0 <= a < j + 1 ensures Chained(ks[b := key], hv[a], (pos + [t])[a]) {
      assert Chained(ks, hv[a], (pos + [t])[a]);
    }
  }

  /** Putting the next key into the first empty bucket of its probe keeps the table well placed. */
  lemma PlaceNext<K>(hv: seq<u32>, kv: seq<Slot<K>>, hs: seq<u32>, ks: seq<Slot<K>>, slots: seq<nat>, pos: seq<nat>, t: nat)
    requires Placed(hv, kv, hs, ks, slots, pos) && |slots| < |hv|
    requires kv[|slots|] != Empty
    requires Chained(ks, hv[|slots|], t) && ks[BucketAt(hv[|slots|], |ks|, t)] == Empty
    ensures var j := |slots|; var b := BucketAt(hv[j], |ks|, t);
      Placed(hv, kv, hs[b := hv[j]], ks[b := kv[j]], slots + [b], pos + [t])
  {
    hide Ordered;
    var j := |slots|;
    var b := BucketAt(hv[j], |ks|, t);
    assert b !in slots;
    AddContents(hv, kv, hs, ks, slots, b);
    forall a | 0 <= a < j && hv[a] == hv[j] ensures |pos| == j && pos[a] < t {
      SameHashIsEarlier(hv, kv, hs, ks, slots, pos, a, t);
    }
    AddOrdered(hv, ks, slots, pos, t, kv[j]);
  }

  lemma PlaceNextValue<K>(vv: seq<Slot<K>>, ks: seq<Slot<K>>, vs: seq<Slot<K>>, slots: seq<nat>, bucket: nat)
    requires ValuesPlaced(vv, vs, slots) && |slots| < |vv|
    requires bucket < |vs| == |ks| && bucket !in slots
    ensures ValuesPlaced(vv, vs[bucket := vv[|slots|]], slots + [bucket])
  {
    assert forall c :: c in slots ==> c in slots + [bucket];
    assert (slots + [bucket])[|slots|] == bucket;
  }

  /** A probe that stands at an empty bucket has already passed every key with its hash. */
  lemma SameHashIsEarlier<K>(hv: seq<u32>, kv: seq<Slot<K>>, hs: seq<u32>, ks: seq<Slot<K>>, slots: seq<nat>, pos: seq<nat>, a: nat, t: nat)
    requires Placed(hv, kv, hs, ks, slots, pos) && a < |slots|
    requires ks[BucketAt(hv[a], |ks|, t)] == Empty
    ensures |pos| == |slots| && pos[a] < t
  {
    assert Chained(ks, hv[a], pos[a]);
    assert ks[slots[a]] != Empty;
  }

  // ---- populating ----

  datatype Refusal = ValuesMismatch | EmptyKey | DirtyHash | DirtyKey | DirtyValue

  datatype PopulateResult = Populated | Refused(why: Refusal) | DuplicateKey | CompareFailed

  datatype Verdict = Different | Equal | Broken

  function Judge<K>(cmp: (K, K) -> Comparison, x: Slot<K>, y: Slot<K>): Verdict {
    match (x, y)
    case (Full(p), Full(q)) =>
      (match cmp(p, q) case Order(c) => if c == 0 then Equal else Different case CompareError => Broken)
    case _ => Different
  }

  /** The verdict on the pair of input keys a < b: keys of different hash are never compared. */
  function PairVerdict<K>(cmp: (K, K) -> Comparison, hv: seq<u32>, kv: seq<Slot<K>>, a: nat, b: nat): Verdict
    requires |hv| == |kv| && a < |hv| && b < |hv|
  {
    if hv[a] == hv[b] then Judge(cmp, kv[a], kv[b]) else Different
  }

  /** All pairs that come before (a, b), later key first, then earlier key, are different. */
  ghost predicate DifferentBefore<K>(cmp: (K, K) -> Comparison, hv: seq<u32>, kv: seq<Slot<K>>, a: nat, b: nat)
    requires |hv| == |kv| && b <= |hv|
  {
    && (forall x, y :: 0 <= x < y < b ==> PairVerdict(cmp, hv, kv, x, y) == Different)
    && (b < |hv| ==> forall x :: 0 <= x < a && x < b ==> PairVerdict(cmp, hv, kv, x, b) == Different)
  }

  ghost predicate AllDifferent<K>(cmp: (K, K) -> Comparison, hv: seq<u32>, kv: seq<Slot<K>>) {
    |hv| == |kv| && forall a, b :: 0 <= a < b < |hv| ==> PairVerdict(cmp, hv, kv, a, b) == Different
  }

  ghost predicate FirstBadPair<K>(cmp: (K, K) -> Comparison, hv: seq<u32>, kv: seq<Slot<K>>, v: Verdict) {
    |hv| == |kv| && v != Different &&
    exists a, b :: 0 <= a < b < |hv| && DifferentBefore(cmp, hv, kv, a, b) && PairVerdict(cmp, hv, kv, a, b) == v
  }

  lemma BadPairIsFirst<K>(cmp: (K, K) -> Comparison, hv: seq<u32>, kv: seq<Slot<K>>, j: nat, v: Verdict)
    requires v != Different && FirstBadFor(cmp, hv, kv, j, v)
    requires AllDifferent(cmp, hv[..j], kv[..j])
    ensures FirstBadPair(cmp, hv, kv, v)
    ensures !AllDifferent(cmp, hv, kv)
  {
    var a :| 0 <= a < j && PairVerdict(cmp, hv, kv, a, j) == v && forall x :: 0 <= x < a ==> PairVerdict(cmp, hv, kv, x, j) == Different;
    forall x, y | 0 <= x < y < j ensures PairVerdict(cmp, hv, kv, x, y) == Different {
      assert PairVerdict(cmp, hv[..j], kv[..j], x, y) == Different;
    }
    assert DifferentBefore(cmp, hv, kv, a, j);
  }

  lemma OneFirstBadPair<K>(cmp: (K, K) -> Comparison, hv: seq<u32>, kv: seq<Slot<K>>, v: Verdict, w: Verdict)
    requires FirstBadPair(cmp, hv, kv, v) && FirstBadPair(cmp, hv, kv, w)
    ensures v == w
  {
    var a, b :| 0 <= a < b < |hv| && DifferentBefore(cmp, hv, kv, a, b) && PairVerdict(cmp, hv, kv, a, b) == v;
    var c, d :| 0 <= c < d < |hv| && DifferentBefore(cmp, hv, kv, c, d) && PairVerdict(cmp, hv, kv, c, d) == w;
    assert b == d && a == c;
  }

  /** The bucket of a table that already holds a hash belongs to one of the keys placed so far. */
  lemma OwnerOf<K>(hv: seq<u32>, kv: seq<Slot<K>>, hs: seq<u32>, ks: seq<Slot<K>>, slots: seq<nat>, pos: seq<nat>, h: u32, t: nat) returns (a: nat)
    requires Placed(hv, kv, hs, ks, slots, pos)
    requires ks[BucketAt(h, |ks|, t)] != Empty && hs[BucketAt(h, |ks|, t)] == h
    ensures a < |slots| && slots[a] == BucketAt(h, |ks|, t) && hv[a] == h && pos[a] <= t
  {
    var b := BucketAt(h, |ks|, t);
    assert b in slots;
    a :| 0 <= a < |slots| && slots[a] == b;
  }

  /** Key j has been compared with, and is different from, every earlier key of its hash met in t probes. */
  ghost predicate ComparedUpTo<K>(cmp: (K, K) -> Comparison, hv: seq<u32>, kv: seq<Slot<K>>, pos: seq<nat>, j: nat, t: nat) {
    && |pos| == j < |hv| == |kv|
    && forall a :: 0 <= a < j && hv[a] == hv[j] && pos[a] < t ==> PairVerdict(cmp, hv, kv, a, j) == Different
  }

  ghost predicate FirstBadFor<K>(cmp: (K, K) -> Comparison, hv: seq<u32>, kv: seq<Slot<K>>, j: nat, v: Verdict) {
    && j < |hv| == |kv|
    && exists a :: 0 <= a < j && PairVerdict(cmp, hv, kv, a, j) == v && forall x :: 0 <= x < a ==> PairVerdict(cmp, hv, kv, x, j) == Different
  }

  /** One probe further, the comparison with the bucket's key is all that had to be done. */
  lemma ComparedAtBucket<K>(cmp: (K, K) -> Comparison, hv: seq<u32>, kv: seq<Slot<K>>,
                            hs: seq<u32>, ks: seq<Slot<K>>, slots: seq<nat>, pos: seq<nat>, j: nat, t: nat)
    requires Placed(hv, kv, hs, ks, slots, pos) && |slots| == j
    requires ComparedUpTo(cmp, hv, kv, pos, j, t)
    requires ks[BucketAt(hv[j], |ks|, t)] != Empty
    ensures var b := BucketAt(hv[j], |ks|, t); var v := if hs[b] == hv[j] then Judge(cmp, ks[b], kv[j]) else Different;
      if v == Different then ComparedUpTo(cmp, hv, kv, pos, j, t + 1) else FirstBadFor(cmp, hv, kv, j, v)
  {
    var b := BucketAt(hv[j], |ks|, t);
    if hs[b] == hv[j] {
      var a := OwnerOf(hv, kv, hs, ks, slots, pos, hv[j], t);
      assert PairVerdict(cmp, hv, kv, a, j) == Judge(cmp, ks[b], kv[j]);
    }
  }

  lemma ComparedWithAll<K>(cmp: (K, K) -> Comparison, hv: seq<u32>, kv: seq<Slot<K>>, hs: seq<u32>, ks: seq<Slot<K>>, slots: seq<nat>, pos: seq<nat>, j: nat, t: nat)
    requires Placed(hv, kv, hs, ks, slots, pos) && |slots| == j
    requires ComparedUpTo(cmp, hv, kv, pos, j, t)
    requires ks[BucketAt(hv[j], |ks|, t)] == Empty
    ensures forall a :: 0 <= a < j ==> PairVerdict(cmp, hv, kv, a, j) == Different
  {
    forall a | 0 <= a < j && hv[a] == hv[j] ensures pos[a] < t {
      SameHashIsEarlier(hv, kv, hs, ks, slots, pos, a, t);
    }
  }

  /**
    The search for a free bucket for key j: walk its probe sequence, comparing it with each key of the
    same hash, until an empty bucket or an offending pair turns up.
   */
  method FindFreeBucket<K>(cmp: (K, K) -> Comparison, hv: seq<u32>, kv: seq<Slot<K>>,
                           hs: array<u32>, ks: array<Slot<K>>, ghost slots: seq<nat>, ghost pos: seq<nat>, j: nat)
    returns (v: Verdict, bucket: nat, ghost t: nat)
    requires hs.Length == ks.Length && IsPowerOfTwo(ks.Length) && ks.Length <= MAX_BUCKETS
    requires Placed(hv, kv, hs[..], ks[..], slots, pos)
    requires |slots| == j < |kv| <= ks.Length && kv[j] != Empty
    ensures bucket < ks.Length
    ensures v == Different ==> bucket == BucketAt(hv[j], ks.Length, t) && ks[bucket] == Empty && Chained(ks[..], hv[j], t)
    ensures v == Different ==> forall a :: 0 <= a < j ==> PairVerdict(cmp, hv, kv, a, j) == Different
    ensures v != Different ==> FirstBadFor(cmp, hv, kv, j, v)
  {
    ghost var H, S := hs[..], ks[..];
    PlacedLeavesRoom(hv, kv, H, S, slots, pos);
    ghost var end := ProbeEndsAtEmpty(S, hv[j]);
    var hash := hv[j];
    var state := Start(hash);
    t := 0;
    while true
      invariant state == StateAt(hash, t) && t <= end && Chained(S, hash, t)
      invariant ComparedUpTo(cmp, hv, kv, pos, j, t)
      decreases end - t
    {
      bucket := state.Bucket(ks.Length);
      assert bucket == BucketAt(hash, ks.Length, t) && S[bucket] == ks[bucket] && H[bucket] == hs[bucket];
      if ks[bucket] == Empty {
        ComparedWithAll(cmp, hv, kv, H, S, slots, pos, j, t);
        v := Different;
        return;
      }
      ComparedAtBucket(cmp, hv, kv, H, S, slots, pos, j, t);
      if hs[bucket] == hash {
        v := Judge(cmp, ks[bucket], kv[j]);
        if v != Different {
          return;
        }
      }
      state := state.Step();
      t := t + 1;
    }
  }

  /** Nothing has been put into the bucket arrays yet. */
  ghost predicate Blank<K>(hs: seq<u32>, ks: seq<Slot<K>>, vs: seq<Slot<K>>) {
    && (forall b :: 0 <= b < |hs| ==> hs[b] == 0)
    && (forall b :: 0 <= b < |ks| ==> ks[b] == Empty)
    && (forall b :: 0 <= b < |vs| ==> vs[b] == Empty)
  }

  /** The array behind a pointer that may be null. */
  function Cells<K>(vs: array?<Slot<K>>): seq<Slot<K>>
    reads vs
  {
    if vs == null then [] else vs[..]
  }

  /** The arguments of populate that its own checks accept. */
  ghost predicate Acceptable<K>(kv: seq<Slot<K>>, noValues: bool, noValueCells: bool, hs: seq<u32>, ks: seq<Slot<K>>, vs: seq<Slot<K>>) {
    && (|kv| > 0 ==> noValues == noValueCells)
    && Empty !in kv
    && Blank(hs, ks, vs)
  }

  method CheckArguments<K>(kv: seq<Slot<K>>, noValues: bool, hs: array<u32>, ks: array<Slot<K>>, vs: array?<Slot<K>>)
    returns (r: Option<Refusal>)
    requires hs.Length == ks.Length && (vs != null ==> vs.Length == ks.Length)
    ensures r == None <==> Acceptable(kv, noValues, vs == null, hs[..], ks[..], Cells(vs))
    ensures r == Some(ValuesMismatch) <==> |kv| > 0 && noValues != (vs == null)
    ensures r == Some(EmptyKey) <==> (|kv| > 0 ==> noValues == (vs == null)) && Empty in kv
  {
    if |kv| > 0 && noValues != (vs == null) {
      return Some(ValuesMismatch);
    }
    for j := 0 to |kv|
      invariant Empty !in kv[..j]
    {
      if kv[j] == Empty {
        return Some(EmptyKey);
      }
    }
    assert kv[..|kv|] == kv;
    for b := 0 to ks.Length
      invariant forall c :: 0 <= c < b ==> hs[c] == 0 && ks[c] == Empty && (vs != null ==> vs[c] == Empty)
    {
      if hs[b] != 0 {
        assert hs[..][b] != 0;
        return Some(DirtyHash);
      }
      if ks[b] != Empty {
        assert ks[..][b] != Empty;
        return Some(DirtyKey);
      }
      if vs != null && vs[b] != Empty {
        assert vs[..][b] != Empty;
        return Some(DirtyValue);
      }
    }
    r := None;
  }

  /** Places key j and its value, or reports the first pair that keeps it out. */
  method PlaceKey<K>(cmp: (K, K) -> Comparison,
                     hv: seq<u32>, kv: seq<Slot<K>>, vv: Option<seq<Slot<K>>>,
                     hs: array<u32>, ks: array<Slot<K>>, vs: array?<Slot<K>>,
                     j: nat, ghost slots: seq<nat>, ghost pos: seq<nat>)
    returns (v: Verdict, ghost slots': seq<nat>, ghost pos': seq<nat>)
    requires hs.Length == ks.Length && IsPowerOfTwo(ks.Length) && ks.Length <= MAX_BUCKETS
    requires vs != null ==> vs.Length == ks.Length && vs != ks && vv.Some? && |vv.value| == |kv|
    requires Placed(hv, kv, hs[..], ks[..], slots, pos)
    requires vs != null ==> ValuesPlaced(vv.value, vs[..], slots)
    requires |slots| == j < |kv| < ks.Length && kv[j] != Empty
    modifies hs, ks, vs
    ensures v == Different ==> |slots'| == j + 1 && Placed(hv, kv, hs[..], ks[..], slots', pos')
    ensures v == Different && vs != null ==> ValuesPlaced(vv.value, vs[..], slots')
    ensures v == Different ==> forall a :: 0 <= a < j ==> PairVerdict(cmp, hv, kv, a, j) == Different
    ensures v != Different ==> FirstBadFor(cmp, hv, kv, j, v)
  {
    var bucket;
    ghost var t;
    v, bucket, t := FindFreeBucket(cmp, hv, kv, hs, ks, slots, pos, j);
    slots', pos' := slots + [bucket], pos + [t];
    if v != Different {
      return;
    }
    ghost var H, S, V := hs[..], ks[..], Cells(vs);
    PlaceNext(hv, kv, H, S, slots, pos, t);
    hs[bucket] := hv[j];
    ks[bucket] := kv[j];
    assert hs[..] == H[bucket := hv[j]] && ks[..] == S[bucket := kv[j]];
    if vs != null {
      PlaceNextValue(vv.value, S, V, slots, bucket);
      vs[bucket] := vv.value[j];
      assert vs[..] == V[bucket := vv.value[j]];
    }
  }

  lemma OneMoreDifferent<K>(cmp: (K, K) -> Comparison, hv: seq<u32>, kv: seq<Slot<K>>, j: nat)
    requires j < |hv| == |kv| && AllDifferent(cmp, hv[..j], kv[..j])
    requires forall a :: 0 <= a < j ==> PairVerdict(cmp, hv, kv, a, j) == Different
    ensures AllDifferent(cmp, hv[..j + 1], kv[..j + 1])
  {
    var hp, kp := hv[..j + 1], kv[..j + 1];
    forall a, b | 0 <= a < b < j + 1 ensures PairVerdict(cmp, hp, kp, a, b) == Different {
      if b == j {
        assert PairVerdict(cmp, hv, kv, a, j) == Different;
      } else {
        assert PairVerdict(cmp, hv[..j], kv[..j], a, b) == Different;
      }
    }
  }

  method PlaceAll<K>(cmp: (K, K) -> Comparison,
                     hv: seq<u32>, kv: seq<Slot<K>>, vv: Option<seq<Slot<K>>>,
                     hs: array<u32>, ks: array<Slot<K>>, vs: array?<Slot<K>>)
    returns (v: Verdict, ghost slots: seq<nat>, ghost pos: seq<nat>)
    requires hs.Length == ks.Length && IsPowerOfTwo(ks.Length) && ks.Length <= MAX_BUCKETS
    requires vs != null ==> vs.Length == ks.Length && vs != ks && vv.Some? && |vv.value| == |kv|
    requires |hv| == |kv| < ks.Length && Empty !in kv
    requires Blank(hs[..], ks[..], Cells(vs))
    modifies hs, ks, vs
    ensures v == Different <==> AllDifferent(cmp, hv, kv)
    ensures v != Different ==> FirstBadPair(cmp, hv, kv, v)
    ensures v == Different ==> |slots| == |kv| && Placed(hv, kv, hs[..], ks[..], slots, pos)
    ensures v == Different && vs != null ==> ValuesPlaced(vv.value, vs[..], slots)
  {
    slots, pos := [], [];
    BlankTable(hv, kv, hs[..], ks[..]);
    assert vs != null ==> ValuesPlaced(vv.value, vs[..], slots);
    hide Placed, ValuesPlaced, FirstBadFor, FirstBadPair, AllDifferent;
    for j := 0 to |kv|
      invariant |slots| == j
      invariant Placed(hv, kv, hs[..], ks[..], slots, pos)
      invariant vs != null ==> ValuesPlaced(vv.value, vs[..], slots)
      invariant AllDifferent(cmp, hv[..j], kv[..j])
    {
      v, slots, pos := PlaceKey(cmp, hv, kv, vv, hs, ks, vs, j, slots, pos);
      if v != Different {
        BadPairIsFirst(cmp, hv, kv, j, v);
        return;
      }
      OneMoreDifferent(cmp, hv, kv, j);
    }
    assert hv[..|kv|] == hv && kv[..|kv|] == kv;
    v := Different;
  }

  /**
    Fills the three bucket arrays with the given keys. Unless a check refuses the arguments, it succeeds
    exactly when no two keys share a hash and compare equal or fail to compare, and then leaves every
    key, hash and value at its place; otherwise the first offending pair decides the error.
   */
  method Populate<K>(cmp: (K, K) -> Comparison,
                     hv: seq<u32>, kv: seq<Slot<K>>, vv: Option<seq<Slot<K>>>,
                     hs: array<u32>, ks: array<Slot<K>>, vs: array?<Slot<K>>)
    returns (r: PopulateResult, ghost slots: seq<nat>, ghost pos: seq<nat>)
    requires |hv| == |kv| && (vv.Some? ==> |vv.value| == |kv|)
    requires hs.Length == ks.Length && IsPowerOfTwo(ks.Length) && ks.Length <= MAX_BUCKETS
    requires vs != null ==> vs.Length == ks.Length && vs != ks
    requires |kv| < ks.Length
    modifies hs, ks, vs
    ensures r.Refused? <==> !Acceptable(kv, vv.None?, vs == null, old(hs[..]), old(ks[..]), old(Cells(vs)))
    ensures !r.Refused? ==> (r == Populated <==> AllDifferent(cmp, hv, kv))
    ensures !r.Refused? ==> (r == DuplicateKey <==> FirstBadPair(cmp, hv, kv, Equal))
    ensures !r.Refused? ==> (r == CompareFailed <==> FirstBadPair(cmp, hv, kv, Broken))
    ensures r == Populated ==> |slots| == |kv| && Placed(hv, kv, hs[..], ks[..], slots, pos)
    ensures r == Populated && vs != null && vv.Some? ==> ValuesPlaced(vv.value, vs[..], slots)
  {
    slots, pos := [], [];
    var refusal := CheckArguments(kv, vv.None?, hs, ks, vs);
    if refusal.Some? {
      return Refused(refusal.value), slots, pos;
    }
    var v;
    v, slots, pos := PlaceAll(cmp, hv, kv, if |kv| == 0 then Some([]) else vv, hs, ks, vs);
    VerdictIsUnique(cmp, hv, kv, v);
    r := match v case Different => Populated case Equal => DuplicateKey case Broken => CompareFailed;
  }

  /** The verdict of placing all keys is the only one there is. */
  lemma VerdictIsUnique<K>(cmp: (K, K) -> Comparison, hv: seq<u32>, kv: seq<Slot<K>>, v: Verdict)
    requires if v == Different then AllDifferent(cmp, hv, kv) else FirstBadPair(cmp, hv, kv, v)
    ensures forall w :: FirstBadPair(cmp, hv, kv, w) ==> w == v
    ensures v != Different ==> !AllDifferent(cmp, hv, kv)
  {
    forall w | FirstBadPair(cmp, hv, kv, w) ensures w == v {
      if v != Different { OneFirstBadPair(cmp, hv, kv, v, w); }
    }
  }
}

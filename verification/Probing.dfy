/**
  The probe sequence of the open-addressing hash table, and the proof that it reaches every bucket.

  A probe starts at i = perturb = hash and repeats
    i := 5*i + perturb + 1   (mod 2^32)
    perturb := perturb >> 5
  looking at bucket i & (n_buckets - 1). Once perturb is 0 the recurrence is the linear congruential map
  x -> 5*x + 1, which has full period modulo every power of two. All loops of the hash table terminate
  because of that fact.
 */
module Probing {

  import opened PowersOfTwo

  /** The two registers of a probe in progress. */
  datatype ProbeState = ProbeState(i: u32, perturb: u32) {
    function Step(): ProbeState {
      ProbeState((5 * i + perturb + 1) % 0x1_0000_0000, perturb / 32)
    }

    /** `i & mask` for mask = n_buckets - 1 with n_buckets a power of two. */
    function Bucket(nBuckets: nat): (b: nat)
      requires nBuckets > 0
      ensures b < nBuckets
    {
      i % nBuckets
    }
  }

  function Start(hash: u32): ProbeState {
    ProbeState(hash, hash)
  }

  /** The state of the probe for `hash` after t steps. */
  function StateAt(hash: u32, t: nat): ProbeState {
    if t == 0 then Start(hash) else StateAt(hash, t - 1).Step()
  }

  /** The t-th bucket the probe for `hash` looks at, in a table of n buckets. */
  function BucketAt(hash: u32, n: nat, t: nat): (b: nat)
    requires n > 0
    ensures b < n
  {
    StateAt(hash, t).Bucket(n)
  }

  /** How many probes are enough to see every bucket: 7 shifts empty a 32-bit perturb, then one period. */
  function ProbeBound(n: nat): nat {
    7 + n
  }

  // ---- the linear congruential map, over the integers ----

  /** x -> 5*x + 1, applied m times. */
  function Iterate(m: nat, x: int): int {
    if m == 0 then x else 5 * Iterate(m - 1, x) + 1
  }

  /** The sum 1 + 5 + ... + 5^(m-1). */
  function GeometricSum(m: nat): nat {
    if m == 0 then 0 else 5 * GeometricSum(m - 1) + 1
  }

  lemma {:induction false} IterateCompose(a: nat, b: nat, x: int)
    ensures Iterate(a + b, x) == Iterate(a, Iterate(b, x))
  {
    if a > 0 { IterateCompose(a - 1, b, x); }
  }

  /** m steps move x by a multiple of the geometric sum, and the other factor is odd. */
  lemma {:induction false} IterateDisplacement(m: nat, x: int)
    ensures Iterate(m, x) == x + GeometricSum(m) * (4 * x + 1)
  {
    if m > 0 {
      IterateDisplacement(m - 1, x);
      var s := GeometricSum(m - 1);
      calc {
        Iterate(m, x);
        5 * (x + s * (4 * x + 1)) + 1;
        5 * x + 5 * (s * (4 * x + 1)) + 1;
        { assert 5 * (s * (4 * x + 1)) + (4 * x + 1) == (5 * s + 1) * (4 * x + 1); }
        x + (5 * s + 1) * (4 * x + 1);
      }
    }
  }

  /** The sum of 2^k terms is 2^k times an odd number. */
  lemma {:induction false} GeometricSumOfPow2(k: nat) returns (half: nat)
    ensures GeometricSum(Pow2(k)) == Pow2(k) * (2 * half + 1)
  {
    if k == 0 {
      half := 0;
      assert GeometricSum(1) == 5 * GeometricSum(0) + 1;
    } else {
      var h := GeometricSumOfPow2(k - 1);
      GeometricSumDoubles(Pow2(k - 1));
      half := OddTimesOdd(Pow2(k - 1), h);
    }
  }

  lemma SumIdentity(s: int)
    ensures s + s * (4 * s + 1) == 2 * s * (2 * s + 1)
  {
  }

  lemma GeometricSumDoubles(m: nat)
    ensures GeometricSum(m + m) == 2 * GeometricSum(m) * (2 * GeometricSum(m) + 1)
  {
    var s := GeometricSum(m);
    IterateCompose(m, m, 0);
    IterateDisplacement(m, 0);
    IterateDisplacement(m + m, 0);
    IterateDisplacement(m, s);
    hide Iterate, GeometricSum;
    SumIdentity(s);
  }

  lemma OddTimesOdd(p: nat, h: nat) returns (half: nat)
    ensures var s := p * (2 * h + 1); 2 * s * (2 * s + 1) == 2 * p * (2 * half + 1)
  {
    var s := p * (2 * h + 1);
    half := 2 * h * s + h + s;
    assert (2 * h + 1) * (2 * s + 1) == 2 * half + 1;
    calc {
      2 * s * (2 * s + 1);
      2 * p * ((2 * h + 1) * (2 * s + 1));
    }
  }

  /** 2^k steps add 2^k modulo 2^(k+1): every second half-period shifts the sequence by exactly half. */
  lemma HalfPeriodShift(k: nat, x: int) returns (c: int)
    ensures Iterate(Pow2(k), x) == x + Pow2(k) * (2 * c + 1)
  {
    var h := GeometricSumOfPow2(k);
    IterateDisplacement(Pow2(k), x);
    c := 4 * h * x + h + 2 * x;
    assert (2 * h + 1) * (4 * x + 1) == 2 * (4 * h * x) + 2 * h + 4 * x + 1 == 2 * c + 1;
    calc {
      GeometricSum(Pow2(k)) * (4 * x + 1);
      (Pow2(k) * (2 * h + 1)) * (4 * x + 1);
      Pow2(k) * ((2 * h + 1) * (4 * x + 1));
      Pow2(k) * (2 * c + 1);
    }
  }

  lemma AddOddMultiples(p: int, a: int, b: int, q: int)
    requires a + b == 2 * q
    ensures p * a + p * b == (2 * p) * q
  {
    assert p * a + p * b == p * (a + b);
  }

  /** Full period: from any x, every residue y modulo 2^k is reached within 2^k steps. */
  lemma {:induction false} FullPeriod(k: nat, x: int, y: int) returns (t: nat, q: int)
    ensures t < Pow2(k)
    ensures Iterate(t, x) == y + Pow2(k) * q
  {
    if k == 0 {
      t, q := 0, x - y;
    } else {
      var t0, q0 := FullPeriod(k - 1, x, y);
      t, q := NextBit(k - 1, x, y, t0, q0);
    }
  }

  /** A residue reached modulo 2^k is reached modulo 2^(k+1) either at the same step or half a period later. */
  lemma NextBit(k: nat, x: int, y: int, t0: nat, q0: int) returns (t: nat, q: int)
    requires t0 < Pow2(k) && Iterate(t0, x) == y + Pow2(k) * q0
    ensures t < Pow2(k + 1) && Iterate(t, x) == y + Pow2(k + 1) * q
  {
    var p := Pow2(k);
    assert Pow2(k + 1) == 2 * p;
    if q0 % 2 == 0 {
      t, q := t0, q0 / 2;
      AddOddMultiples(p, q0, 0, q);
    } else {
      var c := HalfPeriodShift(k, Iterate(t0, x));
      IterateCompose(p, t0, x);
      hide Iterate, Pow2;
      t, q := p + t0, (q0 + 2 * c + 1) / 2;
      AddOddMultiples(p, q0, 2 * c + 1, q);
    }
  }

  // ---- the machine's recurrence ----

  /** Seven shifts by 5 clear a 32-bit perturb, and it stays 0. */
  lemma {:induction false} PerturbDies(hash: u32, t: nat)
    ensures t == 1 ==> StateAt(hash, t).perturb < 0x800_0000
    ensures t == 2 ==> StateAt(hash, t).perturb < 0x40_0000
    ensures t == 3 ==> StateAt(hash, t).perturb < 0x2_0000
    ensures t == 4 ==> StateAt(hash, t).perturb < 0x1000
    ensures t == 5 ==> StateAt(hash, t).perturb < 0x80
    ensures t == 6 ==> StateAt(hash, t).perturb < 4
    ensures t >= 7 ==> StateAt(hash, t).perturb == 0
  {
    if t > 0 { PerturbDies(hash, t - 1); }
  }

  /** From step 7 on the 32-bit register is the integer iterate, truncated. */
  lemma {:induction false} StateIsIterate(hash: u32, t: nat) returns (q: int)
    ensures StateAt(hash, 7 + t).i == Iterate(t, StateAt(hash, 7).i) - TWO_32 * q
  {
    var x := StateAt(hash, 7).i;
    if t == 0 {
      q := 0;
    } else {
      var q0 := StateIsIterate(hash, t - 1);
      PerturbDies(hash, 7 + t - 1);
      var s := StateAt(hash, 7 + t - 1);
      var v := 5 * s.i + 1;
      assert StateAt(hash, 7 + t) == s.Step();
      assert StateAt(hash, 7 + t).i == v % TWO_32 == v - TWO_32 * (v / TWO_32);
      q := 5 * q0 + v / TWO_32;
    }
  }

  /**
    Coverage: for every 32-bit hash and every power-of-two bucket count, each bucket is among the
    first 7 + n probes.
   */
  lemma ProbesCoverAllBuckets(hash: u32, n: nat, bucket: nat) returns (t: nat)
    requires IsPowerOfTwo(n) && n <= TWO_32 && bucket < n
    ensures t < ProbeBound(n)
    ensures BucketAt(hash, n, t) == bucket
  {
    var k := PowerOfTwoExponent(n);
    var t0, q := FullPeriod(k, StateAt(hash, 7).i, bucket);
    var q32 := StateIsIterate(hash, t0);
    var m := BucketsDivideWord(k);
    t := 7 + t0;
    assert StateAt(hash, t).i == bucket + n * q - (n * m) * q32;
    Regroup(n, m, q, q32);
    ModOfMultiple(StateAt(hash, t).i, bucket, n, q - m * q32);
  }

  lemma BucketsDivideWord(k: nat) returns (m: nat)
    requires Pow2(k) <= TWO_32
    ensures Pow2(k) * m == TWO_32
  {
    Pow2_32();
    if k > 32 {
      Pow2Increases(32, k);
      assert false;
    }
    Pow2Add(k, 32 - k);
    m := Pow2(32 - k);
  }

  lemma Regroup(n: int, m: int, q: int, r: int)
    ensures n * q - (n * m) * r == n * (q - m * r)
  {
  }

  // ---- the probe sequence in closed form ----

  function Pow5(t: nat): nat {
    if t == 0 then 1 else 5 * Pow5(t - 1)
  }

  function Product(a: nat, b: nat): nat {
    a * b
  }

  function Quotient(a: nat, b: nat): nat
    requires b > 0
  {
    a / b
  }

  /** The hash shifted right by five bits, s times. */
  function ShiftedRight(hash: u32, s: nat): nat {
    Quotient(hash, Pow2(5 * s))
  }

  /** What the first n steps of t add: step s adds the shifted hash and one, five times over for every later step. */
  function Added(hash: u32, t: nat, n: nat): nat
    requires n <= t
  {
    if n == 0 then 0 else Added(hash, t, n - 1) + Product(Pow5(t - n), ShiftedRight(hash, n - 1) + 1)
  }

  /** The perturbation after t steps is the hash shifted right by 5 * t. */
  lemma {:induction false} PerturbIsShifted(hash: u32, t: nat)
    ensures StateAt(hash, t).perturb == ShiftedRight(hash, t)
  {
    if t == 0 {
      assert Pow2(0) == 1;
    } else {
      PerturbIsShifted(hash, t - 1);
      Pow2Add(5 * (t - 1), 5);
      assert Pow2(5) == 32;
      DivideTwice(hash, Pow2(5 * (t - 1)), 32);
    }
  }

  lemma FiveProducts(a: nat, b: nat)
    ensures Product(5 * a, b) == 5 * Product(a, b)
  {
  }

  /** One more step multiplies all that was added before by five. */
  lemma {:induction false} AddedLater(hash: u32, t: nat, n: nat)
    requires n <= t
    ensures Added(hash, t + 1, n) == 5 * Added(hash, t, n)
  {
    hide Product, ShiftedRight;
    if n > 0 {
      AddedLater(hash, t, n - 1);
      FiveProducts(Pow5(t - n), ShiftedRight(hash, n - 1) + 1);
    }
  }

  lemma OneTime(a: nat)
    ensures Product(1, a) == a
  {
  }

  lemma AddedStep(hash: u32, t: nat)
    ensures Added(hash, t + 1, t + 1) == 5 * Added(hash, t, t) + ShiftedRight(hash, t) + 1
  {
    hide Product, ShiftedRight;
    AddedLater(hash, t, t);
    OneTime(ShiftedRight(hash, t) + 1);
  }

  lemma StepModulo(x: nat, p: nat)
    ensures (5 * (x % TWO_32) + p + 1) % TWO_32 == (5 * x + p + 1) % TWO_32
  {
    var q, r := x / TWO_32, x % TWO_32;
    ModOfMultiple(5 * x + p + 1, (5 * r + p + 1) % TWO_32, TWO_32, 5 * q + (5 * r + p + 1) / TWO_32);
  }

  /** After t steps, i is 5^t times the hash and what was added, modulo 2^32. */
  lemma {:induction false} StateInClosedForm(hash: u32, t: nat)
    ensures StateAt(hash, t).i == (Product(Pow5(t), hash) + Added(hash, t, t)) % TWO_32
  {
    hide Product, ShiftedRight, Added;
    if t == 0 {
      OneTime(hash);
      NothingAdded(hash);
    } else {
      StateInClosedForm(hash, t - 1);
      PerturbIsShifted(hash, t - 1);
      AddedStep(hash, t - 1);
      FiveProducts(Pow5(t - 1), hash);
      StepModulo(Product(Pow5(t - 1), hash) + Added(hash, t - 1, t - 1), ShiftedRight(hash, t - 1));
    }
  }

  lemma NothingAdded(hash: u32)
    ensures Added(hash, 0, 0) == 0
  {
  }

  lemma ModOfDivisor(x: nat, n: nat, m: nat, w: nat)
    requires n > 0 && w > 0 && n * m == w
    ensures x % w % n == x % n
  {
    var q, r := x / w, x % w;
    var q', r' := r / n, r % n;
    assert x == w * q + r && r == n * q' + r';
    assert w * q == n * (m * q);
    assert n * (m * q + q') == n * (m * q) + n * q';
    ModOfMultiple(x, r', n, m * q + q');
  }

  /** The bucket of step t in a table of n buckets, from the hash alone. */
  lemma BucketInClosedForm(hash: u32, n: nat, t: nat)
    requires IsPowerOfTwo(n) && n <= TWO_32
    ensures BucketAt(hash, n, t) == (Product(Pow5(t), hash) + Added(hash, t, t)) % n
  {
    hide Product, Added;
    var k := PowerOfTwoExponent(n);
    var m := BucketsDivideWord(k);
    StateInClosedForm(hash, t);
    ModOfDivisor(Product(Pow5(t), hash) + Added(hash, t, t), n, m, TWO_32);
  }

  /** The first three buckets, written out. */
  lemma FirstBuckets(hash: u32, n: nat)
    requires IsPowerOfTwo(n) && n <= TWO_32
    ensures BucketAt(hash, n, 0) == hash % n
    ensures BucketAt(hash, n, 1) == (6 * hash + 1) % n
    ensures BucketAt(hash, n, 2) == (30 * hash + hash / 32 + 6) % n
  {
    hide Added, BucketAt, IsPowerOfTwo, Product, Pow5, ShiftedRight;
    BucketInClosedForm(hash, n, 0);
    BucketInClosedForm(hash, n, 1);
    BucketInClosedForm(hash, n, 2);
    NothingAdded(hash);
    AddedStep(hash, 0);
    AddedStep(hash, 1);
    FirstPowers(hash);
  }

  lemma FirstPowers(hash: u32)
    ensures Product(Pow5(0), hash) == hash && Product(Pow5(1), hash) == 5 * hash && Product(Pow5(2), hash) == 25 * hash
    ensures ShiftedRight(hash, 0) == hash && ShiftedRight(hash, 1) == hash / 32
  {
    assert Pow5(0) == 1 && Pow5(1) == 5 && Pow5(2) == 25 && Pow2(0) == 1 && Pow2(5) == 32;
  }
}

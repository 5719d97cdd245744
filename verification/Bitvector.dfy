/**
  Bitvectors: five inline encodings and a raw heap buffer, the choice between them, and the hashes over all
  of them. A 32-bit data word is read as little-endian bit fields.
 */
module Bitvector {
  import opened PowersOfTwo

  type byte = x: int | 0 <= x < 256 witness 0

  const BITVECTOR: u32 := 11
  const BITVECTOR_0: u32 := 12
  const BITVECTOR_1: u32 := 13
  const BITVECTOR_01: u32 := 14
  const BITVECTOR_10: u32 := 15
  const BITVECTOR_PACKED: u32 := 16

  // ---- bits of a word ----

  predicate Bit(x: nat, k: nat) {
    if k == 0 then x % 2 == 1 else Bit(x / 2, k - 1)
  }

  /** `x |= 1 << k` */
  function SetBit(x: nat, k: nat): nat {
    if k == 0 then (if x % 2 == 0 then x + 1 else x) else 2 * SetBit(x / 2, k - 1) + x % 2
  }

  lemma {:induction false} SetBitSets(x: nat, k: nat, j: nat)
    ensures Bit(SetBit(x, k), j) <==> j == k || Bit(x, j)
  {
    if k > 0 && j > 0 {
      SetBitSets(x / 2, k - 1, j - 1);
      assert SetBit(x, k) / 2 == SetBit(x / 2, k - 1);
    } else if k == 0 {
      assert SetBit(x, 0) / 2 == x / 2;
    }
  }

  lemma {:induction false} SetBitFits(x: nat, k: nat, m: nat)
    requires x < Pow2(m) && k < m
    ensures SetBit(x, k) < Pow2(m)
  {
    if k > 0 {
      SetBitFits(x / 2, k - 1, m - 1);
    }
  }

  /** The number made of the m lowest bits. */
  function LowBits(x: nat, m: nat): nat {
    if m == 0 then 0 else x % 2 + 2 * LowBits(x / 2, m - 1)
  }

  lemma {:induction false} SetBitKeepsLower(x: nat, k: nat, m: nat)
    requires m <= k
    ensures LowBits(SetBit(x, k), m) == LowBits(x, m)
  {
    if m > 0 {
      SetBitKeepsLower(x / 2, k - 1, m - 1);
      assert SetBit(x, k) / 2 == SetBit(x / 2, k - 1) && SetBit(x, k) % 2 == x % 2;
    }
  }

  lemma {:induction false} LowBitsIsMod(x: nat, m: nat)
    ensures LowBits(x, m) == x % Pow2(m)
  {
    if m > 0 {
      LowBitsIsMod(x / 2, m - 1);
      HalveMod(x, Pow2(m - 1));
    }
  }

  lemma HalveMod(x: nat, p: nat)
    requires p > 0
    ensures x % (2 * p) == x % 2 + 2 * (x / 2 % p)
  {
    var y := x / 2;
    var q, r := y / p, y % p;
    assert y == p * q + r;
    assert 2 * (p * q) == (2 * p) * q;
    ModOfMultiple(x, x % 2 + 2 * r, 2 * p, q);
  }

  /** Setting a bit from position 5 on leaves the low five bits, as a number, alone. */
  lemma SetHighBit(x: nat, k: nat)
    requires k >= 5
    ensures SetBit(x, k) % 32 == x % 32
  {
    SetBitKeepsLower(x, k, 5);
    LowBitsIsMod(x, 5);
    LowBitsIsMod(SetBit(x, k), 5);
    assert Pow2(5) == 32;
  }

  /** Bit i of a packed bitvector stands above the five length bits. */
  predicate PackedBit(data: nat, i: nat) {
    Bit(data, i + 5)
  }

  /** A number below 32 has no bit from position 5 on. */
  lemma LowNumberHasNoHighBit(n: nat, k: nat)
    requires n < 32
    ensures !PackedBit(n, k)
  {
    ZeroHasNoBit(k);
    assert Bit(n, k + 5) == Bit(n / 2, k + 4) == Bit(n / 2 / 2, k + 3) == Bit(n / 2 / 2 / 2, k + 2)
           == Bit(n / 2 / 2 / 2 / 2, k + 1) == Bit(n / 2 / 2 / 2 / 2 / 2, k);
  }

  lemma {:induction false} ZeroHasNoBit(k: nat)
    ensures !Bit(0, k)
  {
    if k > 0 { ZeroHasNoBit(k - 1); }
  }

  // ---- raw bits ----

  function CeilDiv8(n: nat): nat {
    if n % 8 == 0 then n / 8 else n / 8 + 1
  }

  /** `bm_is_set_` */
  predicate BitAt(bytes: seq<byte>, i: nat)
    requires i < 8 * |bytes|
  {
    Bit(bytes[i / 8], i % 8)
  }

  function RawBits(bytes: seq<byte>, n: nat): (r: seq<bool>)
    requires n <= 8 * |bytes|
    ensures |r| == n && forall i :: 0 <= i < n ==> r[i] == BitAt(bytes, i)
  {
    seq(n, i requires 0 <= i < n => BitAt(bytes, i))
  }

  // ---- the encodings ----

  predicate IsBitvectorType(typ: u32) {
    BITVECTOR <= typ <= BITVECTOR_PACKED
  }

  /** The length of a bitvector value; `n` is the length stored in the heap buffer of a raw one. */
  function NBits(typ: u32, data: u32, n: nat): nat
    requires IsBitvectorType(typ)
  {
    if typ == BITVECTOR then n
    else if typ == BITVECTOR_0 || typ == BITVECTOR_1 then data
    else if typ == BITVECTOR_01 || typ == BITVECTOR_10 then data % 0x1_0000 + data / 0x1_0000
    else data % 32
  }

  predicate IsSet(typ: u32, data: u32, bytes: seq<byte>, i: nat)
    requires IsBitvectorType(typ) && (typ == BITVECTOR ==> i < 8 * |bytes|)
  {
    if typ == BITVECTOR then BitAt(bytes, i)
    else if typ == BITVECTOR_0 then false
    else if typ == BITVECTOR_1 then true
    else if typ == BITVECTOR_01 then data % 0x1_0000 <= i
    else if typ == BITVECTOR_10 then i < data % 0x1_0000
    else PackedBit(data, i)
  }

  /** The bits that a bitvector value stands for. */
  function Decode(typ: u32, data: u32, n: nat, bytes: seq<byte>): (r: seq<bool>)
    requires IsBitvectorType(typ) && (typ == BITVECTOR ==> n <= 8 * |bytes|)
  {
    seq(NBits(typ, data, n), i requires 0 <= i < NBits(typ, data, n) => IsSet(typ, data, bytes, i))
  }

  ghost predicate All(bits: seq<bool>, v: bool) {
    forall i :: 0 <= i < |bits| ==> bits[i] == v
  }

  /** a times u, then only !u. */
  ghost predicate Step(bits: seq<bool>, a: nat, u: bool) {
    a <= |bits| && forall i :: 0 <= i < |bits| ==> bits[i] == (if i < a then u else !u)
  }

  method IsAll(bytes: seq<byte>, n: nat, v: bool) returns (r: bool)
    requires n <= 8 * |bytes|
    ensures r <==> All(RawBits(bytes, n), v)
  {
    for i := 0 to n
      invariant forall k :: 0 <= k < i ==> BitAt(bytes, k) == v
    {
      if BitAt(bytes, i) != v {
        assert RawBits(bytes, n)[i] != v;
        return false;
      }
    }
    r := true;
  }

  /** Is it a run of u followed by a run of !u? Counts both. */
  method IsStep(bytes: seq<byte>, n: nat, u: bool) returns (r: bool, nFirst: nat, nSecond: nat)
    requires n <= 8 * |bytes|
    ensures r ==> Step(RawBits(bytes, n), nFirst, u) && nFirst + nSecond == n
    ensures !r ==> forall a: nat :: !Step(RawBits(bytes, n), a, u)
  {
    nFirst, nSecond := 0, 0;
    for i := 0 to n
      invariant nFirst + nSecond == i
      invariant forall k :: 0 <= k < i ==> BitAt(bytes, k) == (if k < nFirst then u else !u)
    {
      if BitAt(bytes, i) != u {
        nSecond := nSecond + 1;
      } else {
        if nSecond > 0 {
          assert RawBits(bytes, n)[nFirst] != u && RawBits(bytes, n)[i] == u;
          return false, nFirst, nSecond;
        }
        nFirst := nFirst + 1;
      }
    }
    r := true;
  }

  lemma PackBit(data: u32, i: nat, d: nat)
    requires i <= 26 && d == SetBit(data, i + 5)
    ensures d < TWO_32 && d % 32 == data % 32
    ensures forall j: nat :: PackedBit(d, j) <==> j == i || PackedBit(data, j)
  {
    SetHighBit(data, i + 5);
    Pow2_32();
    SetBitFits(data, i + 5, 32);
    hide Bit, SetBit, Pow2, PackedBit;
    forall j: nat ensures PackedBit(d, j) <==> j == i || PackedBit(data, j) {
      PackOneBit(data, i, j);
    }
  }

  lemma PackOneBit(data: u32, i: nat, j: nat)
    ensures PackedBit(SetBit(data, i + 5), j) <==> j == i || PackedBit(data, j)
  {
    SetBitSets(data, i + 5, j + 5);
  }

  /** Packs at most 27 bits above the five length bits. */
  method Pack(bytes: seq<byte>, n: nat) returns (data: u32)
    requires n <= 27 && n <= 8 * |bytes|
    ensures Decode(BITVECTOR_PACKED, data, 0, []) == RawBits(bytes, n)
  {
    data := n;
    forall j: nat ensures !PackedBit(n, j) { LowNumberHasNoHighBit(n, j); }
    hide PackedBit, SetBit, BitAt;
    for i := 0 to n
      invariant data % 32 == n
      invariant forall j: nat :: PackedBit(data, j) <==> j < i && BitAt(bytes, j)
    {
      if BitAt(bytes, i) {
        var d := SetBit(data, i + 5);
        PackBit(data, i, d);
        data := d;
      }
    }
  }

  /** The encoding that bits are held in: equal bits, few bits, a step of two short enough runs, and all others raw. */
  ghost predicate EncodedAs(bits: seq<bool>, typ: u32) {
    && IsBitvectorType(typ)
    && (typ == BITVECTOR_0 <==> All(bits, false))
    && (typ == BITVECTOR_1 <==> bits != [] && All(bits, true))
    && (typ == BITVECTOR_PACKED <==> |bits| <= 27 && !All(bits, false) && !All(bits, true))
    && (typ == BITVECTOR <==> |bits| > 27 && !All(bits, false) && !All(bits, true)
                              && forall a: nat, u :: Step(bits, a, u) ==> a > 0xFFFF || |bits| - a > 0xFFFF)
  }

  /** The choice of encoding. With type BITVECTOR the bits go to the heap and data is the caller's to choose. */
  method Encode(bytes: seq<byte>, n: u32) returns (typ: u32, data: u32)
    requires n <= 8 * |bytes|
    ensures IsBitvectorType(typ) && Decode(typ, data, n, bytes) == RawBits(bytes, n)
    ensures EncodedAs(RawBits(bytes, n), typ)
  {
    ghost var bits := RawBits(bytes, n);
    data := 0;
    var all0 := IsAll(bytes, n, false);
    if all0 {
      assert n > 0 ==> !bits[0];
      return BITVECTOR_0, n;
    }
    var all1 := IsAll(bytes, n, true);
    if all1 {
      assert n > 0;
      return BITVECTOR_1, n;
    }
    if n <= 27 {
      data := Pack(bytes, n);
      return BITVECTOR_PACKED, data;
    }
    typ, data := EncodeLong(bytes, n);
  }

  /** More than 27 bits, not all equal: a step of two short enough runs, or raw. */
  method EncodeLong(bytes: seq<byte>, n: u32) returns (typ: u32, data: u32)
    requires n <= 8 * |bytes| && !All(RawBits(bytes, n), false) && !All(RawBits(bytes, n), true)
    ensures typ in {BITVECTOR, BITVECTOR_01, BITVECTOR_10}
    ensures Decode(typ, data, n, bytes) == RawBits(bytes, n)
    ensures typ == BITVECTOR <==> forall a: nat, u :: Step(RawBits(bytes, n), a, u) ==> a > 0xFFFF || n - a > 0xFFFF
  {
    ghost var bits := RawBits(bytes, n);
    typ, data := BITVECTOR, 0;
    var is01, n0, n1 := IsStep(bytes, n, false);
    if is01 {
      StepIsUnique(bits, n0, false);
      if n0 <= 0xFFFF && n1 <= 0xFFFF {
        typ, data := BITVECTOR_01, n0 + 0x1_0000 * n1;
      }
      return;
    }
    var is10;
    is10, n1, n0 := IsStep(bytes, n, true);
    if is10 {
      StepIsUnique(bits, n1, true);
      if n1 <= 0xFFFF && n0 <= 0xFFFF {
        typ, data := BITVECTOR_10, n1 + 0x1_0000 * n0;
      }
    }
  }

  /** Bits that are not all equal are a step in at most one way. */
  lemma StepIsUnique(bits: seq<bool>, a: nat, u: bool)
    requires Step(bits, a, u) && !All(bits, u) && !All(bits, !u)
    ensures forall b: nat, v :: Step(bits, b, v) ==> b == a && v == u
  {
    forall b: nat, v | Step(bits, b, v) ensures b == a && v == u {
      TwoSteps(bits, a, u, b, v);
    }
  }

  lemma TwoSteps(bits: seq<bool>, a: nat, u: bool, b: nat, v: bool)
    requires Step(bits, a, u) && Step(bits, b, v) && !All(bits, u) && !All(bits, !u)
    ensures b == a && v == u
  {
    assert 0 < a < |bits| && 0 < b < |bits|;
    var x, y := bits[0], bits[if a < b then a else b];
  }

  // ---- hashes ----

  const HASH_BITVECTOR_SEED: nat := 1000000001

  /** The bits from i on, at most eight, as a number. */
  function Octet(bits: seq<bool>, i: nat, j: nat): nat
    requires i <= |bits|
    decreases |bits| - i
  {
    if j == 8 || j > 8 || i == |bits| then 0
    else (if bits[i] then Pow2(j) else 0) + Octet(bits, i + 1, j + 1)
  }

  /** The hash as a function of the bits alone; `word` is 2^32 or 2^64. */
  function HashFrom(bits: seq<bool>, i: nat, h: nat, word: nat): nat
    requires i <= |bits| && word > 0
    decreases |bits| - i
  {
    if i == |bits| then h
    else HashFrom(bits, if i + 8 <= |bits| then i + 8 else |bits|, (h * HASH_BITVECTOR_SEED + Octet(bits, i, 0)) % word, word)
  }

  /** Both hash functions: the same loop over any encoding, in 32-bit or 64-bit arithmetic. */
  method HashBits(typ: u32, data: u32, n: nat, bytes: seq<byte>, word: nat) returns (h: nat)
    requires IsBitvectorType(typ) && (typ == BITVECTOR ==> n <= 8 * |bytes|)
    requires word > 1
    ensures h == HashFrom(Decode(typ, data, n, bytes), 0, 1, word)
  {
    var nBits := NBits(typ, data, n);
    ghost var bits := Decode(typ, data, n, bytes);
    var i := 0;
    h := 1;
    while i < nBits
      invariant 0 <= i <= nBits
      invariant HashFrom(bits, i, h, word) == HashFrom(bits, 0, 1, word)
    {
      var b, j := 0, 0;
      ghost var i0 := i;
      while j < 8 && i < nBits
        invariant 0 <= j <= 8 && i == i0 + j && i <= nBits
        invariant b + Octet(bits, i, j) == Octet(bits, i0, 0)
      {
        if IsSet(typ, data, bytes, i) {
          b := b + Pow2(j);
        }
        j := j + 1;
        i := i + 1;
      }
      h := (h * HASH_BITVECTOR_SEED + b) % word;
    }
  }

  /**
    The hash does not depend on the encoding: with the encoding chosen for them, bits hash like the raw bits, in 32-bit
    and in 64-bit arithmetic.
   */
  method HashEncoded(bytes: seq<byte>, n: u32) returns (h32: nat, h64: nat)
    requires n <= 8 * |bytes|
    ensures h32 == HashFrom(RawBits(bytes, n), 0, 1, 0x1_0000_0000)
    ensures h64 == HashFrom(RawBits(bytes, n), 0, 1, 0x1_0000_0000_0000_0000)
  {
    var typ, data := Encode(bytes, n);
    h32 := HashBits(typ, data, n, bytes, 0x1_0000_0000);
    h64 := HashBits(typ, data, n, bytes, 0x1_0000_0000_0000_0000);
  }
}

/** Byte strings: little-endian words, concatenations and where their parts start, padding. */
module Bytes {
  import opened PowersOfTwo
  import opened Bitvector

  type bytes = seq<byte>

  // ---- little-endian words ----

  /** The n low bytes of x, lowest first. */
  function LittleEndian(n: nat, x: nat): (r: bytes)
    ensures |r| == n
  {
    if n == 0 then [] else [x % 256] + LittleEndian(n - 1, x / 256)
  }

  function FromLittleEndian(b: bytes): nat {
    if b == [] then 0 else b[0] + 256 * FromLittleEndian(b[1..])
  }

  /** 256^n */
  function WordRange(n: nat): (r: nat)
    ensures r > 0
  {
    if n == 0 then 1 else 256 * WordRange(n - 1)
  }

  lemma {:induction false} WordRoundTrip(n: nat, x: nat)
    requires x < WordRange(n)
    ensures FromLittleEndian(LittleEndian(n, x)) == x
  {
    if n > 0 {
      WordRoundTrip(n - 1, x / 256);
      assert LittleEndian(n, x)[1..] == LittleEndian(n - 1, x / 256);
    }
  }

  lemma WordRanges()
    ensures WordRange(1) == 0x100 && WordRange(2) == 0x1_0000
    ensures WordRange(4) == 0x1_0000_0000 && WordRange(8) == 0x1_0000_0000_0000_0000
  {
    assert WordRange(3) == 0x100_0000;
    assert WordRange(5) == 0x100_0000_0000 && WordRange(6) == 0x1_0000_0000_0000;
  }

  /** A two's complement number as an unsigned word of the given range, and back. */
  function Wrap(range: nat, x: int): (r: nat)
    requires range > 0
    ensures r < range
  {
    x % range
  }

  function Unwrap(range: nat, signed: bool, y: nat): int {
    if signed && y >= range / 2 then y - range else y
  }

  lemma WrapRoundTrip(range: nat, signed: bool, x: int)
    requires range > 0 && range % 2 == 0
    requires if signed then -(range / 2) <= x < range / 2 else 0 <= x < range
    ensures Unwrap(range, signed, Wrap(range, x)) == x
  {
    if x < 0 {
      ModOfMultiple(x, x + range, range, -1);
    } else {
      ModOfMultiple(x, x, range, 0);
    }
  }

  // ---- concatenation ----

  function Join(parts: seq<bytes>): bytes {
    if parts == [] then [] else Join(parts[..|parts| - 1]) + parts[|parts| - 1]
  }

  /** Where part k starts. */
  function StartOf(parts: seq<bytes>, k: nat): nat
    requires k <= |parts|
  {
    |Join(parts[..k])|
  }

  lemma StartStep(parts: seq<bytes>, k: nat)
    requires k < |parts|
    ensures StartOf(parts, k + 1) == StartOf(parts, k) + |parts[k]|
    ensures Join(parts[..k + 1]) == Join(parts[..k]) + parts[k]
  {
    assert parts[..k + 1][..k] == parts[..k];
  }

  lemma {:induction false} JoinPrefix(parts: seq<bytes>, k: nat)
    requires k <= |parts|
    ensures Join(parts[..k]) <= Join(parts)
    decreases |parts| - k
  {
    if k < |parts| {
      StartStep(parts, k);
      JoinPrefix(parts, k + 1);
    } else {
      assert parts[..k] == parts;
    }
  }

  /** Part k of a concatenation, in place. */
  lemma JoinAt(parts: seq<bytes>, k: nat)
    requires k < |parts|
    ensures StartOf(parts, k) + |parts[k]| <= |Join(parts)|
    ensures Join(parts)[StartOf(parts, k)..StartOf(parts, k) + |parts[k]|] == parts[k]
  {
    StartStep(parts, k);
    JoinPrefix(parts, k + 1);
    var all, front := Join(parts), Join(parts[..k]);
    assert all[..|front + parts[k]|] == front + parts[k];
    assert all[|front|..|front| + |parts[k]|] == all[..|front + parts[k]|][|front|..];
  }

  lemma {:induction false} JoinAppend(xs: seq<bytes>, ys: seq<bytes>)
    ensures Join(xs + ys) == Join(xs) + Join(ys)
    decreases |ys|
  {
    if ys == [] {
      assert xs + ys == xs;
    } else {
      var n := |ys| - 1;
      JoinAppend(xs, ys[..n]);
      assert (xs + ys)[..|xs + ys| - 1] == xs + ys[..n];
    }
  }

  /** Parts of one width start at multiples of it. */
  lemma {:induction false} EvenParts(parts: seq<bytes>, w: nat, k: nat)
    requires k <= |parts| && forall i :: 0 <= i < |parts| ==> |parts[i]| == w
    ensures StartOf(parts, k) == w * k
  {
    if k > 0 {
      EvenParts(parts, w, k - 1);
      StartStep(parts, k - 1);
    } else {
      assert parts[..0] == [];
    }
  }

  lemma EvenJoin(parts: seq<bytes>, w: nat)
    requires forall i :: 0 <= i < |parts| ==> |parts[i]| == w
    ensures |Join(parts)| == w * |parts|
    ensures forall k :: 0 <= k < |parts| ==> 0 <= w * k && w * k + w <= w * |parts|
    ensures forall k :: 0 <= k < |parts| ==> Join(parts)[w * k..w * k + w] == parts[k]
  {
    EvenParts(parts, w, |parts|);
    assert parts[..|parts|] == parts;
    forall k | 0 <= k < |parts|
      ensures 0 <= w * k && w * k + w <= w * |parts| && Join(parts)[w * k..w * k + w] == parts[k]
    {
      EvenParts(parts, w, k);
      JoinAt(parts, k);
    }
  }

  // ---- padding ----

  function AlignNext4(n: nat): (r: nat)
    ensures r % 4 == 0 && n <= r < n + 4
  {
    if n % 4 == 0 then n else n + 4 - n % 4
  }

  /** b with zero bytes up to a multiple of 4. */
  function Pad(b: bytes): (r: bytes)
    ensures |r| == AlignNext4(|b|) && b <= r
  {
    b + seq(AlignNext4(|b|) - |b|, _ => 0)
  }

  // ---- reading ----

  predicate Within(b: bytes, at: nat, n: nat) {
    at + n <= |b|
  }

  function Word(b: bytes, at: nat, n: nat): nat
    requires Within(b, at, n)
  {
    FromLittleEndian(b[at..at + n])
  }

  /** A word read from the place it was written to. */
  lemma WordAt(b: bytes, at: nat, n: nat, x: nat)
    requires Within(b, at, n) && x < WordRange(n) && b[at..at + n] == LittleEndian(n, x)
    ensures Word(b, at, n) == x
  {
    WordRoundTrip(n, x);
  }

  lemma {:induction false} WordFits(b: bytes)
    ensures FromLittleEndian(b) < WordRange(|b|)
  {
    if b != [] { WordFits(b[1..]); }
  }

  lemma WordInRange(buf: bytes, at: nat, n: nat)
    requires Within(buf, at, n)
    ensures Word(buf, at, n) < WordRange(n)
  {
    WordFits(buf[at..at + n]);
  }

  /** A slice of a slice. */
  lemma SliceOfSlice(b: bytes, at: nat, part: bytes, i: nat, n: nat)
    requires Within(b, at, |part|) && b[at..at + |part|] == part && i + n <= |part|
    ensures Within(b, at + i, n) && b[at + i..at + i + n] == part[i..i + n]
  {
    var x, y := b[at + i..at + i + n], part[i..i + n];
    forall k | 0 <= k < n ensures x[k] == y[k] {
      assert b[at..at + |part|][i + k] == part[i + k];
    }
    assert x == y;
  }
}

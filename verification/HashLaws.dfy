/**
  The hashes of strings, vectors and bits by laws about numbers: what they are for nothing and for one item, and what
  one more item makes of them. Exclusive or is settled bit by bit.
 */
module HashLaws {
  import opened Wrappers
  import opened PowersOfTwo
  import opened Bitvector
  import opened Unfolding
  import opened Values
  import opened ValueHash

  // ---- exclusive or ----

  lemma XorParts(a: nat, b: nat, k: nat)
    requires k > 0
    ensures XorBits(a, b, k) % 2 == (a + b) % 2 && XorBits(a, b, k) / 2 == XorBits(a / 2, b / 2, k - 1)
  {
  }

  lemma {:induction false} XorBitAt(a: nat, b: nat, k: nat, i: nat)
    requires i < k
    ensures Bit(XorBits(a, b, k), i) <==> Bit(a, i) != Bit(b, i)
  {
    hide XorBits;
    XorParts(a, b, k);
    if i > 0 {
      XorBitAt(a / 2, b / 2, k - 1, i - 1);
    }
  }

  /** Bit i of an exclusive or is set exactly when the bits differ. */
  lemma XorIsBitwise(a: u32, b: u32, i: nat)
    requires i < 32
    ensures Bit(Xor(a, b), i) <==> Bit(a, i) != Bit(b, i)
  {
    XorBitAt(a, b, 32, i);
  }

  lemma ParityTwice(a: nat, b: nat, x: nat, y: nat)
    requires x % 2 == (a + b) % 2 && y % 2 == (x + b) % 2
    ensures y % 2 == a % 2
  {
  }

  lemma Halves(a: nat, b: nat)
    requires a % 2 == b % 2 && a / 2 == b / 2
    ensures a == b
  {
  }

  lemma HalfFits(a: nat, k: nat)
    requires k > 0 && a < Pow2(k)
    ensures a / 2 < Pow2(k - 1)
  {
  }

  lemma {:induction false} XorBitsTwice(a: nat, b: nat, k: nat)
    requires a < Pow2(k)
    ensures XorBits(XorBits(a, b, k), b, k) == a
  {
    if k == 0 {
      assert Pow2(0) == 1;
    } else {
      hide XorBits, Pow2;
      var x := XorBits(a, b, k);
      var y := XorBits(x, b, k);
      XorParts(a, b, k);
      XorParts(x, b, k);
      HalfFits(a, k);
      XorBitsTwice(a / 2, b / 2, k - 1);
      ParityTwice(a, b, x, y);
      Halves(y, a);
    }
  }

  /** What was mixed in by exclusive or is taken out by it. */
  lemma XorTwice(a: u32, b: u32)
    ensures Xor(Xor(a, b), b) == a
  {
    Pow2_32();
    XorBitsTwice(a, b, 32);
  }

  /** Numbers without a common bit: those of a begin where b ends. */
  lemma {:induction false} XorBitsApart(a: nat, b: nat, k: nat, m: nat)
    requires a % Pow2(m) == 0 && b < Pow2(m) && m <= k && a < Pow2(k)
    ensures XorBits(a, b, k) == a + b
    decreases k
  {
    if k == 0 {
      assert Pow2(0) == 1;
    } else {
      hide XorBits, Pow2;
      XorParts(a, b, k);
      HalfFits(a, k);
      HalvesApart(a, b, m);
      XorBitsApart(a / 2, b / 2, k - 1, if m > 0 then m - 1 else 0);
      Halves(XorBits(a, b, k), a + b);
    }
  }

  lemma HalvesApart(a: nat, b: nat, m: nat)
    requires a % Pow2(m) == 0 && b < Pow2(m)
    ensures (a + b) / 2 == a / 2 + b / 2
    ensures var n := if m > 0 then m - 1 else 0; a / 2 % Pow2(n) == 0 && b / 2 < Pow2(n)
  {
    if m == 0 {
      assert Pow2(0) == 1;
      Remainder1(a / 2);
    } else {
      HalfOfMultiple(a, Pow2(m - 1));
    }
  }

  lemma Remainder1(a: nat)
    ensures a % 1 == 0
  {
  }

  lemma HalfOfMultiple(a: nat, p: nat)
    requires p > 0 && a % (2 * p) == 0
    ensures a % 2 == 0 && a / 2 % p == 0
  {
    var q := a / (2 * p);
    assert a == (2 * p) * q == 2 * (p * q);
    ModOfMultiple(a / 2, 0, p, q);
  }

  // ---- strings ----

  /** The empty string has hash zero. */
  lemma EmptyStringHash()
    ensures StringHash([]) == 0
  {
    Pow2_32();
    assert Pow2(0) == 1;
    XorBitsApart(0, 0, 32, 0);
  }

  lemma OneCharHash(c: u32)
    ensures StringHash([c]) == Xor(Xor((1000003 * ((128 * c) % 0x1_0000_0000)) % 0x1_0000_0000, c), 1)
  {
    hide Xor;
    assert CharsFrom(Mul32(c, 128), [c]) == CharsFrom(Xor(Mul32(1000003, Mul32(c, 128)), c), []);
  }

  lemma {:induction false} OneMoreChar(x: u32, s: seq<u32>, c: u32)
    ensures CharsFrom(x, s + [c]) == Xor(Mul32(1000003, CharsFrom(x, s)), c)
    decreases |s|
  {
    hide Xor, Mul32;
    if s == [] {
      assert CharsFrom(x, [c]) == CharsFrom(Xor(Mul32(1000003, x), c), []);
    } else {
      assert (s + [c])[1..] == s[1..] + [c];
      OneMoreChar(Xor(Mul32(1000003, x), s[0]), s[1..], c);
    }
  }

  /** Appending a character: take out the length, multiply, mix in the character and the new length. */
  lemma AppendedCharHash(s: seq<u32>, c: u32)
    requires s != []
    ensures Xor(StringHash(s + [c]), (|s| + 1) % WORD) == Xor((1000003 * Xor(StringHash(s), |s| % WORD)) % 0x1_0000_0000, c)
  {
    hide Xor, CharsFrom;
    var x := Mul32(s[0], 128);
    OneMoreChar(x, s, c);
    XorTwice(CharsFrom(x, s), |s| % WORD);
    XorTwice(CharsFrom(x, s + [c]), (|s| + 1) % WORD);
  }

  /** The hash of "a". */
  lemma HashOfA()
    ensures StringHash([97]) == 3826102752
  {
    hide *;
    FirstXor();
    SecondXor();
    OneCharHashIs(97, 3826102656);
  }

  lemma OneCharHashIs(c: u32, p: u32)
    requires p == (1000003 * ((128 * c) % 0x1_0000_0000)) % 0x1_0000_0000
    ensures StringHash([c]) == Xor(Xor(p, c), 1)
  {
    OneCharHash(c);
  }

  lemma FirstXor()
    ensures Xor(3826102656, 97) == 3826102753
  {
    Pow2_32();
    assert Pow2(7) == 128;
    hide XorBits, Pow2;
    XorBitsApart(3826102656, 97, 32, 7);
  }

  lemma SecondXor()
    ensures Xor(3826102753, 1) == 3826102752
  {
    Pow2_32();
    assert Pow2(1) == 2;
    hide XorBits, Pow2;
    XorBitsApart(3826102752, 1, 32, 1);
    XorTwice(3826102752, 1);
  }

  // ---- vectors ----

  /** The hash of a vector whose items have these hashes. */
  function VectorHash(hs: seq<u32>): u32 {
    VectorFrom(StartVector(|hs|), hs).End()
  }

  /** The hash of a vector of n items after some of them, before the last addition. */
  function Unfinished(n: nat, hs: seq<u32>): u32 {
    VectorFrom(StartVector(n), hs).x
  }

  /** Nothing hashed yet; and the last step. */
  lemma VectorHashEnds(n: nat, hs: seq<u32>)
    ensures Unfinished(n, []) == 0x345678
    ensures VectorHash(hs) == (Unfinished(|hs|, hs) + 97531) % 0x1_0000_0000
  {
  }

  lemma {:induction false} Multiplier(n: nat, hs: seq<u32>)
    ensures VectorFrom(StartVector(n), hs).mult == (1000003 + |hs| * (82520 + 2 * (n % WORD))) % WORD
    ensures VectorFrom(StartVector(n), hs).len == n % WORD
  {
    hide Mul32, Xor;
    if hs != [] {
      var m := |hs| - 1;
      Multiplier(n, hs[..m]);
      var step := 82520 + 2 * (n % WORD);
      assert |hs| * step == m * step + step;
      AddModulo(1000003 + m * step, step);
    }
  }

  lemma AddModulo(a: nat, b: nat)
    ensures (a % WORD + b) % WORD == (a + b) % WORD
  {
    var q, r := a / WORD, a % WORD;
    ModOfMultiple(a + b, (r + b) % WORD, WORD, q + (r + b) / WORD);
  }

  /** One more item: mix it in, and multiply by a number that depends on its place and on the length of the vector. */
  lemma AppendedItemHash(n: nat, hs: seq<u32>, h: u32)
    ensures Unfinished(n, hs + [h]) ==
      (Xor(Unfinished(n, hs), h) * ((1000003 + |hs| * (82520 + 2 * (n % WORD))) % 0x1_0000_0000)) % 0x1_0000_0000
  {
    hide Xor;
    Multiplier(n, hs);
    OneMoreHash(StartVector(n), hs, h);
  }

  /** The hashes of the empty vector and of vectors of one item. */
  lemma ShortVectorHashes(h: u32)
    ensures VectorHash([]) == 3527539
    ensures VectorHash([h]) == ((Xor(0x345678, h) * 1000003) % 0x1_0000_0000 + 97531) % 0x1_0000_0000
  {
    hide Xor;
    VectorHashEnds(0, []);
    VectorHashEnds(1, [h]);
    AppendedItemHash(1, [], h);
    assert [] + [h] == [h];
  }

  // ---- bits ----

  lemma {:induction false} SetBitAdds(x: nat, k: nat)
    requires !Bit(x, k)
    ensures SetBit(x, k) == x + Pow2(k)
  {
    if k > 0 {
      SetBitAdds(x / 2, k - 1);
    }
  }

  lemma EightPowers()
    ensures Pow2(0) == 1 && Pow2(1) == 2 && Pow2(2) == 4 && Pow2(3) == 8 && Pow2(4) == 16 && Pow2(5) == 32 && Pow2(6) == 64 && Pow2(7) == 128 && Pow2(8) == 256
  {
  }

  /** The octet that starts at bit i, from place j on: place b holds bit i + b - j, if there is one; the first bit is the lowest. */
  lemma {:induction false} OctetBits(bits: seq<bool>, i: nat, j: nat)
    requires i <= |bits| && j <= 8
    ensures Octet(bits, i, j) + Pow2(j) <= 256
    ensures forall b: nat :: Bit(Octet(bits, i, j), b) <==> j <= b < 8 && i + (b - j) < |bits| && bits[i + (b - j)]
    decreases 8 - j
  {
    EightPowers();
    hide Bit, Pow2, SetBit;
    if j == 8 || i == |bits| {
      forall b: nat ensures !Bit(0, b) { ZeroHasNoBit(b); }
    } else {
      var rest := Octet(bits, i + 1, j + 1);
      OctetBits(bits, i + 1, j + 1);
      if bits[i] {
        SetBitAdds(rest, j);
        forall b: nat
          ensures Bit(Octet(bits, i, j), b) <==> b == j || Bit(rest, b)
        {
          SetBitSets(rest, j, b);
        }
      }
    }
  }

  /** The hash of bits: 32-bit or 64-bit, by the number of values of a word. */
  function BitsHash(bits: seq<bool>, word: nat): nat
    requires word > 1
  {
    HashFrom(bits, 0, 1, word)
  }

  lemma {:induction false} OctetIgnoresRest(bits: seq<bool>, more: seq<bool>, i: nat, j: nat)
    requires j <= 8 && i + (8 - j) <= |bits|
    ensures Octet(bits + more, i, j) == Octet(bits, i, j)
    decreases 8 - j
  {
    if j < 8 { OctetIgnoresRest(bits, more, i + 1, j + 1); }
  }

  lemma {:induction false} OctetOfRest(bits: seq<bool>, more: seq<bool>, i: nat, j: nat)
    requires i <= |more|
    ensures Octet(bits + more, |bits| + i, j) == Octet(more, i, j)
    decreases |more| - i
  {
    if j < 8 && i < |more| { OctetOfRest(bits, more, i + 1, j + 1); }
  }

  lemma {:induction false} OneMoreOctet(bits: seq<bool>, octet: seq<bool>, i: nat, h: nat, word: nat)
    requires word > 1 && i <= |bits| && (|bits| - i) % 8 == 0 && 0 < |octet| <= 8
    ensures HashFrom(bits + octet, i, h, word) == (HashFrom(bits, i, h, word) * 1000000001 + Octet(octet, 0, 0)) % word
    decreases |bits| - i
  {
    hide Octet, HashFrom;
    var all := bits + octet;
    HashStep(all, i, h, word);
    if i == |bits| {
      OctetOfRest(bits, octet, 0, 0);
      HashEnd(bits, h, word);
      HashEnd(all, (h * HASH_BITVECTOR_SEED + Octet(all, i, 0)) % word, word);
    } else {
      FullOctet(|bits| - i);
      OctetIgnoresRest(bits, octet, i, 0);
      HashStep(bits, i, h, word);
      OneMoreOctet(bits, octet, i + 8, (h * HASH_BITVECTOR_SEED + Octet(bits, i, 0)) % word, word);
    }
  }

  lemma FullOctet(n: nat)
    requires n > 0 && n % 8 == 0
    ensures n >= 8 && (n - 8) % 8 == 0
  {
  }

  lemma HashStep(bits: seq<bool>, i: nat, h: nat, word: nat)
    requires word > 1 && i < |bits|
    ensures HashFrom(bits, i, h, word)
      == HashFrom(bits, if i + 8 <= |bits| then i + 8 else |bits|, (h * HASH_BITVECTOR_SEED + Octet(bits, i, 0)) % word, word)
  {
  }

  lemma HashEnd(bits: seq<bool>, h: nat, word: nat)
    requires word > 1
    ensures HashFrom(bits, |bits|, h, word) == h
  {
  }

  /** No bits; and bits after full octets: eight more, or the last ones. */
  lemma BitsHashLaws(bits: seq<bool>, octet: seq<bool>, word: nat)
    requires word > 1 && |bits| % 8 == 0 && 0 < |octet| <= 8
    ensures BitsHash([], word) == 1
    ensures BitsHash(bits + octet, word) == (BitsHash(bits, word) * 1000000001 + Octet(octet, 0, 0)) % word
    ensures Octet(octet, 0, 0) < 256 && forall b: nat :: Bit(Octet(octet, 0, 0), b) <==> b < |octet| && octet[b]
  {
    OneMoreOctet(bits, octet, 0, 1, word);
    EightPowers();
    OctetBits(octet, 0, 0);
    hide Octet, HashFrom;
  }

  // ---- leaves ----

  /** Integers hash to themselves in 32 bits, so do truth values; null and the empty slot to zero. */
  lemma LeafHashes(fh: FloatHash, v: int, chars: seq<u32>, bits: seq<bool>)
    ensures 0 <= v < 0x1_0000_0000 ==> LeafHash(fh, TInt(v)) == Some(v)
    ensures -0x8000_0000 <= v < 0 ==> LeafHash(fh, TInt(v)) == Some(0x1_0000_0000 + v)
    ensures v == 0 || v == 1 ==> LeafHash(fh, TBool(v)) == Some(v)
    ensures LeafHash(fh, TNull) == Some(0) && LeafHash(fh, TEmptySlot) == Some(0)
    ensures LeafHash(fh, TText(Ascii(chars))) == LeafHash(fh, TText(Ucs4(chars))) == Some(StringHash(chars))
    ensures BitsHash(bits, 0x1_0000_0000) < 0x1_0000_0000 ==> LeafHash(fh, TBits(bits)) == Some(BitsHash(bits, 0x1_0000_0000))
  {
    hide HashFrom, StringHash;
  }

  /** The hash of a number held in its data word is the data word. */
  lemma NumberHash(s: State, fh: FloatHash, h: int, d: nat)
    requires IsHandle(s, h) && (s.values[h].typ == I32 || s.values[h].typ == U32)
    ensures CreateNodeHash(s, fh, Ref(h), d) == Some(s.values[h].data)
  {
  }
}

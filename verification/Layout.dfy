/**
  The layout of a written buffer in plain numbers: which byte of a word, which bit of a data word and which word of
  the buffer is which, and one small file in full.
 */
module Layout {
  import opened Wrappers
  import opened PowersOfTwo
  import opened Bitvector
  import opened Unfolding
  import opened Values
  import opened CreateState
  import opened Bytes
  import opened Heap
  import opened Reader
  import opened ReadBack

  // ---- bytes of words ----

  /** The lowest byte of a word comes first. */
  lemma {:induction false} ByteOfWord(n: nat, x: nat, i: nat)
    requires i < n
    ensures LittleEndian(n, x)[i] == x / Pow2(8 * i) % 256
  {
    if i == 0 {
      assert Pow2(0) == 1;
    } else {
      ByteOfWord(n - 1, x / 256, i - 1);
      Pow2Add(8, 8 * (i - 1));
      EightBits();
      DivideTwice(x, 256, Pow2(8 * (i - 1)));
    }
  }

  lemma EightBits()
    ensures Pow2(8) == 256
  {
    assert Pow2(4) == 16;
  }

  /** Negative numbers are written in two's complement, and all that fit are. */
  lemma TwosComplement(t: u32, x: int)
    requires IsNumberVector(t) && Fits(t, x)
    ensures Wrap(Range(t), x) == if x < 0 then Range(t) + x else x
  {
    if x < 0 {
      ModOfMultiple(x, x + Range(t), Range(t), -1);
    } else {
      ModOfMultiple(x, x, Range(t), 0);
    }
  }

  /** Padding is at most three zero bytes. */
  lemma PaddingIsZero(b: bytes, i: nat)
    requires |b| <= i < |Pad(b)|
    ensures Pad(b)[i] == 0 && |Pad(b)| % 4 == 0 && |Pad(b)| < |b| + 4
  {
  }

  // ---- bits of data words ----

  lemma {:induction false} BitIsQuotient(x: nat, k: nat)
    ensures Bit(x, k) <==> x / Pow2(k) % 2 == 1
  {
    if k > 0 {
      BitIsQuotient(x / 2, k - 1);
      DivideTwice(x, 2, Pow2(k - 1));
    }
  }

  /** A packed bitvector: the length in the low five bits, the bits above it. */
  lemma PackedLayout(data: u32, i: nat)
    requires i < data % 32
    ensures |Decode(BITVECTOR_PACKED, data, 0, [])| == data % 32
    ensures Decode(BITVECTOR_PACKED, data, 0, [])[i] <==> data / Pow2(5 + i) % 2 == 1
  {
    BitIsQuotient(data, i + 5);
    assert i + 5 == 5 + i;
    hide Bit;
  }

  function Run(n: nat, v: bool): (r: seq<bool>)
    ensures |r| == n && forall i :: 0 <= i < n ==> r[i] == v
  {
    seq(n, _ => v)
  }

  /** Equal bits are kept as their number; a step as the length of the first run in the low half-word, of the second in the high one. */
  lemma RunLayouts(first: nat, second: nat)
    requires first < 0x1_0000 && second < 0x1_0000
    ensures Decode(BITVECTOR_0, first, 0, []) == Run(first, false) && Decode(BITVECTOR_1, first, 0, []) == Run(first, true)
    ensures Decode(BITVECTOR_01, first + 0x1_0000 * second, 0, []) == Run(first, false) + Run(second, true)
    ensures Decode(BITVECTOR_10, first + 0x1_0000 * second, 0, []) == Run(first, true) + Run(second, false)
  {
    var data := first + 0x1_0000 * second;
    assert data % 0x1_0000 == first && data / 0x1_0000 == second;
  }

  /** Bit i of a raw bitvector is bit i % 8, from the lowest, of byte i / 8. */
  lemma RawLayout(bytes: seq<byte>, n: nat, i: nat)
    requires i < n <= 8 * |bytes|
    ensures RawBits(bytes, n)[i] <==> bytes[i / 8] / Pow2(i % 8) % 2 == 1
  {
    BitIsQuotient(bytes[i / 8], i % 8);
    hide Bit;
  }

  // ---- words of the buffer ----

  /** The words of the header, and where the offsets of the objects and the objects themselves begin. */
  lemma HeaderLayout(t: State, root: int)
    requires Good(t) && IsHandle(t, root)
    ensures var buf := Serialized(t, root);
      && |buf| >= 32
      && Word(buf, 0, 4) == t.values[root].typ && Word(buf, 4, 4) == ToRead(t, root).data
      && Word(buf, 8, 4) == |t.texts| && Word(buf, 12, 4) == |t.priv| + |t.outside| && Word(buf, 16, 4) == |t.bitvectors|
      && Word(buf, 20, 4) == |t.sets| && Word(buf, 24, 4) == |t.maps| && Word(buf, 28, 4) == 2
  {
    hide Good, HeapObjects, Join, Starts, ToRead;
    WordsFit(t, root);
    SerializedIs(t, root);
    TypeRead(t, root);
    FieldsRead(HeaderWords(t, root), HeapObjects(t));
    FieldsArePlaces(Serialized(t, root));
    hide Serialized, Word, Field, Buffer;
  }

  lemma TypeRead(t: State, h: int)
    requires IsHandle(t, h)
    ensures ToRead(t, h).typ == t.values[h].typ
  {
  }

  lemma FieldsArePlaces(buf: bytes)
    requires |buf| >= HEADER_SIZE
    ensures Field(buf, 0) == Word(buf, 0, 4) && Field(buf, 1) == Word(buf, 4, 4) && Field(buf, 2) == Word(buf, 8, 4) && Field(buf, 3) == Word(buf, 12, 4)
    ensures Field(buf, 4) == Word(buf, 16, 4) && Field(buf, 5) == Word(buf, 20, 4) && Field(buf, 6) == Word(buf, 24, 4) && Field(buf, 7) == Word(buf, 28, 4)
  {
    hide Word;
  }

  /** A written buffer opens with its version, and would with version 1, but with no other. */
  lemma VersionsThatOpen(header: seq<nat>, parts: seq<bytes>)
    requires |header| == 8 && (forall i :: 0 <= i < 8 ==> header[i] < 0x1_0000_0000)
    requires header[2] + header[3] + header[4] + header[5] + header[6] == |parts|
    ensures Opens(Buffer(header, parts)) <==> header[7] == 1 || header[7] == 2
  {
    FieldsRead(header, parts);
    FrontLengths(header, parts);
    hide Buffer, Field, Join, Words, Starts;
  }

  // ---- a small file ----

  /** A string "a", the number 7, and a vector of the two. */
  const SMALL: State := State(
    [CValue(STRING, false, false, false, 0), CValue(U32, false, false, false, 7), CValue(VECTOR_VALUE_HASHABLE, false, false, false, 0)],
    [[0, 1]], [], [], [], [Ascii([97])], [])

  lemma SmallWord(n: nat, x: nat)
    requires x < 256
    ensures n == 4 ==> LittleEndian(n, x) == [x, 0, 0, 0]
    ensures n == 8 ==> LittleEndian(n, x) == [x, 0, 0, 0, 0, 0, 0, 0]
    ensures n == 1 ==> LittleEndian(n, x) == [x]
  {
    assert x / 256 == 0 && x % 256 == x;
    ZeroBytes(n);
  }

  lemma ZeroBytes(n: nat)
    ensures n == 4 ==> LittleEndian(n - 1, 0) == [0, 0, 0]
    ensures n == 8 ==> LittleEndian(n - 1, 0) == [0, 0, 0, 0, 0, 0, 0]
  {
    assert LittleEndian(3, 0) == [0, 0, 0];
    assert LittleEndian(7, 0) == [0, 0, 0, 0] + LittleEndian(3, 0);
  }

  lemma SmallRanks(k: Kind)
    ensures Rank(SMALL.values, k, 0) == 0
    ensures Rank(SMALL.values, k, 2) == (if k == TextBuffer || k == InWord then 1 else 0)
    ensures Total(SMALL.values, k) == if k == TextBuffer || k == InWord || k == PrivateVector then 1 else 0
  {
    var vs := SMALL.values;
    assert KindOf(vs[0]) == TextBuffer && KindOf(vs[1]) == InWord && KindOf(vs[2]) == PrivateVector;
    hide KindOf;
    assert Rank(vs, k, 1) == if k == TextBuffer then 1 else 0;
  }

  lemma SmallIsGood()
    ensures Good(SMALL)
  {
    forall k ensures Rank(SMALL.values, k, 0) == 0 && Rank(SMALL.values, k, 2) == (if k == TextBuffer || k == InWord then 1 else 0)
        && Total(SMALL.values, k) == if k == TextBuffer || k == InWord || k == PrivateVector then 1 else 0 {
      SmallRanks(k);
    }
    hide Rank, Total;
    assert GoodValue(SMALL, 0);
    assert GoodValue(SMALL, 1);
    assert GoodValue(SMALL, 2);
  }

  lemma TwoParts(a: bytes, b: bytes)
    ensures Join([a, b]) == a + b && Join([a]) == a && Starts([a, b]) == [0, |a|]
  {
    assert [a, b][..1] == [a] && [a][..0] == [] && [a, b][..0] == [];
    assert Join([]) == [];
    assert Join([a]) == Join([]) + a;
  }

  lemma SmallText()
    ensures Pad(TextBytes(Ascii([97]))) == Low(1) + [97, 0, 0, 0]
  {
    SmallWord(4, 1);
    SmallWord(1, 97);
    SmallWord(1, 0);
    var x := Ascii([97]);
    assert CharBytes(x) == [[97]];
    TwoParts([97], []);
    assert TextBytes(x) == [1, 0, 0, 0, 97, 0];
    hide TextBytes;
  }

  /** A 32-bit word of one low byte. */
  function Low(x: byte): bytes {
    [x, 0, 0, 0]
  }

  lemma SmallVector()
    requires Good(SMALL)
    ensures Pad(VectorBytes(SMALL, SMALL.values[2])) == Low(2) + (Low(29) + Low(0) + (Low(21) + Low(7)))
  {
    hide Good;
    var v := SMALL.values[2];
    assert ItemsOf(SMALL, v) == [0, 1];
    assert ToRead(SMALL, 0) == RValue(29, 0) && ToRead(SMALL, 1) == RValue(21, 7);
    LowIsWord(2);
    SmallItem(29, 0);
    SmallItem(21, 7);
    hide ItemsOf, ToRead, LittleEndian, Low;
    var first, second := Low(29) + Low(0), Low(21) + Low(7);
    assert ItemBytes(SMALL, v, 0) == first && ItemBytes(SMALL, v, 1) == second;
    hide ItemBytes;
    assert ItemsBytes(SMALL, v) == [first, second];
    TwoParts(first, second);
    hide Join;
    assert VectorBytes(SMALL, v) == Low(2) + (first + second);
    Padded(Low(2) + (first + second));
  }

  lemma SmallItem(t: byte, data: byte)
    ensures ValueBytes(RValue(t, data)) == Low(t) + Low(data)
  {
    LowIsWord(t);
    LowIsWord(data);
  }

  lemma Padded(b: bytes)
    requires |b| % 4 == 0
    ensures Pad(b) == b
  {
  }

  lemma OneMorePart(parts: seq<bytes>, p: bytes)
    ensures Join(parts + [p]) == Join(parts) + p
  {
    assert (parts + [p])[..|parts|] == parts;
  }

  lemma FourParts(a: bytes, b: bytes, c: bytes, d: bytes)
    ensures Join([a, b, c, d]) == a + b + c + d
  {
    TwoParts(a, b);
    OneMorePart([a, b], c);
    assert [a, b] + [c] == [a, b, c];
    OneMorePart([a, b, c], d);
    assert [a, b, c] + [d] == [a, b, c, d];
    hide Join;
  }

  lemma FourWords(a: byte, b: byte, c: byte, d: byte)
    ensures Join(Words(4, [a, b, c, d])) == Low(a) + Low(b) + Low(c) + Low(d)
  {
    SmallWord(4, a);
    SmallWord(4, b);
    SmallWord(4, c);
    SmallWord(4, d);
    hide LittleEndian, Join, Low;
    assert Low(a) == LittleEndian(4, a) && Low(b) == LittleEndian(4, b) by { LowIsWord(a); LowIsWord(b); }
    assert Low(c) == LittleEndian(4, c) && Low(d) == LittleEndian(4, d) by { LowIsWord(c); LowIsWord(d); }
    FourParts(Low(a), Low(b), Low(c), Low(d));
    assert Words(4, [a, b, c, d]) == [Low(a), Low(b), Low(c), Low(d)];
  }

  lemma LowIsWord(x: byte)
    ensures Low(x) == LittleEndian(4, x)
  {
    SmallWord(4, x);
  }

  lemma SmallHeaderBytes()
    ensures Join(Words(4, [1, 0, 1, 1, 0, 0, 0, 2])) == Low(1) + Low(0) + Low(1) + Low(1) + (Low(0) + Low(0) + Low(0) + Low(2))
  {
    FourWords(1, 0, 1, 1);
    FourWords(0, 0, 0, 2);
    hide Join, LittleEndian, Low;
    JoinAppend(Words(4, [1, 0, 1, 1]), Words(4, [0, 0, 0, 2]));
    assert Words(4, [1, 0, 1, 1, 0, 0, 0, 2]) == Words(4, [1, 0, 1, 1]) + Words(4, [0, 0, 0, 2]);
  }

  /** The file that holds this state, with the vector as its root: 76 bytes, shown in 32-bit words. */
  lemma SmallFile()
    ensures Good(SMALL) && Serialized(SMALL, 2)
      == Low(1) + Low(0) + Low(1) + Low(1) + (Low(0) + Low(0) + Low(0) + Low(2))
       + (Low(0) + Low(0) + (Low(8) + Low(0)))
       + (Low(1) + [97, 0, 0, 0] + (Low(2) + (Low(29) + Low(0) + (Low(21) + Low(7)))))
  {
    SmallIsGood();
    SmallHeap();
    SmallOffsets();
    SmallHeaderBytes();
    assert HeaderWords(SMALL, 2) == [1, 0, 1, 1, 0, 0, 0, 2];
    hide Good, HeapObjects, Join, Words, Starts, Low;
    TwoParts(Low(1) + [97, 0, 0, 0], Low(2) + (Low(29) + Low(0) + (Low(21) + Low(7))));
  }

  lemma SmallHeap()
    requires Good(SMALL)
    ensures HeapObjects(SMALL) == [Low(1) + [97, 0, 0, 0], Low(2) + (Low(29) + Low(0) + (Low(21) + Low(7)))]
  {
    hide *;
    FirstSmallPart();
    SecondSmallPart();
    SmallText();
    SmallVector();
  }

  lemma FirstSmallPart()
    requires Good(SMALL)
    ensures |HeapObjects(SMALL)| == 2 && HeapObjects(SMALL)[0] == Pad(TextBytes(Ascii([97])))
  {
    HeapObjectCount(SMALL);
    ObjectIndex(SMALL, 0);
    hide Good, HeapObjects, TextBytes, Pad;
  }

  lemma SecondSmallPart()
    requires Good(SMALL)
    ensures |HeapObjects(SMALL)| == 2 && IsHeapVector(SMALL.values[2].typ) && HeapObjects(SMALL)[1] == Pad(VectorBytes(SMALL, SMALL.values[2]))
  {
    HeapObjectCount(SMALL);
    ObjectIndex(SMALL, 2);
    hide Good, HeapObjects, VectorBytes, Pad;
  }

  lemma SmallOffsets()
    ensures Join(Words(8, [0, 8])) == Low(0) + Low(0) + (Low(8) + Low(0))
  {
    SmallOffset(0);
    SmallOffset(8);
    hide LittleEndian, Low;
    TwoParts(LittleEndian(8, 0), LittleEndian(8, 8));
    hide Join;
    assert Words(8, [0, 8]) == [LittleEndian(8, 0), LittleEndian(8, 8)];
  }

  lemma SmallOffset(x: byte)
    ensures LittleEndian(8, x) == Low(x) + Low(0)
  {
    SmallWord(8, x);
  }
}

/**
  A sound buffer that names one vector with two types: no single copy can serve both.
 */
module MixedTypes {
  import opened Wrappers
  import opened PowersOfTwo
  import opened Bitvector
  import opened Unfolding
  import opened Values
  import opened Bytes
  import opened Heap
  import opened Reader
  import opened ReadBack
  import opened Copying
  import opened CopyMeaning

  const ROOT := RValue(VECTOR_VALUE, 0)
  const UNSIGNED := RValue(VECTOR_U8, 1)
  const SIGNED := RValue(VECTOR_I8, 1)

  const HEADER: seq<nat> := [0, 0, 0, 2, 0, 0, 0, 2]

  /** The root holds vector 1 twice: once as unsigned bytes, once as signed bytes. Vector 1 is the byte 255. */
  function RootItems(): seq<bytes> {
    [ValueBytes(UNSIGNED), ValueBytes(SIGNED)]
  }

  function RootObject(): bytes {
    LittleEndian(4, 2) + Join(RootItems()) + []
  }

  function ByteObject(): bytes {
    LittleEndian(4, 1) + Join([LittleEndian(1, 255)]) + []
  }

  function Mixed(): bytes {
    Buffer(HEADER, [Pad(RootObject()), Pad(ByteObject())])
  }

  lemma MixedOpens()
    ensures Opens(Mixed()) && TextCount(Mixed()) == 0 && VectorCount(Mixed()) == 2 && ObjectCount(Mixed()) == 2
    ensures IsAt(Mixed(), ObjectAt(Mixed(), 0), RootObject()) && IsAt(Mixed(), ObjectAt(Mixed(), 1), ByteObject())
  {
    var parts := [Pad(RootObject()), Pad(ByteObject())];
    SmallObjects(parts);
    hide Buffer, Field, Pad, Join, RootObject, ByteObject;
    FrontLengths(HEADER, parts);
    forall i: nat | i < 8 ensures |Mixed()| >= HEADER_SIZE && Field(Mixed(), i) == HEADER[i] {
      HeaderWordAt(HEADER, parts, i);
    }
    ObjectReadsIn(HEADER, parts, 0, RootObject());
    ObjectReadsIn(HEADER, parts, 1, ByteObject());
  }

  lemma SmallObjects(parts: seq<bytes>)
    requires parts == [Pad(RootObject()), Pad(ByteObject())]
    ensures |Join(parts)| < 0x1_0000_0000_0000_0000
  {
    EvenJoin(RootItems(), 8);
    EvenJoin([LittleEndian(1, 255)], 1);
    assert |RootObject()| == 20 && |ByteObject()| == 5;
    StartStep(parts, 0);
    StartStep(parts, 1);
    assert parts[..2] == parts && parts[..0] == [];
  }

  lemma RootReads(at: nat)
    requires IsAt(Mixed(), at, RootObject())
    ensures VectorAt(Mixed(), VECTOR_VALUE, at) == Some([Ref(UNSIGNED), Ref(SIGNED)])
  {
    var buf, items := Mixed(), RootItems();
    hide Mixed, LittleEndian, Join, ValueBytes;
    CountedRow(buf, at, items, 8, []);
    RowReads(buf, at + 4, items, 8, 0);
    RowReads(buf, at + 4, items, 8, 1);
    ValueReads(buf, at + 4, UNSIGNED);
    ValueReads(buf, at + 12, SIGNED);
    assert ItemsAt(buf, VECTOR_VALUE, at + 4, 2) == [Ref(UNSIGNED), Ref(SIGNED)];
  }

  lemma OneByteReads(buf: bytes, at: nat, x: byte)
    requires IsAt(buf, at, LittleEndian(4, 1) + Join([LittleEndian(1, x)]) + [])
    ensures Within(buf, at, 5) && Word(buf, at, 4) == 1 && Word(buf, at + 4, 1) == x
  {
    var items := [LittleEndian(1, x)];
    hide LittleEndian, Join;
    CountedRow(buf, at, items, 1, []);
    RowReads(buf, at + 4, items, 1, 0);
    WordRanges();
    hide *;
    WordReads(buf, at + 4, 1, x);
  }

  lemma OneItemReads(buf: bytes, t: u32, at: nat)
    requires IsNumberVector(t) && Width(t) == 1 && Within(buf, at, 5) && Word(buf, at, 4) == 1
    ensures VectorAt(buf, t, at) == Some([Number(t, Unwrap(Range(t), IsSigned(t), Word(buf, at + 4, 1)))])
  {
    var items := ItemsAt(buf, t, at + 4, 1);
    hide Word, Unwrap;
    assert items == [items[0]];
  }

  lemma ByteReads(at: nat)
    requires IsAt(Mixed(), at, ByteObject())
    ensures VectorAt(Mixed(), VECTOR_U8, at) == Some([Number(VECTOR_U8, 255)])
    ensures VectorAt(Mixed(), VECTOR_I8, at) == Some([Number(VECTOR_I8, -1)])
  {
    hide Mixed, LittleEndian, Join, VectorAt, IsAt, Word;
    OneByteReads(Mixed(), at, 255);
    OneItemReads(Mixed(), VECTOR_U8, at);
    OneItemReads(Mixed(), VECTOR_I8, at);
  }

  lemma MixedShapes()
    ensures Opens(Mixed())
    ensures ValueShape(Mixed(), ROOT) == Vector([Ref(UNSIGNED), Ref(SIGNED)])
    ensures ValueShape(Mixed(), UNSIGNED) == Vector([Number(VECTOR_U8, 255)])
    ensures ValueShape(Mixed(), SIGNED) == Vector([Number(VECTOR_I8, -1)])
  {
    hide Mixed, VectorAt, ObjectAt, IsAt, RootObject, ByteObject, Opens;
    MixedOpens();
    RootReads(ObjectAt(Mixed(), 0));
    ByteReads(ObjectAt(Mixed(), 1));
  }

  /** All of it is sound, and yet the copies cannot all unfold like their originals. */
  lemma OnePlaceTwoMeanings(memo: Memo)
    requires Place(PrivateVector, 1) in memo
    ensures Opens(Mixed()) && Sound(Mixed(), {ROOT, UNSIGNED, SIGNED}) && !AllAlike(Mixed(), {ROOT, UNSIGNED, SIGNED}, memo)
  {
    hide Mixed, ValueShape, Opens;
    MixedShapes();
    ByteMeanings();
    assert PlaceOf(UNSIGNED) == PlaceOf(SIGNED);
  }

  lemma ByteMeanings()
    ensures Opens(Mixed()) && !Alike(RGraph(Mixed()), Ref(UNSIGNED), Ref(SIGNED))
  {
    hide Mixed, ValueShape, Opens;
    MixedShapes();
    var g := RGraph(Mixed());
    var xs, ys := UnfoldAll(g, [Number(VECTOR_U8, 255)], 0), UnfoldAll(g, [Number(VECTOR_I8, -1)], 0);
    assert xs[0] == TInt(255) && ys[0] == TInt(-1);
    assert Unfold(g, Ref(UNSIGNED), 1) == TVector(xs) && Unfold(g, Ref(SIGNED), 1) == TVector(ys);
  }
}

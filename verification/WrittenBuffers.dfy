/**
  Buffers the library wrote itself are sound to copy from, and name each place with one type.
 */
module WrittenBuffers {
  import opened Wrappers
  import opened PowersOfTwo
  import opened Bitvector
  import opened Unfolding
  import opened Values
  import opened CreateState
  import opened Tables
  import opened Bytes
  import opened Heap
  import opened Reader
  import opened ReadBack
  import opened RoundTrip
  import opened Building
  import opened Interning
  import opened Copying
  import opened CopyMeaning

  // ---- buffers the library wrote itself ----

  ghost function WrittenValues(t: State): set<RValue> {
    set h | 0 <= h < |t.values| :: ToRead(t, h)
  }

  lemma WrittenItems(t: State, h: int)
    requires Writable(t) && IsHandle(t, h) && IsHeapVector(t.values[h].typ)
    ensures AllIn(WrittenValues(t), ReadItems(t, t.values[h]))
  {
    ItemsWritable(t, h);
    hide Writable, ToRead;
    var v, items := t.values[h], ItemsOf(t, t.values[h]);
    forall i | 0 <= i < |items|
      ensures var n := ReadItem(t, v, items[i]); if n.Ref? then n.v in WrittenValues(t) else IsNumberVector(n.t) && Fits(n.t, n.x)
    {
      assert WritableItem(t, v, items[i]);
      if IsValueVector(v.typ) { InWritten(t, items[i]); }
    }
  }

  lemma InWritten(t: State, h: int)
    requires IsHandle(t, h)
    ensures ToRead(t, h) in WrittenValues(t)
  {
  }

  lemma KeptAllIn(S: set<RValue>, marks: seq<bool>, xs: seq<RNode>)
    requires |marks| == |xs| && AllIn(S, xs)
    ensures AllIn(S, Kept(marks, xs))
  {
    forall i | 0 <= i < |Kept(marks, xs)|
      ensures var n := Kept(marks, xs)[i]; if n.Ref? then n.v in S else IsNumberVector(n.t) && Fits(n.t, n.x)
    {
      var j := KeptFrom(marks, xs, i);
    }
  }

  lemma WrittenVector(t: State, root: int, h: int)
    requires Writable(t) && IsHandle(t, root) && IsHandle(t, h) && IsHeapVector(t.values[h].typ)
    ensures Opens(Serialized(t, root)) && SoundValue(Serialized(t, root), WrittenValues(t), ToRead(t, h))
  {
    hide Writable, Good, Serialized, Opens, ValueShape, ReadItems, ReadsVector, AllIn, WrittenValues;
    OpensWritten(t, root);
    VectorValueReads(t, root, h);
    ReadShapes(Serialized(t, root), ToRead(t, h));
    WrittenItems(t, h);
  }

  lemma OpensWritten(t: State, root: int)
    requires Writable(t) && IsHandle(t, root)
    ensures Good(t) && Opens(Serialized(t, root))
  {
    HeaderReads(t, root);
  }

  lemma WrittenSet(t: State, root: int, h: int)
    requires Writable(t) && IsHandle(t, root) && IsHandle(t, h) && KindOf(t.values[h]) == SetTable
    ensures Opens(Serialized(t, root)) && SoundValue(Serialized(t, root), WrittenValues(t), ToRead(t, h))
  {
    hide Writable, Good, Serialized, Opens, ValueShape, ReadItems, ReadsSet, AllIn, WrittenValues, Kept, Filled, GoodValue, SetMade;
    OpensWritten(t, root);
    SetIndex(t, root, h);
    SetValueReads(t, root, h);
    ReadShapes(Serialized(t, root), ToRead(t, h));
    WrittenItems(t, h - 1);
    var ks := ReadItems(t, t.values[h - 1]);
    KeptAllIn(WrittenValues(t), Filled(ks), ks);
  }

  lemma WrittenMap(t: State, root: int, h: int)
    requires Writable(t) && IsHandle(t, root) && IsHandle(t, h) && KindOf(t.values[h]) == MapTable
    ensures Opens(Serialized(t, root)) && SoundValue(Serialized(t, root), WrittenValues(t), ToRead(t, h))
  {
    hide Writable, Good, Serialized, Opens, ValueShape, ReadItems, MapAt, ObjectAt, AllIn, WrittenValues, Kept, Filled, GoodValue, MapMade;
    OpensWritten(t, root);
    MapIndex(t, root, h);
    MapValueReads(t, root, h);
    ReadShapes(Serialized(t, root), ToRead(t, h));
    WrittenItems(t, h - 2);
    WrittenItems(t, h - 1);
    var ks, vs := ReadItems(t, t.values[h - 2]), ReadItems(t, t.values[h - 1]);
    KeptAllIn(WrittenValues(t), Filled(ks), ks);
    KeptAllIn(WrittenValues(t), Filled(ks), vs);
    KeptLength(Filled(ks), ks, vs);
  }

  lemma WrittenLeaf(t: State, root: int, h: int)
    requires Writable(t) && IsHandle(t, root) && IsHandle(t, h)
    requires KindOf(t.values[h]) == InWord || KindOf(t.values[h]) == TextBuffer || KindOf(t.values[h]) == BitBuffer
    ensures Opens(Serialized(t, root)) && SoundValue(Serialized(t, root), WrittenValues(t), ToRead(t, h))
  {
    hide Writable, Good, Serialized, Opens, ReadsText, ReadsBits, WrittenValues, Decode, RawBits, TextAt, BitvectorAt, VectorAt, SetAt, MapAt, ObjectAt;
    OpensWritten(t, root);
    WrittenWord(t, h);
    if KindOf(t.values[h]) == TextBuffer {
      hide ValueShape;
      TextValueReads(t, root, h);
      ReadShapes(Serialized(t, root), ToRead(t, h));
    } else if KindOf(t.values[h]) == BitBuffer {
      hide ValueShape;
      BitsValueReads(t, root, h);
      ReadShapes(Serialized(t, root), ToRead(t, h));
    }
  }

  lemma WrittenWord(t: State, h: int)
    requires Writable(t) && IsHandle(t, h)
    ensures ToRead(t, h).typ == t.values[h].typ && ToRead(t, h).data < 0x1_0000_0000
    ensures KindOf(t.values[h]) == InWord ==> InlineSound(ToRead(t, h))
    ensures KindOf(t.values[h]) == TextBuffer ==> t.values[h].data < |t.texts| && ValidText(t.values[h].typ, t.texts[t.values[h].data])
    ensures KindOf(t.values[h]) == BitBuffer ==> t.values[h].data < |t.bitvectors| && ValidBits(t.bitvectors[t.values[h].data])
  {
    ToReadFits(t, h);
    assert GoodValue(t, h);
  }

  /** Every value the library writes reads without error, and leads to values it wrote. */
  lemma WrittenIsSound(t: State, root: int)
    requires Writable(t) && IsHandle(t, root)
    ensures Opens(Serialized(t, root)) && Sound(Serialized(t, root), WrittenValues(t)) && ToRead(t, root) in WrittenValues(t)
  {
    OpensWritten(t, root);
    InWritten(t, root);
    forall r | r in WrittenValues(t) ensures SoundValue(Serialized(t, root), WrittenValues(t), r) {
      var h :| IsHandle(t, h) && r == ToRead(t, h);
      hide Writable, Good, Serialized, Opens, SoundValue, WrittenValues, ToRead;
      match KindOf(t.values[h]) {
        case OutsideVector => WrittenVector(t, root, h);
        case PrivateVector => WrittenVector(t, root, h);
        case SetTable => WrittenSet(t, root, h);
        case MapTable => WrittenMap(t, root, h);
        case _ => WrittenLeaf(t, root, h);
      }
    }
  }

  /** Each place of a written buffer belongs to one handle, so it is only ever named with one type. */
  lemma WrittenOneType(t: State)
    requires Good(t)
    ensures OneTypePerPlace(WrittenValues(t))
  {
    forall g, h | IsHandle(t, g) && IsHandle(t, h) && PlaceOf(ToRead(t, g)).Some? && PlaceOf(ToRead(t, g)) == PlaceOf(ToRead(t, h))
      ensures g == h
    {
      PlaceIsUnique(t, g, h);
    }
    hide Good, PlaceOf, ToRead;
  }

  lemma PlaceIsUnique(t: State, g: int, h: int)
    requires Good(t) && IsHandle(t, g) && IsHandle(t, h) && PlaceOf(ToRead(t, g)).Some? && PlaceOf(ToRead(t, g)) == PlaceOf(ToRead(t, h))
    ensures g == h
  {
    assert GoodValue(t, g) && GoodValue(t, h);
    if g != h && KindOf(t.values[g]) == KindOf(t.values[h]) && t.values[g].data == t.values[h].data { DataIsUnique(t, g, h); }
  }
}

/**
  The Judy trees that selection by rank walks over: leaves, and branches of three kinds, each deciding one byte of
  the index. The indexes of a well-formed tree, read off left to right, are strictly ascending.
 */
module JudyTree {
  import opened Wrappers

  /** Bits in a group of a bitmap branch and of a bitmap leaf, in a 64-bit build. */
  const BRANCH_BITS: nat := 32
  const LEAF_BITS: nat := 64
  const WORD_BYTES: nat := 8

  /** 256^n, the number of values of n bytes. */
  function Span(n: nat): (r: nat)
    ensures r > 0
  {
    if n == 0 then 1 else 256 * Span(n - 1)
  }

  // ---- nodes ----

  /** A child of a branch, and the digit it stands for. */
  datatype Entry = Entry(digit: nat, node: Node)

  /** A group of a bitmap branch: a child for every bit that is set. */
  datatype Group = Group(bits: seq<bool>, nodes: seq<Node>)

  /**
    A leaf lists the last bytes of its indexes; linear leaves, immediate indexes and full populations are all of this
    kind. A bitmap leaf has a bit for every value of the last byte. A branch decides byte `state` of the index; its
    children are a list, or a bitmap with groups of children, or a slot for every digit. Any node may skip bytes
    between its parent's digit and its own, which are kept with the pointer to it.
   */
  datatype Node =
    | Leaf(bytes: nat, skipped: nat, items: seq<nat>)
    | BitmapLeaf(skipped: nat, bits: seq<seq<bool>>)
    | Linear(state: nat, skipped: nat, entries: seq<Entry>)
    | Bitmap(state: nat, skipped: nat, groups: seq<Group>)
    | Uncompressed(state: nat, skipped: nat, slots: seq<Option<Node>>)

  predicate IsBranch(n: Node) {
    n.Linear? || n.Bitmap? || n.Uncompressed?
  }

  /** The number of bytes that a node decides together with the nodes below it. */
  function Bytes(n: Node): nat {
    match n
    case Leaf(bytes, _, _) => bytes
    case BitmapLeaf(_, _) => 1
    case _ => n.state
  }

  // ---- bitmaps ----

  /** The positions of the bits that are set. */
  function Positions(bits: seq<bool>): seq<nat> {
    if bits == [] then []
    else Positions(bits[..|bits| - 1]) + if bits[|bits| - 1] then [|bits| - 1] else []
  }

  function Shifted(base: nat, xs: seq<nat>): (r: seq<nat>)
    ensures |r| == |xs| && forall i :: 0 <= i < |xs| ==> r[i] == base + xs[i]
  {
    seq(|xs|, i requires 0 <= i < |xs| => base + xs[i])
  }

  /** The positions of the bits of a bitmap leaf. */
  function LeafPositions(bits: seq<seq<bool>>): seq<nat> {
    if bits == [] then []
    else LeafPositions(bits[..|bits| - 1]) + Shifted(LEAF_BITS * (|bits| - 1), Positions(bits[|bits| - 1]))
  }

  // ---- children ----

  function GroupEntries(group: Group, g: nat): (r: seq<Entry>)
    ensures |r| == |group.nodes| && forall j :: 0 <= j < |r| ==> r[j].node == group.nodes[j]
  {
    seq(|group.nodes|, j requires 0 <= j < |group.nodes| =>
      Entry(if j < |Positions(group.bits)| then BRANCH_BITS * g + Positions(group.bits)[j] else 0, group.nodes[j]))
  }

  function Flatten(groups: seq<Group>): seq<Entry> {
    if groups == [] then [] else Flatten(groups[..|groups| - 1]) + GroupEntries(groups[|groups| - 1], |groups| - 1)
  }

  function SlotEntry(slot: Option<Node>, i: nat): seq<Entry> {
    match slot case None => [] case Some(node) => [Entry(i, node)]
  }

  function Filled(slots: seq<Option<Node>>): seq<Entry> {
    if slots == [] then [] else Filled(slots[..|slots| - 1]) + SlotEntry(slots[|slots| - 1], |slots| - 1)
  }

  /** The children of a branch in the order of their digits. */
  function Entries(n: Node): seq<Entry>
    requires IsBranch(n)
  {
    match n
    case Linear(_, _, entries) => entries
    case Bitmap(_, _, groups) => Flatten(groups)
    case Uncompressed(_, _, slots) => Filled(slots)
  }

  /** Children have fewer bytes to decide than their branch. */
  predicate Lower(s: nat, entries: seq<Entry>) {
    forall i :: 0 <= i < |entries| ==> Bytes(entries[i].node) < s
  }

  // ---- indexes ----

  predicate Proper(n: Node) {
    IsBranch(n) ==> n.state > 0 && Lower(n.state, Entries(n))
  }

  /** The indexes in a node, as numbers of the bytes that its parent leaves open, from left to right. */
  function Indexes(n: Node): seq<nat>
    decreases Bytes(n), 2, 0
  {
    if Proper(n) then Shifted(n.skipped * Span(Bytes(n)), Open(n)) else []
  }

  /** The same without the bytes that are skipped. */
  function Open(n: Node): seq<nat>
    requires Proper(n)
    decreases Bytes(n), 1, 0
  {
    match n
    case Leaf(_, _, items) => items
    case BitmapLeaf(_, bits) => LeafPositions(bits)
    case _ => AllIndexes(Entries(n), n.state - 1)
  }

  function AllIndexes(entries: seq<Entry>, level: nat): seq<nat>
    requires Lower(level + 1, entries)
    decreases level + 1, 0, |entries|
  {
    if entries == [] then []
    else
      var k := |entries| - 1;
      AllIndexes(entries[..k], level) + Shifted(entries[k].digit * Span(level), Indexes(entries[k].node))
  }

  function Population(n: Node): nat {
    |Indexes(n)|
  }

  // ---- well-formed trees ----

  ghost predicate Ascending(xs: seq<nat>) {
    forall i, j :: 0 <= i < j < |xs| ==> xs[i] < xs[j]
  }

  ghost predicate Within(lo: nat, hi: nat, xs: seq<nat>) {
    forall i :: 0 <= i < |xs| ==> lo <= xs[i] < hi
  }

  ghost predicate DigitsAscend(entries: seq<Entry>) {
    forall i, j :: 0 <= i < j < |entries| ==> entries[i].digit < entries[j].digit
  }

  ghost predicate DigitsWithin(lo: nat, hi: nat, entries: seq<Entry>) {
    forall i :: 0 <= i < |entries| ==> lo <= entries[i].digit < hi
  }

  ghost predicate ProperGroup(group: Group) {
    |group.bits| == BRANCH_BITS && |group.nodes| == |Positions(group.bits)|
  }

  ghost predicate ProperGroups(groups: seq<Group>) {
    forall g :: 0 <= g < |groups| ==> ProperGroup(groups[g])
  }

  ghost predicate ProperBits(bits: seq<seq<bool>>) {
    forall g :: 0 <= g < |bits| ==> |bits[g]| == LEAF_BITS
  }

  ghost predicate WellFormed(n: Node, level: nat)
    decreases level
  {
    && Bytes(n) <= level && n.skipped < Span(level - Bytes(n))
    && match n
       case Leaf(bytes, _, items) => Ascending(items) && Within(0, Span(bytes), items)
       case BitmapLeaf(_, bits) => |bits| == 256 / LEAF_BITS && ProperBits(bits)
       case Linear(_, _, entries) => DigitsAscend(entries) && DigitsWithin(0, 256, entries) && ProperChildren(n, level)
       case Bitmap(_, _, groups) => |groups| == 256 / BRANCH_BITS && ProperGroups(groups) && ProperChildren(n, level)
       case Uncompressed(_, _, slots) => |slots| == 256 && ProperChildren(n, level)
  }

  ghost predicate ProperChildren(n: Node, level: nat)
    requires IsBranch(n) && n.state <= level
    decreases level, 0
  {
    n.state > 0 && forall e :: e in Entries(n) ==> WellFormed(e.node, n.state - 1)
  }

  // ---- the indexes of a well-formed tree ascend ----

  lemma {:induction false} SpanProduct(a: nat, b: nat)
    ensures Span(a + b) == Span(a) * Span(b)
  {
    if a > 0 {
      SpanProduct(a - 1, b);
      assert 256 * (Span(a - 1) * Span(b)) == (256 * Span(a - 1)) * Span(b);
    }
  }

  lemma ProductGrows(a: nat, b: nat, span: nat)
    requires a <= b
    ensures a * span <= b * span
  {
    assert b * span == a * span + (b - a) * span;
  }

  /** A digit before a number of fewer bytes: all such numbers lie between the digit and the next one. */
  lemma Digit(digit: nat, span: nat, x: nat, count: nat)
    requires x < span && digit < count
    ensures digit * span <= digit * span + x < count * span
  {
    ProductGrows(digit + 1, count, span);
    assert (digit + 1) * span == digit * span + span;
  }

  lemma ShiftedAscends(base: nat, xs: seq<nat>)
    requires Ascending(xs)
    ensures Ascending(Shifted(base, xs))
  {
    var r := Shifted(base, xs);
    forall i, j | 0 <= i < j < |r|
      ensures r[i] < r[j]
    {
      assert xs[i] < xs[j];
    }
  }

  lemma AscendingAppended(xs: seq<nat>, ys: seq<nat>, lo: nat, mid: nat, hi: nat)
    requires Ascending(xs) && Ascending(ys) && lo <= mid <= hi && Within(lo, mid, xs) && Within(mid, hi, ys)
    ensures Ascending(xs + ys) && Within(lo, hi, xs + ys)
  {
    var r := xs + ys;
    forall i, j | 0 <= i < j < |r|
      ensures r[i] < r[j]
    {
      if j < |xs| {
        assert xs[i] < xs[j];
      } else if i >= |xs| {
        assert ys[i - |xs|] < ys[j - |xs|];
      }
    }
  }

  lemma {:induction false} PositionsAscend(bits: seq<bool>)
    ensures Ascending(Positions(bits)) && Within(0, |bits|, Positions(bits))
  {
    if bits != [] {
      var n := |bits| - 1;
      PositionsAscend(bits[..n]);
      AscendingAppended(Positions(bits[..n]), if bits[n] then [n] else [], 0, n, n + 1);
    }
  }

  lemma {:induction false} LeafPositionsAscend(bits: seq<seq<bool>>)
    requires ProperBits(bits)
    ensures Ascending(LeafPositions(bits)) && Within(0, LEAF_BITS * |bits|, LeafPositions(bits))
  {
    if bits != [] {
      var n := |bits| - 1;
      LeafPositionsAscend(bits[..n]);
      PositionsAscend(bits[n]);
      ShiftedAscends(LEAF_BITS * n, Positions(bits[n]));
      AscendingAppended(LeafPositions(bits[..n]), Shifted(LEAF_BITS * n, Positions(bits[n])), 0, LEAF_BITS * n, LEAF_BITS * |bits|);
    }
  }

  lemma DigitsAppended(xs: seq<Entry>, ys: seq<Entry>, mid: nat, hi: nat)
    requires DigitsAscend(xs) && DigitsAscend(ys) && mid <= hi && DigitsWithin(0, mid, xs) && DigitsWithin(mid, hi, ys)
    ensures DigitsAscend(xs + ys) && DigitsWithin(0, hi, xs + ys)
  {
    var r := xs + ys;
    forall i, j | 0 <= i < j < |r|
      ensures r[i].digit < r[j].digit
    {
      if j < |xs| {
        assert xs[i].digit < xs[j].digit;
      } else if i >= |xs| {
        assert ys[i - |xs|].digit < ys[j - |xs|].digit;
      }
    }
  }

  lemma GroupAscends(group: Group, g: nat)
    requires ProperGroup(group)
    ensures DigitsAscend(GroupEntries(group, g)) && DigitsWithin(BRANCH_BITS * g, BRANCH_BITS * (g + 1), GroupEntries(group, g))
  {
    PositionsAscend(group.bits);
  }

  lemma {:induction false} FlattenAscends(groups: seq<Group>)
    requires ProperGroups(groups)
    ensures DigitsAscend(Flatten(groups)) && DigitsWithin(0, BRANCH_BITS * |groups|, Flatten(groups))
  {
    if groups != [] {
      var n := |groups| - 1;
      FlattenAscends(groups[..n]);
      GroupAscends(groups[n], n);
      DigitsAppended(Flatten(groups[..n]), GroupEntries(groups[n], n), BRANCH_BITS * n, BRANCH_BITS * |groups|);
    }
  }

  lemma {:induction false} FilledAscends(slots: seq<Option<Node>>)
    ensures DigitsAscend(Filled(slots)) && DigitsWithin(0, |slots|, Filled(slots))
  {
    if slots != [] {
      var n := |slots| - 1;
      FilledAscends(slots[..n]);
      DigitsAppended(Filled(slots[..n]), SlotEntry(slots[n], n), n, |slots|);
    }
  }

  /** Whatever its kind, a well-formed branch has its children by ascending digits, each with fewer bytes. */
  lemma BranchAscends(n: Node, level: nat)
    requires WellFormed(n, level) && IsBranch(n)
    ensures 0 < n.state <= level && DigitsAscend(Entries(n)) && DigitsWithin(0, 256, Entries(n)) && Lower(n.state, Entries(n))
    ensures forall e :: e in Entries(n) ==> WellFormed(e.node, n.state - 1)
  {
    match n {
      case Linear(_, _, _) =>
      case Bitmap(_, _, groups) =>
        FlattenAscends(groups);
        assert BRANCH_BITS * |groups| == 256;
      case Uncompressed(_, _, slots) =>
        FilledAscends(slots);
    }
    assert ProperChildren(n, level);
    forall i | 0 <= i < |Entries(n)|
      ensures Bytes(Entries(n)[i].node) < n.state
    {
      assert Entries(n)[i] in Entries(n);
    }
  }

  /** The indexes of a well-formed tree, read from left to right, are strictly ascending numbers of `level` bytes. */
  lemma {:induction false} IndexesAscend(n: Node, level: nat)
    requires WellFormed(n, level)
    ensures Ascending(Indexes(n)) && Within(0, Span(level), Indexes(n))
    decreases level, 1, 0
  {
    match n {
      case Leaf(_, _, _) =>
      case BitmapLeaf(_, bits) =>
        LeafPositionsAscend(bits);
        assert LEAF_BITS * |bits| == Span(1);
      case _ =>
        BranchAscends(n, level);
        AllAscend(Entries(n), n.state - 1, 256);
    }
    SkippedAscends(n.skipped, Bytes(n), level, Open(n));
  }

  lemma SkippedAscends(skipped: nat, bytes: nat, level: nat, open: seq<nat>)
    requires bytes <= level && skipped < Span(level - bytes) && Ascending(open) && Within(0, Span(bytes), open)
    ensures Ascending(Shifted(skipped * Span(bytes), open)) && Within(0, Span(level), Shifted(skipped * Span(bytes), open))
  {
    SpanProduct(level - bytes, bytes);
    ShiftedAscends(skipped * Span(bytes), open);
    forall i | 0 <= i < |open|
      ensures skipped * Span(bytes) + open[i] < Span(level)
    {
      Digit(skipped, Span(bytes), open[i], Span(level - bytes));
    }
  }

  lemma {:induction false} AllAscend(entries: seq<Entry>, level: nat, hi: nat)
    requires Lower(level + 1, entries) && DigitsAscend(entries) && DigitsWithin(0, hi, entries)
    requires forall e :: e in entries ==> WellFormed(e.node, level)
    ensures Ascending(AllIndexes(entries, level)) && Within(0, hi * Span(level), AllIndexes(entries, level))
    decreases level, 2, |entries|
  {
    if entries != [] {
      var k := |entries| - 1;
      var digit, xs := entries[k].digit, Indexes(entries[k].node);
      AllAscend(entries[..k], level, digit);
      IndexesAscend(entries[k].node, level);
      ShiftedAscends(digit * Span(level), xs);
      forall i | 0 <= i < |xs|
        ensures digit * Span(level) <= digit * Span(level) + xs[i] < hi * Span(level)
      {
        Digit(digit, Span(level), xs[i], hi);
      }
      Digit(digit, Span(level), 0, hi);
      AscendingAppended(AllIndexes(entries[..k], level), Shifted(digit * Span(level), xs), 0, digit * Span(level), hi * Span(level));
    }
  }

  ghost function Smaller(xs: seq<nat>, x: nat): set<nat> {
    set y | y in xs && y < x
  }

  /** In an ascending sequence, the number at position i has exactly i smaller ones. */
  lemma {:induction false} RankInAscending(xs: seq<nat>, i: nat)
    requires Ascending(xs) && i < |xs|
    ensures |Smaller(xs, xs[i])| == i
  {
    if i == 0 {
      assert Smaller(xs, xs[i]) == {};
    } else {
      RankInAscending(xs, i - 1);
      assert Smaller(xs, xs[i]) == Smaller(xs, xs[i - 1]) + {xs[i - 1]};
    }
  }
}

/**
  Selection by rank in a Judy array: the Count-th smallest index, found by descending through branches whose children
  are counted upward or downward, whichever half of the branch the rank lies in.
 */
module JudyByCount {
  import opened Wrappers
  import opened JudyTree

  // ---- counting children ----

  /** The number of indexes below the first k children. */
  function CountBelow(entries: seq<Entry>, level: nat, k: nat): nat
    requires k <= |entries| && Lower(level + 1, entries)
  {
    |AllIndexes(entries[..k], level)|
  }

  lemma CountStep(entries: seq<Entry>, level: nat, k: nat)
    requires k < |entries| && Lower(level + 1, entries)
    ensures CountBelow(entries, level, k + 1) == CountBelow(entries, level, k) + Population(entries[k].node)
    ensures AllIndexes(entries[..k + 1], level) == AllIndexes(entries[..k], level) + Shifted(entries[k].digit * Span(level), Indexes(entries[k].node))
  {
    assert entries[..k + 1][..k] == entries[..k];
  }

  lemma {:induction false} CountMonotone(entries: seq<Entry>, level: nat, j: nat, k: nat)
    requires j <= k <= |entries| && Lower(level + 1, entries)
    ensures CountBelow(entries, level, j) <= CountBelow(entries, level, k)
    ensures AllIndexes(entries[..j], level) <= AllIndexes(entries[..k], level)
    decreases k - j
  {
    if j < k {
      CountMonotone(entries, level, j, k - 1);
      CountStep(entries, level, k - 1);
    }
  }

  /** Rank c lies below child k. */
  ghost predicate Picks(entries: seq<Entry>, level: nat, c: nat, k: nat)
    requires Lower(level + 1, entries)
  {
    k < |entries| && CountBelow(entries, level, k) <= c < CountBelow(entries, level, k + 1)
  }

  /** However the children are scanned, there is only one to pick. */
  lemma PicksUnique(entries: seq<Entry>, level: nat, c: nat, j: nat, k: nat)
    requires Lower(level + 1, entries) && Picks(entries, level, c, j) && Picks(entries, level, c, k)
    ensures j == k
  {
    if j < k { CountMonotone(entries, level, j + 1, k); }
    if k < j { CountMonotone(entries, level, k + 1, j); }
  }

  /** The index of rank c is found below the child that is picked, at the rank that is left. */
  lemma PickedIndex(entries: seq<Entry>, level: nat, c: nat, k: nat)
    requires Lower(level + 1, entries) && Picks(entries, level, c, k)
    ensures var rest := c - CountBelow(entries, level, k);
      && c < |AllIndexes(entries, level)| && rest < Population(entries[k].node)
      && AllIndexes(entries, level)[c] == entries[k].digit * Span(level) + Indexes(entries[k].node)[rest]
  {
    CountStep(entries, level, k);
    CountMonotone(entries, level, k + 1, |entries|);
    assert entries[..|entries|] == entries;
  }

  // ---- scanning a list ----

  /** Upward: adds each child's population until the rank is below the sum. */
  method ScanLinear(entries: seq<Entry>, level: nat, base: nat, c: nat) returns (k: nat, lower: nat)
    requires Lower(level + 1, entries) && base <= c < base + CountBelow(entries, level, |entries|)
    ensures Picks(entries, level, c - base, k) && lower == base + CountBelow(entries, level, k)
  {
    k, lower := 0, base;
    while true
      invariant k <= |entries| && lower == base + CountBelow(entries, level, k) && lower <= c
      decreases |entries| - k
    {
      CountStep(entries, level, k);
      var pop := Population(entries[k].node);
      if lower + pop > c {
        return;
      }
      lower := lower + pop;
      k := k + 1;
    }
  }

  // ---- scanning a bitmap ----

  lemma {:induction false} FlattenAt(groups: seq<Group>, g: nat)
    requires g < |groups|
    ensures Flatten(groups[..g + 1]) == Flatten(groups[..g]) + GroupEntries(groups[g], g)
    ensures Flatten(groups[..g + 1]) <= Flatten(groups)
    decreases |groups| - g
  {
    assert groups[..g + 1][..g] == groups[..g];
    if g + 1 < |groups| {
      FlattenAt(groups, g + 1);
    } else {
      assert groups[..g + 1] == groups;
    }
  }

  function Start(groups: seq<Group>, g: nat): nat
    requires g <= |groups|
  {
    |Flatten(groups[..g])|
  }

  lemma GroupEntry(groups: seq<Group>, g: nat, j: nat)
    requires g < |groups| && j < |groups[g].nodes|
    ensures Start(groups, g) + j < |Flatten(groups)| && Flatten(groups)[Start(groups, g) + j] == GroupEntries(groups[g], g)[j]
    ensures Start(groups, g + 1) == Start(groups, g) + |groups[g].nodes|
  {
    FlattenAt(groups, g);
  }

  /** Rank c lies below child j of group g, of which `lower - base` indexes lie before it. */
  ghost predicate PicksInGroup(groups: seq<Group>, level: nat, base: nat, c: nat, g: nat, j: nat, lower: nat)
    requires Lower(level + 1, Flatten(groups))
  {
    && g < |groups| && j < |groups[g].nodes|
    && Start(groups, g) + j < |Flatten(groups)|
    && Flatten(groups)[Start(groups, g) + j] == GroupEntries(groups[g], g)[j]
    && base <= c
    && Picks(Flatten(groups), level, c - base, Start(groups, g) + j)
    && lower == base + CountBelow(Flatten(groups), level, Start(groups, g) + j)
  }

  /** `lower - base` indexes lie below the children before child j of group g. */
  ghost predicate Counted(groups: seq<Group>, level: nat, base: nat, g: nat, j: nat, lower: nat)
    requires Lower(level + 1, Flatten(groups))
  {
    && g <= |groups| && Start(groups, g) + j <= |Flatten(groups)|
    && lower == base + CountBelow(Flatten(groups), level, Start(groups, g) + j)
  }

  lemma CountedStep(groups: seq<Group>, level: nat, base: nat, g: nat, j: nat, lower: nat)
    requires Lower(level + 1, Flatten(groups)) && g < |groups| && j < |groups[g].nodes|
    ensures Counted(groups, level, base, g, j, lower) <==> Counted(groups, level, base, g, j + 1, lower + Population(groups[g].nodes[j]))
    ensures Counted(groups, level, base, g, j + 1, lower) ==> Population(groups[g].nodes[j]) <= lower
    ensures forall c :: Counted(groups, level, base, g, j, lower) && lower <= c < lower + Population(groups[g].nodes[j]) ==>
      PicksInGroup(groups, level, base, c, g, j, lower)
  {
    hide Flatten, Indexes, Open, AllIndexes, Lower, GroupEntries, Population, Start, CountBelow;
    GroupEntry(groups, g, j);
    CountStep(Flatten(groups), level, Start(groups, g) + j);
  }

  lemma CountedEdges(groups: seq<Group>, level: nat, base: nat, g: nat, lower: nat)
    requires Lower(level + 1, Flatten(groups)) && g < |groups|
    ensures Counted(groups, level, base, g, |groups[g].nodes|, lower) <==> Counted(groups, level, base, g + 1, 0, lower)
  {
    hide Indexes, Open, AllIndexes, Lower, GroupEntries;
    FlattenAt(groups, g);
  }

  lemma CountedEnds(groups: seq<Group>, level: nat, base: nat, lower: nat)
    requires Lower(level + 1, Flatten(groups))
    ensures Counted(groups, level, base, 0, 0, lower) <==> lower == base
    ensures Counted(groups, level, base, |groups|, 0, lower) <==> lower == base + CountBelow(Flatten(groups), level, |Flatten(groups)|)
  {
    assert groups[..|groups|] == groups;
    assert groups[..0] == [];
  }

  function CountBits(bits: seq<bool>): nat {
    |Positions(bits)|
  }

  lemma CountBitsIsNodes(groups: seq<Group>, g: nat)
    requires ProperGroups(groups) && g < |groups|
    ensures CountBits(groups[g].bits) == |groups[g].nodes|
  {
  }

  /** Upward through groups and the children in them; empty groups cost nothing. */
  method ScanBitmapUp(groups: seq<Group>, level: nat, base: nat, c: nat) returns (g: nat, j: nat, lower: nat)
    requires ProperGroups(groups)
    requires Lower(level + 1, Flatten(groups)) && base <= c < base + CountBelow(Flatten(groups), level, |Flatten(groups)|)
    ensures PicksInGroup(groups, level, base, c, g, j, lower)
  {
    hide *;
    g, lower := 0, base;
    CountedEnds(groups, level, base, lower);
    while true
      invariant g <= |groups| && Counted(groups, level, base, g, 0, lower) && lower <= c
      decreases |groups| - g
    {
      CountedEnds(groups, level, base, lower);
      j := 0;
      CountBitsIsNodes(groups, g);
      while j < CountBits(groups[g].bits)
        invariant j <= |groups[g].nodes| && Counted(groups, level, base, g, j, lower) && lower <= c
      {
        CountedStep(groups, level, base, g, j, lower);
        var pop := Population(groups[g].nodes[j]);
        if lower + pop > c {
          return;
        }
        lower := lower + pop;
        j := j + 1;
      }
      CountedEdges(groups, level, base, g, lower);
      g := g + 1;
    }
  }

  /** Downward: subtracts each child's population from the whole until what is left does not exceed the rank. */
  method ScanBitmapDown(groups: seq<Group>, level: nat, base: nat, c: nat, pop: nat) returns (g: nat, j: nat, lower: nat)
    requires ProperGroups(groups)
    requires Lower(level + 1, Flatten(groups)) && pop == CountBelow(Flatten(groups), level, |Flatten(groups)|) && base <= c < base + pop
    ensures PicksInGroup(groups, level, base, c, g, j, lower)
  {
    hide *;
    g, lower := |groups|, base + pop;
    CountedEnds(groups, level, base, lower);
    while true
      invariant g <= |groups| && Counted(groups, level, base, g, 0, lower) && c < lower
      decreases g
    {
      CountedEnds(groups, level, base, lower);
      g := g - 1;
      CountBitsIsNodes(groups, g);
      j := CountBits(groups[g].bits);
      CountedEdges(groups, level, base, g, lower);
      while j > 0
        invariant j <= |groups[g].nodes| && Counted(groups, level, base, g, j, lower) && c < lower
      {
        j := j - 1;
        CountedStep(groups, level, base, g, j, lower);
        lower := lower - Population(groups[g].nodes[j]);
        CountedStep(groups, level, base, g, j, lower);
        if lower == 0 || lower - 1 < c {
          return;
        }
      }
    }
  }

  /** Upward or downward, the same child of a bitmap branch is picked, and the same rank is left. */
  lemma SameGroupChild(groups: seq<Group>, level: nat, base: nat, c: nat, g: nat, j: nat, lower: nat, g': nat, j': nat, lower': nat)
    requires ProperGroups(groups) && Lower(level + 1, Flatten(groups))
    requires PicksInGroup(groups, level, base, c, g, j, lower) && PicksInGroup(groups, level, base, c, g', j', lower')
    ensures g == g' && j == j' && lower == lower'
  {
    hide Indexes, Open, AllIndexes, Lower, Flatten, CountBelow, Start, Picks, Positions;
    PicksUnique(Flatten(groups), level, c - base, Start(groups, g) + j, Start(groups, g') + j');
    CountBitsIsNodes(groups, g);
    CountBitsIsNodes(groups, g');
    PositionsAscend(groups[g].bits);
    PositionsAscend(groups[g'].bits);
    assert GroupEntries(groups[g], g)[j].digit == BRANCH_BITS * g + Positions(groups[g].bits)[j];
    assert GroupEntries(groups[g'], g')[j'].digit == BRANCH_BITS * g' + Positions(groups[g'].bits)[j'];
  }

  // ---- scanning slots ----

  lemma {:induction false} FilledAt(slots: seq<Option<Node>>, i: nat)
    requires i < |slots|
    ensures Filled(slots[..i + 1]) == Filled(slots[..i]) + SlotEntry(slots[i], i)
    ensures Filled(slots[..i + 1]) <= Filled(slots)
    decreases |slots| - i
  {
    assert slots[..i + 1][..i] == slots[..i];
    if i + 1 < |slots| {
      FilledAt(slots, i + 1);
    } else {
      assert slots[..i + 1] == slots;
    }
  }

  function Before(slots: seq<Option<Node>>, i: nat): nat
    requires i <= |slots|
  {
    |Filled(slots[..i])|
  }

  /** Rank c lies below the child in slot i, of which `lower - base` indexes lie before it. */
  ghost predicate PicksSlot(slots: seq<Option<Node>>, level: nat, base: nat, c: nat, i: nat, lower: nat)
    requires Lower(level + 1, Filled(slots))
  {
    && i < |slots| && slots[i].Some? && base <= c
    && Picks(Filled(slots), level, c - base, Before(slots, i))
    && Filled(slots)[Before(slots, i)] == Entry(i, slots[i].value)
    && lower == base + CountBelow(Filled(slots), level, Before(slots, i))
  }

  /** `lower - base` indexes lie below the children before slot i. */
  ghost predicate SlotsCounted(slots: seq<Option<Node>>, level: nat, base: nat, i: nat, lower: nat)
    requires Lower(level + 1, Filled(slots))
  {
    && i <= |slots| && Before(slots, i) <= |Filled(slots)|
    && lower == base + CountBelow(Filled(slots), level, Before(slots, i))
  }

  lemma EmptySlotStep(slots: seq<Option<Node>>, level: nat, base: nat, i: nat, lower: nat)
    requires Lower(level + 1, Filled(slots)) && i < |slots| && slots[i].None?
    ensures SlotsCounted(slots, level, base, i, lower) <==> SlotsCounted(slots, level, base, i + 1, lower)
  {
    hide Filled, Indexes, Open, AllIndexes, Lower, Population, CountBelow;
    FilledAt(slots, i);
  }

  lemma SlotStep(slots: seq<Option<Node>>, level: nat, base: nat, i: nat, lower: nat)
    requires Lower(level + 1, Filled(slots)) && i < |slots| && slots[i].Some?
    ensures SlotsCounted(slots, level, base, i, lower) <==> SlotsCounted(slots, level, base, i + 1, lower + Population(slots[i].value))
    ensures SlotsCounted(slots, level, base, i + 1, lower) ==> Population(slots[i].value) <= lower
    ensures forall c :: SlotsCounted(slots, level, base, i, lower) && lower <= c < lower + Population(slots[i].value) ==>
      PicksSlot(slots, level, base, c, i, lower)
  {
    hide Filled, Indexes, Open, AllIndexes, Lower, Population, CountBelow;
    FilledAt(slots, i);
    CountStep(Filled(slots), level, Before(slots, i));
  }

  lemma SlotEnds(slots: seq<Option<Node>>, level: nat, base: nat, lower: nat)
    requires Lower(level + 1, Filled(slots))
    ensures SlotsCounted(slots, level, base, 0, lower) <==> lower == base
    ensures SlotsCounted(slots, level, base, |slots|, lower) <==> lower == base + CountBelow(Filled(slots), level, |Filled(slots)|)
  {
    assert slots[..|slots|] == slots;
    assert slots[..0] == [];
  }

  /** Upward through the slots, passing over null ones. */
  method ScanSlotsUp(slots: seq<Option<Node>>, level: nat, base: nat, c: nat) returns (i: nat, lower: nat)
    requires Lower(level + 1, Filled(slots)) && base <= c < base + CountBelow(Filled(slots), level, |Filled(slots)|)
    ensures PicksSlot(slots, level, base, c, i, lower)
  {
    hide *;
    i, lower := 0, base;
    SlotEnds(slots, level, base, lower);
    while true
      invariant i <= |slots| && SlotsCounted(slots, level, base, i, lower) && lower <= c
      decreases |slots| - i
    {
      SlotEnds(slots, level, base, lower);
      if slots[i].None? {
        EmptySlotStep(slots, level, base, i, lower);
      } else {
        SlotStep(slots, level, base, i, lower);
        var pop := Population(slots[i].value);
        if lower + pop > c {
          return;
        }
        lower := lower + pop;
      }
      i := i + 1;
    }
  }

  /** Downward from the whole branch, passing over null slots. */
  method ScanSlotsDown(slots: seq<Option<Node>>, level: nat, base: nat, c: nat, pop: nat) returns (i: nat, lower: nat)
    requires Lower(level + 1, Filled(slots)) && pop == CountBelow(Filled(slots), level, |Filled(slots)|) && base <= c < base + pop
    ensures PicksSlot(slots, level, base, c, i, lower)
  {
    hide *;
    i, lower := |slots|, base + pop;
    SlotEnds(slots, level, base, lower);
    while true
      invariant i <= |slots| && SlotsCounted(slots, level, base, i, lower) && c < lower
      decreases i
    {
      SlotEnds(slots, level, base, lower);
      i := i - 1;
      if slots[i].None? {
        EmptySlotStep(slots, level, base, i, lower);
      } else {
        SlotStep(slots, level, base, i, lower);
        lower := lower - Population(slots[i].value);
        SlotStep(slots, level, base, i, lower);
        if lower == 0 || lower - 1 < c {
          return;
        }
      }
    }
  }

  /** Upward or downward, the same slot of an uncompressed branch is picked, and the same rank is left. */
  lemma SameSlot(slots: seq<Option<Node>>, level: nat, base: nat, c: nat, i: nat, lower: nat, i': nat, lower': nat)
    requires Lower(level + 1, Filled(slots))
    requires PicksSlot(slots, level, base, c, i, lower) && PicksSlot(slots, level, base, c, i', lower')
    ensures i == i' && lower == lower'
  {
    hide Indexes, Open, AllIndexes, Lower, Filled, CountBelow, Before, Picks;
    PicksUnique(Filled(slots), level, c - base, Before(slots, i), Before(slots, i'));
  }

  // ---- bitmap leaves ----

  lemma {:induction false} PositionsAt(bits: seq<bool>, i: nat)
    requires i < |bits|
    ensures Positions(bits[..i + 1]) == Positions(bits[..i]) + if bits[i] then [i] else []
    ensures Positions(bits[..i + 1]) <= Positions(bits)
    decreases |bits| - i
  {
    assert bits[..i + 1][..i] == bits[..i];
    if i + 1 < |bits| {
      PositionsAt(bits, i + 1);
    } else {
      assert bits[..i + 1] == bits;
    }
  }

  /** The position of the bit of a given rank: shifts through the bitmap until the rank is used up. */
  method FindDigit(bits: seq<bool>, first: nat, offset: nat) returns (digit: nat)
    requires offset < CountBits(bits)
    ensures digit == first + Positions(bits)[offset]
  {
    var remain: int := offset;
    digit := first;
    assert bits[..|bits|] == bits;
    while true
      invariant first <= digit <= first + |bits| && 0 <= remain == offset - CountBits(bits[..digit - first])
      decreases first + |bits| - digit
    {
      PositionsAt(bits, digit - first);
      remain := remain - if bits[digit - first] then 1 else 0;
      if remain < 0 {
        return;
      }
      digit := digit + 1;
    }
  }

  function LeafStart(bits: seq<seq<bool>>, g: nat): nat
    requires g <= |bits|
  {
    |LeafPositions(bits[..g])|
  }

  lemma {:induction false} LeafPositionsAt(bits: seq<seq<bool>>, g: nat)
    requires g < |bits|
    ensures LeafPositions(bits[..g + 1]) == LeafPositions(bits[..g]) + Shifted(LEAF_BITS * g, Positions(bits[g]))
    ensures LeafPositions(bits[..g + 1]) <= LeafPositions(bits)
    decreases |bits| - g
  {
    assert bits[..g + 1][..g] == bits[..g];
    if g + 1 < |bits| {
      LeafPositionsAt(bits, g + 1);
    } else {
      assert bits[..g + 1] == bits;
    }
  }

  /** Rank c lies in group g of a bitmap leaf, before which there are `lower - base` bits. */
  ghost predicate PicksBits(bits: seq<seq<bool>>, base: nat, c: nat, g: nat, lower: nat) {
    g < |bits| && lower == base + LeafStart(bits, g) && lower <= c < lower + CountBits(bits[g])
  }

  method ScanLeafUp(bits: seq<seq<bool>>, base: nat, c: nat) returns (g: nat, lower: nat)
    requires base <= c < base + |LeafPositions(bits)|
    ensures PicksBits(bits, base, c, g, lower)
  {
    g, lower := 0, base;
    assert bits[..|bits|] == bits;
    while true
      invariant g <= |bits| && lower == base + LeafStart(bits, g) && lower <= c
      decreases |bits| - g
    {
      LeafPositionsAt(bits, g);
      var pop := CountBits(bits[g]);
      if lower + pop > c {
        return;
      }
      lower := lower + pop;
      g := g + 1;
    }
  }

  method ScanLeafDown(bits: seq<seq<bool>>, base: nat, c: nat, pop: nat) returns (g: nat, lower: nat)
    requires pop == |LeafPositions(bits)| && base <= c < base + pop
    ensures PicksBits(bits, base, c, g, lower)
  {
    g, lower := |bits|, base + pop;
    assert bits[..|bits|] == bits;
    while true
      invariant g <= |bits| && lower == base + LeafStart(bits, g) && c < lower
      decreases g
    {
      g := g - 1;
      LeafPositionsAt(bits, g);
      lower := lower - CountBits(bits[g]);
      if lower == 0 || lower - 1 < c {
        return;
      }
    }
  }

  lemma PickedBit(bits: seq<seq<bool>>, base: nat, c: nat, g: nat, lower: nat)
    requires PicksBits(bits, base, c, g, lower) && base <= c
    ensures c - base < |LeafPositions(bits)|
    ensures LeafPositions(bits)[c - base] == LEAF_BITS * g + Positions(bits[g])[c - lower]
  {
    LeafPositionsAt(bits, g);
  }

  // ---- the descent ----

  /** The ordinal falls in the lower half of the population. */
  predicate LowerHalf(count0: nat, lower: nat, pop: nat)
    requires lower <= count0
  {
    count0 - lower < pop / 2
  }

  method BitmapLeafDigit(bits: seq<seq<bool>>, lower: nat, count0: nat) returns (digit: nat)
    requires lower <= count0 < lower + |LeafPositions(bits)|
    ensures digit == LeafPositions(bits)[count0 - lower]
  {
    var pop := |LeafPositions(bits)|;
    var g, below;
    if LowerHalf(count0, lower, pop) {
      g, below := ScanLeafUp(bits, lower, count0);
    } else {
      g, below := ScanLeafDown(bits, lower, count0, pop);
    }
    PickedBit(bits, lower, count0, g, below);
    digit := FindDigit(bits[g], LEAF_BITS * g, count0 - below);
  }

  /** Child `child` of a branch, for digit `digit`, holds the ordinal, and `below` indexes come before it. */
  ghost predicate Descends(entries: seq<Entry>, level: nat, lower: nat, count0: nat, digit: nat, child: Node, below: nat)
    requires Lower(level + 1, entries)
  {
    && Entry(digit, child) in entries
    && lower <= count0 < lower + |AllIndexes(entries, level)|
    && below <= count0 < below + Population(child)
    && AllIndexes(entries, level)[count0 - lower] == digit * Span(level) + Indexes(child)[count0 - below]
  }

  lemma PickDescends(entries: seq<Entry>, level: nat, lower: nat, count0: nat, k: nat)
    requires Lower(level + 1, entries) && lower <= count0 && Picks(entries, level, count0 - lower, k)
    ensures Descends(entries, level, lower, count0, entries[k].digit, entries[k].node, lower + CountBelow(entries, level, k))
  {
    CountStep(entries, level, k);
    PickedIndex(entries, level, count0 - lower, k);
  }

  lemma CountAll(entries: seq<Entry>, level: nat)
    requires Lower(level + 1, entries)
    ensures CountBelow(entries, level, |entries|) == |AllIndexes(entries, level)|
  {
    assert entries[..|entries|] == entries;
  }

  method DescendLinear(entries: seq<Entry>, level: nat, lower: nat, count0: nat) returns (digit: nat, child: Node, below: nat)
    requires Lower(level + 1, entries) && lower <= count0 < lower + |AllIndexes(entries, level)|
    ensures Descends(entries, level, lower, count0, digit, child, below)
  {
    hide *;
    CountAll(entries, level);
    var k;
    k, below := ScanLinear(entries, level, lower, count0);
    PickBound(entries, level, count0 - lower, k);
    digit, child := entries[k].digit, entries[k].node;
    PickDescends(entries, level, lower, count0, k);
  }

  lemma PickBound(entries: seq<Entry>, level: nat, c: nat, k: nat)
    requires Lower(level + 1, entries) && Picks(entries, level, c, k)
    ensures k < |entries|
  {
  }

  method DescendBitmap(groups: seq<Group>, level: nat, lower: nat, count0: nat) returns (digit: nat, child: Node, below: nat)
    requires ProperGroups(groups) && Lower(level + 1, Flatten(groups))
    requires lower <= count0 < lower + |AllIndexes(Flatten(groups), level)|
    ensures Descends(Flatten(groups), level, lower, count0, digit, child, below)
  {
    hide *;
    CountAll(Flatten(groups), level);
    var pop := |AllIndexes(Flatten(groups), level)|;
    var g, j;
    if LowerHalf(count0, lower, pop) {
      g, j, below := ScanBitmapUp(groups, level, lower, count0);
    } else {
      g, j, below := ScanBitmapDown(groups, level, lower, count0, pop);
    }
    PickedInGroup(groups, level, lower, count0, g, j, below);
    digit := FindDigit(groups[g].bits, BRANCH_BITS * g, j);
    child := groups[g].nodes[j];
  }

  lemma PickedInGroup(groups: seq<Group>, level: nat, lower: nat, count0: nat, g: nat, j: nat, below: nat)
    requires ProperGroups(groups) && Lower(level + 1, Flatten(groups)) && PicksInGroup(groups, level, lower, count0, g, j, below)
    ensures g < |groups| && j < |groups[g].nodes| == CountBits(groups[g].bits)
    ensures Descends(Flatten(groups), level, lower, count0, BRANCH_BITS * g + Positions(groups[g].bits)[j], groups[g].nodes[j], below)
  {
    hide AllIndexes, Indexes, Lower, Open, Flatten, Start, Descends, CountBelow, Picks;
    CountBitsIsNodes(groups, g);
    PickDescends(Flatten(groups), level, lower, count0, Start(groups, g) + j);
  }

  method DescendSlots(slots: seq<Option<Node>>, level: nat, lower: nat, count0: nat) returns (digit: nat, child: Node, below: nat)
    requires Lower(level + 1, Filled(slots)) && lower <= count0 < lower + |AllIndexes(Filled(slots), level)|
    ensures Descends(Filled(slots), level, lower, count0, digit, child, below)
  {
    hide *;
    CountAll(Filled(slots), level);
    var pop := |AllIndexes(Filled(slots), level)|;
    if LowerHalf(count0, lower, pop) {
      digit, below := ScanSlotsUp(slots, level, lower, count0);
    } else {
      digit, below := ScanSlotsDown(slots, level, lower, count0, pop);
    }
    PickedSlot(slots, level, lower, count0, digit, below);
    child := slots[digit].value;
  }

  lemma PickedSlot(slots: seq<Option<Node>>, level: nat, lower: nat, count0: nat, i: nat, below: nat)
    requires Lower(level + 1, Filled(slots)) && PicksSlot(slots, level, lower, count0, i, below)
    ensures i < |slots| && slots[i].Some? && Descends(Filled(slots), level, lower, count0, i, slots[i].value, below)
  {
    hide AllIndexes, Indexes, Lower, Open, Filled, Descends, CountBelow, Picks, Before;
    PickBound(Filled(slots), level, count0 - lower, Before(slots, i));
    PickDescends(Filled(slots), level, lower, count0, Before(slots, i));
  }

  lemma BranchOpen(node: Node, lower: nat, count0: nat)
    requires IsBranch(node) && lower <= count0 < lower + Population(node)
    ensures node.state > 0 && Lower(node.state, Entries(node)) && Population(node) == |AllIndexes(Entries(node), node.state - 1)|
    ensures Indexes(node)[count0 - lower] == node.skipped * Span(node.state) + AllIndexes(Entries(node), node.state - 1)[count0 - lower]
  {
    hide AllIndexes, Flatten, Filled, Lower, Span, Entries;
    assert Proper(node);
    assert Indexes(node) == Shifted(node.skipped * Span(node.state), Open(node));
  }

  lemma DescendsDown(node: Node, lower: nat, count0: nat, digit: nat, child: Node, below: nat)
    requires IsBranch(node) && node.state > 0 && Lower(node.state, Entries(node))
    requires Descends(Entries(node), node.state - 1, lower, count0, digit, child, below)
    ensures Entry(digit, child) in Entries(node) && Bytes(child) < node.state && below <= count0 < below + Population(child)
    ensures lower <= count0 < lower + |AllIndexes(Entries(node), node.state - 1)|
    ensures AllIndexes(Entries(node), node.state - 1)[count0 - lower] == digit * Span(node.state - 1) + Indexes(child)[count0 - below]
  {
    var i :| 0 <= i < |Entries(node)| && Entries(node)[i] == Entry(digit, child);
    assert Bytes(Entries(node)[i].node) < node.state;
  }

  /** One branch: the child that holds the ordinal, and the index as its digit and what is left below the child. */
  method Descend(node: Node, ghost level: nat, lower: nat, count0: nat) returns (digit: nat, child: Node, below: nat)
    requires IsBranch(node) && WellFormed(node, level) && lower <= count0 < lower + Population(node)
    ensures node.state > 0 && Bytes(child) < node.state && WellFormed(child, node.state - 1)
    ensures below <= count0 < below + Population(child)
    ensures Indexes(node)[count0 - lower] == node.skipped * Span(node.state) + digit * Span(node.state - 1) + Indexes(child)[count0 - below]
  {
    hide AllIndexes, Indexes, Lower, Open, Flatten, Filled, Population, Descends, Span, ProperGroups, DigitsAscend, DigitsWithin, LowerHalf;
    BranchAscends(node, level);
    BranchOpen(node, lower, count0);
    match node {
      case Linear(state, _, entries) => digit, child, below := DescendLinear(entries, state - 1, lower, count0);
      case Bitmap(state, _, groups) => digit, child, below := DescendBitmap(groups, state - 1, lower, count0);
      case Uncompressed(state, _, slots) => digit, child, below := DescendSlots(slots, state - 1, lower, count0);
    }
    DescendsDown(node, lower, count0, digit, child, below);
  }

  /** The last bytes of the indexes in a leaf. */
  function LeafItems(leaf: Node): seq<nat>
    requires !IsBranch(leaf)
  {
    match leaf case Leaf(_, _, items) => items case BitmapLeaf(_, bits) => LeafPositions(bits)
  }

  lemma LeafOpen(leaf: Node, lower: nat, count0: nat)
    requires !IsBranch(leaf) && lower <= count0 < lower + Population(leaf)
    ensures |LeafItems(leaf)| == Population(leaf)
    ensures Indexes(leaf)[count0 - lower] == leaf.skipped * Span(Bytes(leaf)) + LeafItems(leaf)[count0 - lower]
  {
    hide LeafPositions, AllIndexes, Span;
    assert Proper(leaf) && Open(leaf) == LeafItems(leaf);
    assert Indexes(leaf) == Shifted(leaf.skipped * Span(Bytes(leaf)), LeafItems(leaf));
  }

  method LeafItem(leaf: Node, lower: nat, count0: nat) returns (item: nat)
    requires !IsBranch(leaf) && lower <= count0 < lower + |LeafItems(leaf)|
    ensures item == LeafItems(leaf)[count0 - lower]
  {
    match leaf {
      case Leaf(_, _, items) => item := items[count0 - lower];
      case BitmapLeaf(_, bits) => item := BitmapLeafDigit(bits, lower, count0);
    }
  }

  /** From the root to a leaf; `index` gathers the bytes decided and skipped on the way. */
  method Traverse(root: Node, count0: nat) returns (index: nat)
    requires WellFormed(root, WORD_BYTES) && count0 < Population(root)
    ensures index == Indexes(root)[count0]
  {
    hide Indexes, WellFormed, Span, LeafItems;
    var node: Node, lower: nat := root, 0;
    ghost var level: nat := WORD_BYTES;
    index := 0;
    while IsBranch(node)
      invariant WellFormed(node, level) && lower <= count0 < lower + Population(node)
      invariant Indexes(root)[count0] == index + Indexes(node)[count0 - lower]
      decreases Bytes(node)
    {
      var digit, child, below := Descend(node, level, lower, count0);
      index := index + node.skipped * Span(node.state) + digit * Span(node.state - 1);
      level := node.state - 1;
      node, lower := child, below;
    }
    LeafOpen(node, lower, count0);
    var item := LeafItem(node, lower, count0);
    index := index + node.skipped * Span(Bytes(node)) + item;
  }

  // ---- arrays ----

  const WORD_VALUES: nat := 0x1_0000_0000_0000_0000
  const LEAFW_MAX: nat := 31

  /** An array is empty, or a leaf of words whose first is the population less one, or a tree with its population less one. */
  datatype Array = Empty | WordLeaf(words: seq<nat>) | Tree(pop0: nat, root: Node)

  ghost predicate ValidArray(a: Array) {
    match a
    case Empty => true
    case WordLeaf(words) => 2 <= |words| <= LEAFW_MAX + 1 && words[0] == |words| - 2 && Ascending(words[1..])
    case Tree(pop0, root) => WellFormed(root, WORD_BYTES) && Population(root) == pop0 + 1 < WORD_VALUES
  }

  /** All indexes of an array. */
  function Stored(a: Array): seq<nat> {
    match a
    case Empty => []
    case WordLeaf(words) => if words == [] then [] else words[1..]
    case Tree(_, root) => Indexes(root)
  }

  lemma StoredAscends(a: Array)
    requires ValidArray(a)
    ensures Ascending(Stored(a))
  {
    if a.Tree? {
      IndexesAscend(a.root, WORD_BYTES);
    }
  }

  /** The Count-th smallest index: the one with Count - 1 smaller ones. None is found exactly for ordinals out of range. */
  method ByCount(a: Array, count: nat) returns (r: Option<nat>)
    requires ValidArray(a) && count < WORD_VALUES
    ensures r.Some? <==> 1 <= count <= |Stored(a)|
    ensures r.Some? ==> r.value == Stored(a)[count - 1]
    ensures r.Some? ==> r.value in Stored(a) && |Smaller(Stored(a), r.value)| == count - 1
  {
    hide Indexes, WellFormed, Ascending;
    StoredAscends(a);
    if a.Empty? {
      return None;
    }
    var count0 := (count + WORD_VALUES - 1) % WORD_VALUES;
    var index: nat;
    if a.WordLeaf? {
      if count0 > a.words[0] {
        return None;
      }
      index := a.words[count];
    } else {
      if count0 > a.pop0 {
        return None;
      }
      index := Traverse(a.root, count0);
    }
    assert count > 0 && index == Stored(a)[count - 1];
    RankInAscending(Stored(a), count - 1);
    return Some(index);
  }
}

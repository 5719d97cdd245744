/**
  Looking up one index in a Judy array: the walk from the root, byte by byte, finds exactly the indexes that
  selection by rank counts.
 */
module JudyLookup {
  import opened Wrappers
  import opened JudyTree
  import opened JudyByCount
  import PowersOfTwo

  // ---- division into digits ----

  /** x as a multiple of a span and a rest. */
  lemma Divided(x: nat, span: nat, q: nat, r: nat)
    requires span > 0 && x == q * span + r && r < span
    ensures x / span == q && x % span == r
  {
    PowersOfTwo.QuotientIs(x, span, q, r);
  }

  lemma Undivided(x: nat, span: nat)
    requires span > 0
    ensures x == (x / span) * span + x % span && x % span < span
  {
  }

  lemma SpansOfBytes()
    ensures Span(0) == 1 && Span(1) == 256 && Span(2) == 0x1_0000 && Span(4) == 0x1_0000_0000 && Span(8) == 0x1_0000_0000_0000_0000
  {
    assert Span(3) == 0x100_0000;
    assert Span(5) == 0x100_0000_0000 && Span(6) == 0x1_0000_0000_0000;
  }

  lemma InShifted(base: nat, xs: seq<nat>, x: nat)
    ensures x in Shifted(base, xs) <==> x >= base && (x - base) in xs
  {
    if x >= base && (x - base) in xs {
      var i :| 0 <= i < |xs| && xs[i] == x - base;
      assert Shifted(base, xs)[i] == x;
    }
  }

  /** Numbers after a common digit: the digit is what division by their span yields. */
  lemma AfterDigit(digit: nat, span: nat, xs: seq<nat>, x: nat)
    requires span > 0 && JudyTree.Within(0, span, xs)
    ensures x in Shifted(digit * span, xs) <==> x / span == digit && x % span in xs
  {
    InShifted(digit * span, xs, x);
    Undivided(x, span);
    if x >= digit * span && (x - digit * span) in xs {
      Divided(x, span, digit, x - digit * span);
    }
  }

  // ---- children by digit ----

  lemma {:induction false} InPositions(bits: seq<bool>, k: nat)
    ensures k in Positions(bits) <==> k < |bits| && bits[k]
    ensures k < |bits| && bits[k] ==> |Positions(bits[..k])| < |Positions(bits)| && Positions(bits)[|Positions(bits[..k])|] == k
  {
    if bits != [] {
      var n := |bits| - 1;
      InPositions(bits[..n], k);
      if k < n { assert bits[..n][..k] == bits[..k]; }
    }
  }

  /** The child of a bitmap branch: present if its bit is set, at the rank of the bit in its group. */
  lemma {:induction false} InFlatten(groups: seq<Group>, e: Entry)
    requires ProperGroups(groups)
    ensures e in Flatten(groups) <==> e.digit / BRANCH_BITS < |groups| && InGroup(groups[e.digit / BRANCH_BITS], e.digit % BRANCH_BITS, e.node)
  {
    if groups != [] {
      var n := |groups| - 1;
      InFlatten(groups[..n], e);
      InGroupEntries(groups[n], n, e);
    }
  }

  predicate InGroup(group: Group, k: nat, node: Node) {
    k < |group.bits| && group.bits[k] && |Positions(group.bits[..k])| < |group.nodes| && group.nodes[|Positions(group.bits[..k])|] == node
  }

  lemma InGroupEntries(group: Group, g: nat, e: Entry)
    requires ProperGroup(group)
    ensures e in GroupEntries(group, g) <==> e.digit / BRANCH_BITS == g && InGroup(group, e.digit % BRANCH_BITS, e.node)
  {
    var k := e.digit % BRANCH_BITS;
    if e in GroupEntries(group, g) {
      var j :| 0 <= j < |group.nodes| && GroupEntries(group, g)[j] == e;
      var p := Positions(group.bits)[j];
      InPositions(group.bits, p);
      PositionsAscend(group.bits);
      assert e.digit == BRANCH_BITS * g + p;
      SamePosition(group.bits, j, |Positions(group.bits[..p])|);
    }
    if e.digit / BRANCH_BITS == g && InGroup(group, k, e.node) {
      InPositions(group.bits, k);
      assert GroupEntries(group, g)[|Positions(group.bits[..k])|] == e;
    }
  }

  lemma SamePosition(bits: seq<bool>, i: nat, j: nat)
    requires i < |Positions(bits)| && j < |Positions(bits)| && Positions(bits)[i] == Positions(bits)[j]
    ensures i == j
  {
    PositionsAscend(bits);
  }

  lemma {:induction false} InFilled(slots: seq<Option<Node>>, e: Entry)
    ensures e in Filled(slots) <==> e.digit < |slots| && slots[e.digit] == Some(e.node)
  {
    if slots != [] {
      InFilled(slots[..|slots| - 1], e);
    }
  }

  /** The child of a branch for a digit: a search in a list, a bit and its rank, or a slot. */
  method FindChild(n: Node, ghost level: nat, digit: nat) returns (child: Option<Node>)
    requires IsBranch(n) && WellFormed(n, level) && digit < 256
    ensures child.Some? ==> Entry(digit, child.value) in Entries(n)
    ensures child.None? ==> forall e :: e in Entries(n) ==> e.digit != digit
  {
    match n {
      case Linear(_, _, entries) =>
        for i := 0 to |entries|
          invariant forall j :: 0 <= j < i ==> entries[j].digit != digit
        {
          if entries[i].digit == digit {
            return Some(entries[i].node);
          }
        }
        child := None;
      case Bitmap(_, _, groups) =>
        var group, k := groups[digit / BRANCH_BITS], digit % BRANCH_BITS;
        forall e | e in Flatten(groups) ensures e.digit == digit ==> group.bits[k] {
          InFlatten(groups, e);
        }
        if !group.bits[k] {
          return None;
        }
        var below := CountBits(group.bits[..k]);
        InPositions(group.bits, k);
        InFlatten(groups, Entry(digit, group.nodes[below]));
        child := Some(group.nodes[below]);
      case Uncompressed(_, _, slots) =>
        forall e | e in Filled(slots) ensures e.digit == digit ==> slots[digit].Some? {
          InFilled(slots, e);
        }
        child := slots[digit];
        if child.Some? { InFilled(slots, Entry(digit, child.value)); }
    }
  }

  // ---- leaves ----

  lemma LeafBit(n: nat, x: nat)
    ensures x / LEAF_BITS < n + 1 <==> x < LEAF_BITS * n + LEAF_BITS
    ensures x / LEAF_BITS < n <==> x < LEAF_BITS * n
    ensures x / LEAF_BITS == n ==> x >= LEAF_BITS * n && x % LEAF_BITS == x - LEAF_BITS * n
  {
  }

  predicate LeafBitSet(bits: seq<seq<bool>>, x: nat) {
    x / LEAF_BITS < |bits| && x % LEAF_BITS < |bits[x / LEAF_BITS]| && bits[x / LEAF_BITS][x % LEAF_BITS]
  }

  lemma {:induction false} InLeafPositions(bits: seq<seq<bool>>, x: nat)
    requires ProperBits(bits)
    ensures x in LeafPositions(bits) <==> LeafBitSet(bits, x)
  {
    if bits != [] {
      var n := |bits| - 1;
      InLeafPositions(bits[..n], x);
      InShifted(LEAF_BITS * n, Positions(bits[n]), x);
      if x >= LEAF_BITS * n { InPositions(bits[n], x - LEAF_BITS * n); }
      LeafBit(n, x);
      hide Positions;
      assert bits[n] in bits && |bits[n]| == LEAF_BITS;
      if x < LEAF_BITS * n { EarlierBit(bits, n, x); }
    }
  }

  lemma EarlierBit(bits: seq<seq<bool>>, n: nat, x: nat)
    requires n <= |bits| && x < LEAF_BITS * n
    ensures LeafBitSet(bits[..n], x) <==> LeafBitSet(bits, x)
  {
    LeafBit(n, x);
  }

  method InLeaf(leaf: Node, ghost level: nat, x: nat) returns (found: bool)
    requires !IsBranch(leaf) && WellFormed(leaf, level) && x < Span(Bytes(leaf))
    ensures found <==> x in Open(leaf)
  {
    match leaf {
      case Leaf(_, _, items) =>
        for i := 0 to |items|
          invariant x !in items[..i]
        {
          if items[i] == x {
            return true;
          }
        }
        assert items[..|items|] == items;
        found := false;
      case BitmapLeaf(_, bits) =>
        InLeafPositions(bits, x);
        LeafBit(3, x);
        SpansOfBytes();
        found := bits[x / LEAF_BITS][x % LEAF_BITS];
    }
  }

  // ---- the walk ----

  lemma InNode(n: Node, level: nat, x: nat)
    requires WellFormed(n, level)
    ensures Proper(n) && JudyTree.Within(0, Span(Bytes(n)), Open(n))
    ensures x in Indexes(n) <==> x / Span(Bytes(n)) == n.skipped && x % Span(Bytes(n)) in Open(n)
  {
    OpenAscends(n, level);
    AfterDigit(n.skipped, Span(Bytes(n)), Open(n), x);
  }

  lemma OpenAscends(n: Node, level: nat)
    requires WellFormed(n, level)
    ensures Proper(n) && JudyTree.Within(0, Span(Bytes(n)), Open(n))
  {
    match n {
      case Leaf(_, _, _) =>
      case BitmapLeaf(_, bits) =>
        LeafPositionsAscend(bits);
        SpansOfBytes();
      case _ =>
        BranchOpen(n, level);
    }
  }

  lemma BranchOpen(n: Node, level: nat)
    requires IsBranch(n) && WellFormed(n, level)
    ensures Proper(n) && JudyTree.Within(0, Span(Bytes(n)), Open(n))
  {
    BranchAscends(n, level);
    hide WellFormed, Entries;
    AllAscend(Entries(n), n.state - 1, 256);
    assert Open(n) == AllIndexes(Entries(n), n.state - 1);
    hide Open, AllIndexes;
  }

  /** x leads to this child, and is found below it. */
  predicate IsBelow(e: Entry, level: nat, x: nat) {
    e.digit == x / Span(level) && x % Span(level) in Indexes(e.node)
  }

  /** A number below a branch is below the child of its digit. */
  lemma {:induction false} InAllIndexes(entries: seq<Entry>, level: nat, x: nat)
    requires Lower(level + 1, entries) && forall e :: e in entries ==> WellFormed(e.node, level)
    ensures x in AllIndexes(entries, level) <==> exists i :: 0 <= i < |entries| && IsBelow(entries[i], level, x)
    decreases |entries|
  {
    hide WellFormed, Indexes, Span, IsBelow, Shifted;
    if entries != [] {
      var k := |entries| - 1;
      InAllIndexes(entries[..k], level, x);
      LastIndexes(entries[k], level, x);
      LastStep(entries, level);
      hide AllIndexes;
      assert forall i :: 0 <= i < k ==> entries[..k][i] == entries[i];
    }
  }

  lemma LastStep(entries: seq<Entry>, level: nat)
    requires entries != [] && Lower(level + 1, entries)
    ensures var k := |entries| - 1;
      AllIndexes(entries, level) == AllIndexes(entries[..k], level) + Shifted(entries[k].digit * Span(level), Indexes(entries[k].node))
  {
  }

  lemma LastIndexes(e: Entry, level: nat, x: nat)
    requires WellFormed(e.node, level)
    ensures x in Shifted(e.digit * Span(level), Indexes(e.node)) <==> IsBelow(e, level, x)
  {
    IndexesAscend(e.node, level);
    AfterDigit(e.digit, Span(level), Indexes(e.node), x);
  }

  lemma InBranch(n: Node, level: nat, x: nat, child: Option<Node>)
    requires IsBranch(n) && WellFormed(n, level) && n.state > 0
    requires child.Some? ==> Entry(x / Span(n.state - 1), child.value) in Entries(n)
    requires child.None? ==> forall e :: e in Entries(n) ==> e.digit != x / Span(n.state - 1)
    ensures Proper(n) && (x in Open(n) <==> child.Some? && x % Span(n.state - 1) in Indexes(child.value))
    ensures child.Some? ==> WellFormed(child.value, n.state - 1)
  {
    BranchAscends(n, level);
    var entries := Entries(n);
    InAllIndexes(entries, n.state - 1, x);
    assert Open(n) == AllIndexes(entries, n.state - 1);
    hide WellFormed, Indexes, Span, Open, AllIndexes, Entries;
    if child.Some? {
      var mine := Entry(x / Span(n.state - 1), child.value);
      forall i | 0 <= i < |entries| && entries[i].digit == mine.digit ensures entries[i] == mine {
        OneChildPerDigit(entries, entries[i], mine);
      }
    }
  }

  lemma OneChildPerDigit(entries: seq<Entry>, a: Entry, b: Entry)
    requires DigitsAscend(entries) && a in entries && b in entries && a.digit == b.digit
    ensures a == b
  {
    var i :| 0 <= i < |entries| && entries[i] == a;
    var j :| 0 <= j < |entries| && entries[j] == b;
    assert !(i < j) && !(j < i);
  }

  lemma DigitInRange(x: nat, bytes: nat)
    requires bytes > 0 && x < Span(bytes)
    ensures x / Span(bytes - 1) < 256
  {
    Undivided(x, Span(bytes - 1));
    if x / Span(bytes - 1) >= 256 { ProductGrows(256, x / Span(bytes - 1), Span(bytes - 1)); }
  }

  lemma BranchState(n: Node, level: nat)
    requires IsBranch(n) && WellFormed(n, level)
    ensures n.state > 0 && Bytes(n) == n.state
  {
    BranchAscends(n, level);
  }

  lemma ChildIsLower(n: Node, level: nat, digit: nat, child: Node)
    requires IsBranch(n) && WellFormed(n, level) && Entry(digit, child) in Entries(n)
    ensures Bytes(child) < Bytes(n)
  {
    BranchAscends(n, level);
    var i :| 0 <= i < |Entries(n)| && Entries(n)[i] == Entry(digit, child);
  }

  /** Looks an index up: at every node the bytes it skips must agree, then the next byte leads to a child. */
  method Walk(root: Node, ghost level: nat, x: nat) returns (found: bool)
    requires WellFormed(root, level) && x < Span(level)
    ensures found <==> x in Indexes(root)
  {
    hide WellFormed, Indexes, Open, Entries, Proper;
    var n: Node, low: nat := root, x;
    ghost var l: nat := level;
    while true
      invariant WellFormed(n, l) && (x in Indexes(root) <==> low in Indexes(n))
      decreases Bytes(n)
    {
      InNode(n, l, low);
      if low / Span(Bytes(n)) != n.skipped {
        return false;
      }
      low := low % Span(Bytes(n));
      if !IsBranch(n) {
        found := InLeaf(n, l, low);
        return;
      }
      BranchState(n, l);
      DigitInRange(low, n.state);
      var child := FindChild(n, l, low / Span(n.state - 1));
      InBranch(n, l, low, child);
      if child.None? {
        return false;
      }
      ChildIsLower(n, l, low / Span(n.state - 1), child.value);
      low := low % Span(n.state - 1);
      l := n.state - 1;
      n := child.value;
    }
  }

  /** Looking up finds just the indexes that selection by rank counts. */
  method Get(a: Array, index: nat) returns (found: bool)
    requires ValidArray(a) && index < WORD_VALUES
    ensures found <==> index in Stored(a)
  {
    hide Indexes, WellFormed;
    SpansOfBytes();
    match a {
      case Empty => found := false;
      case WordLeaf(words) => found := index in words[1..];
      case Tree(_, root) => found := Walk(root, WORD_BYTES, index);
    }
  }
}

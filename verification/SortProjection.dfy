/**
  Sorting a projection: an integer vector of row numbers is sorted by the rows it points to, in up to sixteen
  value columns, lexicographically.
 */
module SortProjection {
  import opened CustomSort

  datatype Outcome = Done | NothingToSort | ColumnLengthsDiffer | OutOfBounds | ReadsPastColumns

  type Columns = cs: seq<seq<int>> | 1 <= |cs| <= 16 witness [[]]

  /** The cell of one row; rows outside the column are never asked for by a sort in bounds. */
  function Cell(column: seq<int>, row: int): int {
    if 0 <= row < |column| then column[row] else 0
  }

  function Row(columns: seq<seq<int>>, row: int): (r: seq<int>)
    ensures |r| == |columns|
    ensures forall k :: 0 <= k < |columns| ==> r[k] == Cell(columns[k], row)
  {
    seq(|columns|, k requires 0 <= k < |columns| => Cell(columns[k], row))
  }

  function CompareInts(x: int, y: int): int {
    if x == y then 0 else if x < y then -1 else 1
  }

  /** The comparison callback: the first column from i on that tells the rows apart decides. */
  function CompareFrom(columns: seq<seq<int>>, x: int, y: int, i: nat): int
    requires i <= |columns|
    decreases |columns| - i
  {
    if i == |columns| then 0 else
      var c := CompareInts(Cell(columns[i], x), Cell(columns[i], y));
      if c != 0 then c else CompareFrom(columns, x, y, i + 1)
  }

  function RowComparator(columns: Columns): Comparator<int> {
    (x, y) => Compared(CompareFrom(columns, x, y, 0), true)
  }

  /** Lexicographic order of rows. */
  ghost predicate LexLe(s: seq<int>, t: seq<int>) {
    s == t || exists k :: 0 <= k < |s| && k < |t| && s[..k] == t[..k] && s[k] < t[k]
  }

  /** What the comparison callback computes is the lexicographic order, whatever the rows. */
  lemma {:induction false} CompareFromIsLex(columns: seq<seq<int>>, x: int, y: int, i: nat)
    requires i <= |columns| && Row(columns, x)[..i] == Row(columns, y)[..i]
    ensures CompareFrom(columns, x, y, i) <= 0 <==> LexLe(Row(columns, x), Row(columns, y))
    decreases |columns| - i
  {
    var s, t := Row(columns, x), Row(columns, y);
    if i == |columns| {
      assert s == s[..i] && t == t[..i];
    } else if s[i] == t[i] {
      assert s[..i + 1] == s[..i] + [s[i]] && t[..i + 1] == t[..i] + [t[i]];
      CompareFromIsLex(columns, x, y, i + 1);
    } else {
      if LexLe(s, t) {
        var k :| 0 <= k < |s| && k < |t| && s[..k] == t[..k] && s[k] < t[k];
        assert k == i;
      }
    }
  }

  lemma {:induction false} CompareFlips(columns: seq<seq<int>>, x: int, y: int, i: nat)
    requires i <= |columns|
    ensures CompareFrom(columns, y, x, i) == -CompareFrom(columns, x, y, i)
    decreases |columns| - i
  {
    if i < |columns| { CompareFlips(columns, x, y, i + 1); }
  }

  lemma {:induction false} CompareTransitive(columns: seq<seq<int>>, x: int, y: int, z: int, i: nat)
    requires i <= |columns| && CompareFrom(columns, x, y, i) <= 0 && CompareFrom(columns, y, z, i) <= 0
    ensures CompareFrom(columns, x, z, i) <= 0
    decreases |columns| - i
  {
    if i < |columns| && Cell(columns[i], x) == Cell(columns[i], y) == Cell(columns[i], z) {
      CompareTransitive(columns, x, y, z, i + 1);
    }
  }

  lemma RowComparatorIsConsistent(columns: Columns)
    ensures Consistent(RowComparator(columns))
  {
    var cmp := RowComparator(columns);
    forall x, y ensures cmp(x, y).sign >= 0 <==> Le(cmp, y, x) {
      CompareFlips(columns, x, y, 0);
    }
    forall x, y, z | Le(cmp, x, y) && Le(cmp, y, z) ensures Le(cmp, x, z) {
      CompareTransitive(columns, x, y, z, 0);
    }
  }

  // ---- the bounds check ----

  ghost predicate AllRowsExist(p: seq<int>, nRows: nat) {
    forall i :: 0 <= i < |p| ==> 0 <= p[i] < nRows
  }

  /** What the check really tests: it looks at no upper bound when the projection's type is signed. */
  ghost predicate CheckPasses(p: seq<int>, signed: bool, nRows: nat) {
    if signed then (forall i :: 0 <= i < |p| ==> 0 <= p[i]) && 0 < nRows
    else forall i :: 0 <= i < |p| ==> p[i] < nRows
  }

  /** The minimum is taken over signed values and the maximum over unsigned ones; the other stays 0. */
  method CheckBounds(p: array<int>, signed: bool, nRows: nat) returns (inBounds: bool)
    requires p.Length > 0
    requires !signed ==> forall i :: 0 <= i < p.Length ==> 0 <= p[i]
    ensures inBounds <==> CheckPasses(p[..], signed, nRows)
  {
    var pMin, pMax := 0, 0;
    for i := 0 to p.Length
      invariant signed ==> pMax == 0 && forall k :: 0 <= k < i ==> pMin <= p[k]
      invariant signed && i > 0 ==> exists k :: 0 <= k < i && pMin == p[k]
      invariant !signed ==> pMin == 0 && forall k :: 0 <= k < i ==> p[k] <= pMax
      invariant !signed && i > 0 ==> exists k :: 0 <= k < i && pMax == p[k]
    {
      var a, b := if signed then p[i] else 0, if signed then 0 else p[i];
      if i == 0 || a < pMin {
        pMin := a;
      }
      if i == 0 || b > pMax {
        pMax := b;
      }
    }
    inBounds := 0 <= pMin && pMax < nRows;
  }

  /** The check is exact for unsigned projections; for signed ones it lets rows past the end through. */
  lemma CheckIsExactUnless(p: seq<int>, signed: bool, nRows: nat)
    requires |p| > 0 && (!signed ==> forall i :: 0 <= i < |p| ==> 0 <= p[i])
    ensures (CheckPasses(p, signed, nRows) <==> AllRowsExist(p, nRows))
            <==> !(signed && 0 < nRows && (forall i :: 0 <= i < |p| ==> 0 <= p[i]) && exists i :: 0 <= i < |p| && p[i] >= nRows)
  {
    assert AllRowsExist(p, nRows) ==> 0 <= p[0] < nRows;
  }

  /** A signed projection [5] over columns of one row passes the check. */
  lemma CheckMissesRowPastEnd()
    ensures CheckPasses([5], true, 1) && !AllRowsExist([5], 1)
  {
    assert [5][0] == 5;
  }

  // ---- sort_proj ----

  method SortProj(p: array<int>, signed: bool, columns: Columns) returns (r: Outcome)
    requires !signed ==> forall i :: 0 <= i < p.Length ==> 0 <= p[i]
    modifies p
    ensures r == ColumnLengthsDiffer <==> exists k :: 0 <= k < |columns| && |columns[k]| != |columns[0]|
    ensures r == NothingToSort ==> p.Length == 0
    ensures r == OutOfBounds ==> !AllRowsExist(old(p[..]), |columns[0]|)
    ensures r == ReadsPastColumns ==> signed && !AllRowsExist(old(p[..]), |columns[0]|)
    ensures r == Done <==> (forall k :: 0 <= k < |columns| ==> |columns[k]| == |columns[0]|)
                           && p.Length > 0 && AllRowsExist(old(p[..]), |columns[0]|)
    ensures r != Done ==> p[..] == old(p[..])
    ensures multiset(p[..]) == multiset(old(p[..]))
    ensures r == Done ==> forall i, j :: 0 <= i < j < p.Length ==> LexLe(Row(columns, p[i]), Row(columns, p[j]))
  {
    for k := 1 to |columns|
      invariant forall m :: 0 <= m < k ==> |columns[m]| == |columns[0]|
    {
      if |columns[0]| != |columns[k]| {
        return ColumnLengthsDiffer;
      }
    }
    if p.Length == 0 {
      return NothingToSort;
    }
    var inBounds := CheckBounds(p, signed, |columns[0]|);
    CheckIsExactUnless(p[..], signed, |columns[0]|);
    if !inBounds {
      return OutOfBounds;
    }
    var past := exists i :: 0 <= i < p.Length && p[i] >= |columns[0]|;
    if past {
      return ReadsPastColumns;
    }
    SortRows(p, columns);
    r := Done;
  }

  method SortRows(p: array<int>, columns: Columns)
    modifies p
    ensures multiset(p[..]) == multiset(old(p[..]))
    ensures forall i, j :: 0 <= i < j < p.Length ==> LexLe(Row(columns, p[i]), Row(columns, p[j]))
  {
    ghost var was := p[..];
    var cmp := RowComparator(columns);
    RowComparatorIsConsistent(columns);
    var _ := Sort(p, p.Length, cmp);
    assert p[..] == p[0..p.Length] && was == was[0..p.Length];
    forall i, j | 0 <= i < j < p.Length ensures LexLe(Row(columns, p[i]), Row(columns, p[j])) {
      assert Le(cmp, p[..][i], p[..][j]);
      CompareFromIsLex(columns, p[i], p[j], 0);
    }
  }
}

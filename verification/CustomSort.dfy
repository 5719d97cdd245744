/**
  The in-place quicksort after Bentley and McIlroy: insertion sort below seven items, an early exit for
  sorted input, a median-of-three or pseudo-median-of-nine pivot, a partition that parks keys equal to the
  pivot at both ends and swaps them into the middle, recursion into the left part and a loop for the right.

  A comparison writes an order and returns a flag; flag false means that the comparator failed.
 */
module CustomSort {

  datatype Compared = Compared(sign: int, ok: bool)

  type Comparator<!T> = (T, T) -> Compared

  ghost predicate Le<T>(cmp: Comparator<T>, x: T, y: T) {
    cmp(x, y).sign <= 0
  }

  /** The comparator never fails and is a total preorder. */
  ghost predicate Consistent<T(!new)>(cmp: Comparator<T>) {
    && (forall x, y :: cmp(x, y).ok)
    && (forall x, y :: cmp(x, y).sign >= 0 <==> Le(cmp, y, x))
    && (forall x, y, z :: Le(cmp, x, y) && Le(cmp, y, z) ==> Le(cmp, x, z))
  }

  ghost predicate Sorted<T>(cmp: Comparator<T>, s: seq<T>, lo: int, hi: int)
    requires 0 <= lo && hi <= |s|
  {
    forall i, j :: lo <= i < j < hi ==> Le(cmp, s[i], s[j])
  }

  // ---- permutations of a range ----

  /** t is s with the elements of [lo, hi) rearranged and nothing else touched. */
  ghost predicate Permuted<T>(s: seq<T>, t: seq<T>, lo: int, hi: int) {
    && 0 <= lo <= hi <= |s| == |t|
    && s[..lo] == t[..lo] && s[hi..] == t[hi..]
    && multiset(s[lo..hi]) == multiset(t[lo..hi])
  }

  lemma PermutedRefl<T>(s: seq<T>, lo: int, hi: int)
    requires 0 <= lo <= hi <= |s|
    ensures Permuted(s, s, lo, hi)
  {
  }

  lemma PermutedTrans<T>(s: seq<T>, t: seq<T>, u: seq<T>, lo: int, hi: int)
    requires Permuted(s, t, lo, hi) && Permuted(t, u, lo, hi)
    ensures Permuted(s, u, lo, hi)
  {
  }

  lemma PermutedWiden<T>(s: seq<T>, t: seq<T>, lo: int, hi: int, lo': int, hi': int)
    requires Permuted(s, t, lo, hi) && 0 <= lo' <= lo && hi <= hi' <= |s|
    ensures Permuted(s, t, lo', hi')
  {
    assert s[lo'..hi'] == s[..lo][lo'..] + s[lo..hi] + s[hi..][..hi' - hi];
    assert t[lo'..hi'] == t[..lo][lo'..] + t[lo..hi] + t[hi..][..hi' - hi];
    assert s[..lo'] == s[..lo][..lo'] && t[..lo'] == t[..lo][..lo'];
    assert s[hi'..] == s[hi..][hi' - hi..] && t[hi'..] == t[hi..][hi' - hi..];
  }

  function Swapped<T>(s: seq<T>, i: int, j: int): seq<T>
    requires 0 <= i < |s| && 0 <= j < |s|
  {
    s[i := s[j]][j := s[i]]
  }

  lemma SwapPermutes<T>(s: seq<T>, i: int, j: int, lo: int, hi: int)
    requires 0 <= lo <= i < hi <= |s| && lo <= j < hi
    ensures Permuted(s, Swapped(s, i, j), lo, hi)
  {
    var t := s[i := s[j]][j := s[i]];
    assert t[lo..hi] == s[lo..hi][i - lo := s[j]][j - lo := s[i]];
  }

  lemma SwapStep<T>(was: seq<T>, s: seq<T>, i: int, j: int, lo: int, hi: int)
    requires Permuted(was, s, lo, hi) && 0 <= lo <= i < hi <= |s| && lo <= j < hi
    ensures Permuted(was, Swapped(s, i, j), lo, hi)
  {
    SwapPermutes(s, i, j, lo, hi);
    PermutedTrans(was, s, Swapped(s, i, j), lo, hi);
  }

  /** What holds of every element of a range still holds after rearranging it. */
  lemma PermutedKeeps<T>(s: seq<T>, t: seq<T>, lo: int, hi: int, p: T -> bool)
    requires Permuted(s, t, lo, hi)
    requires forall k :: lo <= k < hi ==> p(s[k])
    ensures forall k :: lo <= k < hi ==> p(t[k])
  {
    forall k | lo <= k < hi ensures p(t[k]) {
      assert t[k] in multiset(t[lo..hi]) by { assert t[lo..hi][k - lo] == t[k]; }
      assert t[k] in multiset(s[lo..hi]);
      var m :| 0 <= m < hi - lo && s[lo..hi][m] == t[k];
      assert s[lo + m] == t[k];
    }
  }

  lemma PermutedOutside<T>(s: seq<T>, t: seq<T>, lo: int, hi: int)
    requires Permuted(s, t, lo, hi)
    ensures forall k :: 0 <= k < lo || hi <= k < |s| ==> s[k] == t[k]
  {
    forall k | 0 <= k < lo ensures s[k] == t[k] { assert s[..lo][k] == t[..lo][k]; }
    forall k | hi <= k < |s| ensures s[k] == t[k] { assert s[hi..][k - hi] == t[hi..][k - hi]; }
  }

  /** The swap callback; as a step of a rearrangement of [lo, hi) that began at `was`. */
  method Swap<T>(a: array<T>, i: int, j: int, ghost was: seq<T>, ghost lo: int, ghost hi: int)
    requires 0 <= lo <= i < hi <= a.Length && lo <= j < hi
    requires Permuted(was, a[..], lo, hi)
    modifies a
    ensures a[..] == Swapped(old(a[..]), i, j)
    ensures Permuted(was, a[..], lo, hi)
  {
    ghost var s := a[..];
    SwapStep(was, s, i, j, lo, hi);
    a[i], a[j] := a[j], a[i];
    assert a[..] == Swapped(s, i, j);
  }

  // ---- pivot choice ----

  ghost predicate Between<T>(cmp: Comparator<T>, x: T, y: T, z: T) {
    (Le(cmp, x, y) && Le(cmp, y, z)) || (Le(cmp, z, y) && Le(cmp, y, x))
  }

  /** The index of the median of three elements, or -1 if a comparison failed. */
  method Med3<T(!new)>(a: array<T>, i: int, j: int, k: int, cmp: Comparator<T>) returns (m: int)
    requires 0 <= i < a.Length && 0 <= j < a.Length && 0 <= k < a.Length
    ensures m == -1 || m == i || m == j || m == k
    ensures Consistent(cmp) ==>
      || (m == j && Between(cmp, a[i], a[j], a[k]))
      || (m == i && Between(cmp, a[j], a[i], a[k]))
      || (m == k && Between(cmp, a[i], a[k], a[j]))
  {
    var isError := !cmp(a[i], a[j]).ok;
    if cmp(a[i], a[j]).sign < 0 {
      isError := isError || !cmp(a[j], a[k]).ok;
      if cmp(a[j], a[k]).sign < 0 {
        m := j;
      } else {
        isError := isError || !cmp(a[i], a[k]).ok;
        m := if cmp(a[i], a[k]).sign < 0 then k else i;
      }
    } else {
      isError := isError || !cmp(a[j], a[k]).ok;
      if cmp(a[j], a[k]).sign > 0 {
        m := j;
      } else {
        isError := isError || !cmp(a[i], a[k]).ok;
        m := if cmp(a[i], a[k]).sign < 0 then i else k;
      }
    }
    if isError {
      return -1;
    }
  }

  /** The pivot's index: the middle, a median of three, or from 41 items on a median of three medians; -1 on failure. */
  method ChoosePivot<T(!new)>(a: array<T>, lo: int, n: int, cmp: Comparator<T>) returns (pm: int)
    requires 7 <= n && 0 <= lo && lo + n <= a.Length
    ensures pm == -1 || lo <= pm < lo + n
    ensures Consistent(cmp) ==> pm != -1
  {
    pm := lo + n / 2;
    if n > 7 {
      var pl := lo;
      var pn := lo + (n - 1);
      if n > 40 {
        var d := n / 8;
        pl := Med3(a, pl, pl + d, pl + 2 * d, cmp);
        pm := Med3(a, pm - d, pm, pm + d, cmp);
        pn := Med3(a, pn - 2 * d, pn - d, pn, cmp);
        if pl == -1 || pm == -1 || pn == -1 {
          return -1;
        }
      }
      pm := Med3(a, pl, pm, pn, cmp);
    }
  }

  // ---- short and presorted ranges ----

  /** What came of a run of comparisons and swaps: the sequence, the result, and whether any comparison failed. */
  datatype Run<T> = Run(s: seq<T>, ok: bool, isError: bool)

  /** The element at k sinks to its place. A failure is acted upon only when an inversion is reported. */
  function Sunk<T>(cmp: Comparator<T>, s: seq<T>, lo: int, k: int, isError: bool): (r: Run<T>)
    requires 0 <= lo <= k < |s|
    ensures |r.s| == |s|
    decreases k
  {
    if k == lo then Run(s, true, isError)
    else
      var e := isError || !cmp(s[k - 1], s[k]).ok;
      if cmp(s[k - 1], s[k]).sign <= 0 then Run(s, true, e)
      else if e then Run(s, false, e)
      else Sunk(cmp, Swapped(s, k, k - 1), lo, k - 1, e)
  }

  function Inserted<T>(cmp: Comparator<T>, s: seq<T>, lo: int, hi: int, k: int, isError: bool): (r: Run<T>)
    requires 0 <= lo < k && hi <= |s|
    decreases hi - k
  {
    if k >= hi then Run(s, true, isError)
    else
      var r := Sunk(cmp, s, lo, k, isError);
      if r.ok then Inserted(cmp, r.s, lo, hi, k + 1, r.isError) else r
  }

  lemma SunkStep<T>(cmp: Comparator<T>, s: seq<T>, lo: int, k: int, isError: bool)
    requires 0 <= lo < k < |s|
    ensures var e := isError || !cmp(s[k - 1], s[k]).ok;
      Sunk(cmp, s, lo, k, isError) ==
        if cmp(s[k - 1], s[k]).sign <= 0 then Run(s, true, e)
        else if e then Run(s, false, e)
        else Sunk(cmp, Swapped(s, k, k - 1), lo, k - 1, e)
  {
  }

  lemma SunkDone<T>(cmp: Comparator<T>, s: seq<T>, lo: int, isError: bool)
    requires 0 <= lo < |s|
    ensures Sunk(cmp, s, lo, lo, isError) == Run(s, true, isError)
  {
  }

  lemma InsertedStep<T>(cmp: Comparator<T>, s: seq<T>, lo: int, hi: int, k: int, isError: bool)
    requires 0 <= lo < k && hi <= |s|
    ensures Inserted(cmp, s, lo, hi, k, isError) ==
      if k >= hi then Run(s, true, isError)
      else
        var r := Sunk(cmp, s, lo, k, isError);
        if r.ok then Inserted(cmp, r.s, lo, hi, k + 1, r.isError) else r
  {
  }

  lemma SortedShort<T>(cmp: Comparator<T>, s: seq<T>, lo: int, hi: int)
    requires 0 <= lo && hi <= |s| && hi <= lo + 1
    ensures Sorted(cmp, s, lo, hi)
  {
  }

  /** Insertion sort of the range [lo, hi). */
  function InsertionRun<T>(cmp: Comparator<T>, s: seq<T>, lo: int, hi: int): Run<T>
    requires 0 <= lo && hi <= |s|
  {
    Inserted(cmp, s, lo, hi, lo + 1, false)
  }

  /** A comparator that reports an inversion whenever it fails. */
  ghost predicate Loud<T(!new)>(cmp: Comparator<T>) {
    forall x, y :: !cmp(x, y).ok ==> cmp(x, y).sign > 0
  }

  lemma {:induction false} SunkNotices<T(!new)>(cmp: Comparator<T>, s: seq<T>, lo: int, k: int, isError: bool)
    requires 0 <= lo <= k < |s|
    ensures !Sunk(cmp, s, lo, k, isError).ok ==> Sunk(cmp, s, lo, k, isError).isError
    ensures Loud(cmp) && !isError ==> (Sunk(cmp, s, lo, k, isError).ok <==> !Sunk(cmp, s, lo, k, isError).isError)
    decreases k
  {
    if k > lo && cmp(s[k - 1], s[k]).sign > 0 && !isError && cmp(s[k - 1], s[k]).ok {
      SunkNotices(cmp, Swapped(s, k, k - 1), lo, k - 1, false);
    }
  }

  lemma {:induction false} InsertedNotices<T(!new)>(cmp: Comparator<T>, s: seq<T>, lo: int, hi: int, k: int, isError: bool)
    requires 0 <= lo < k && hi <= |s|
    ensures !Inserted(cmp, s, lo, hi, k, isError).ok ==> Inserted(cmp, s, lo, hi, k, isError).isError
    ensures Loud(cmp) && !isError ==> (Inserted(cmp, s, lo, hi, k, isError).ok <==> !Inserted(cmp, s, lo, hi, k, isError).isError)
    decreases hi - k
  {
    if k < hi {
      SunkNotices(cmp, s, lo, k, isError);
      var r := Sunk(cmp, s, lo, k, isError);
      if r.ok { InsertedNotices(cmp, r.s, lo, hi, k + 1, r.isError); }
    }
  }

  /** Insertion sort reports failure exactly when a comparison failed. */
  ghost predicate FailuresNoticed<T(!new)>(cmp: Comparator<T>) {
    forall s: seq<T>, lo, hi :: 0 <= lo && hi <= |s| ==>
      (InsertionRun(cmp, s, lo, hi).ok <==> !InsertionRun(cmp, s, lo, hi).isError)
  }

  /** Insertion sort of two elements whose comparison fails without an inversion: the result is true all the same. */
  lemma UnnoticedFailure<T(!new)>(cmp: Comparator<T>, x: T, y: T)
    requires !cmp(x, y).ok && cmp(x, y).sign <= 0
    ensures InsertionRun(cmp, [x, y], 0, 2) == Run([x, y], true, true)
  {
    assert Sunk(cmp, [x, y], 0, 1, false) == Run([x, y], true, true);
  }

  /** Every failure is noticed, on all inputs, exactly for the comparators that report an inversion when they fail. */
  lemma FailuresNoticedIff<T(!new)>(cmp: Comparator<T>)
    ensures FailuresNoticed(cmp) <==> Loud(cmp)
  {
    if FailuresNoticed(cmp) {
      forall x, y | !cmp(x, y).ok
        ensures cmp(x, y).sign > 0
      {
        if cmp(x, y).sign <= 0 {
          UnnoticedFailure(cmp, x, y);
        }
      }
    }
    if Loud(cmp) {
      forall s: seq<T>, lo, hi | 0 <= lo && hi <= |s|
        ensures InsertionRun(cmp, s, lo, hi).ok <==> !InsertionRun(cmp, s, lo, hi).isError
      {
        InsertedNotices(cmp, s, lo, hi, lo + 1, false);
      }
    }
  }

  /** Moves the element at pm down to its place; `isError` is sticky. */
  method Sink<T(!new)>(a: array<T>, lo: int, hi: int, pm: int, cmp: Comparator<T>, wasError: bool) returns (ok: bool, isError: bool)
    requires 0 <= lo < pm < hi <= a.Length
    modifies a
    ensures Permuted(old(a[..]), a[..], lo, hi)
    ensures Consistent(cmp) && !wasError && Sorted(cmp, old(a[..]), lo, pm) ==> ok && !isError && Sorted(cmp, a[..], lo, pm + 1)
    ensures Run(a[..], ok, isError) == Sunk(cmp, old(a[..]), lo, pm, wasError)
  {
    hide Permuted, Sorted, SortedExcept, Consistent, Swapped, Sunk;
    ghost var was := a[..];
    ghost var good := Consistent(cmp) && !wasError && Sorted(cmp, was, lo, pm);
    PermutedRefl(was, lo, hi);
    if good { SortedButLast(cmp, was, lo, pm); }
    isError := wasError;
    var pl := pm;
    while pl > lo && cmp(a[pl - 1], a[pl]).sign > 0
      invariant lo <= pl <= pm
      invariant Permuted(was, a[..], lo, hi)
      invariant good ==> !isError && SortedExcept(cmp, a[..], lo, pm + 1, pl)
      invariant Sunk(cmp, was, lo, pm, wasError) == Sunk(cmp, a[..], lo, pl, isError)
    {
      SunkStep(cmp, a[..], lo, pl, isError);
      isError := isError || !cmp(a[pl - 1], a[pl]).ok;
      if good { NeverFails(cmp, a[pl - 1], a[pl]); }
      if isError {
        return false, isError;
      }
      ghost var s := a[..];
      Swap(a, pl, pl - 1, was, lo, hi);
      if good { SinkOne(cmp, s, lo, pm + 1, pl); }
      pl := pl - 1;
    }
    if pl > lo {
      SunkStep(cmp, a[..], lo, pl, isError);
      isError := isError || !cmp(a[pl - 1], a[pl]).ok;
      if good { NeverFails(cmp, a[pl - 1], a[pl]); }
    } else {
      SunkDone(cmp, a[..], lo, isError);
    }
    if good { SettledIsSorted(cmp, a[..], lo, pm + 1, pl); }
    ok := true;
  }

  /**
    Insertion sort of [lo, lo + n), by the branch of `bentley_qsort_priv` for short ranges. A failing comparison that
    reports no inversion can go unnoticed (`FailuresNoticedIff`): the result is then true although the order means nothing.
   */
  method InsertionSort<T(!new)>(a: array<T>, lo: int, n: int, cmp: Comparator<T>) returns (ok: bool)
    requires 0 <= lo && 0 <= n && lo + n <= a.Length
    modifies a
    ensures Permuted(old(a[..]), a[..], lo, lo + n)
    ensures Consistent(cmp) ==> ok && Sorted(cmp, a[..], lo, lo + n)
    ensures var r := InsertionRun(cmp, old(a[..]), lo, lo + n); a[..] == r.s && ok == r.ok
  {
    hide Permuted, Consistent, Sunk, Inserted, Sorted;
    ghost var was := a[..];
    PermutedRefl(was, lo, lo + n);
    SortedShort(cmp, was, lo, if n > 0 then lo + 1 else lo);
    var isError := false;
    var pm := lo + 1;
    while pm < lo + n
      invariant lo + 1 <= pm && (n > 0 ==> pm <= lo + n)
      invariant Permuted(was, a[..], lo, lo + n)
      invariant Consistent(cmp) ==> !isError && Sorted(cmp, a[..], lo, if n > 0 then pm else lo)
      invariant InsertionRun(cmp, was, lo, lo + n) == Inserted(cmp, a[..], lo, lo + n, pm, isError)
    {
      ghost var s := a[..];
      InsertedStep(cmp, s, lo, lo + n, pm, isError);
      ok, isError := Sink(a, lo, lo + n, pm, cmp, isError);
      PermutedTrans(was, s, a[..], lo, lo + n);
      if !ok {
        return;
      }
      pm := pm + 1;
    }
    InsertedStep(cmp, a[..], lo, lo + n, pm, isError);
    ok := true;
  }

  lemma NeverFails<T(!new)>(cmp: Comparator<T>, x: T, y: T)
    requires Consistent(cmp)
    ensures cmp(x, y).ok
  {
  }

  lemma SortedButLast<T(!new)>(cmp: Comparator<T>, s: seq<T>, lo: int, pm: int)
    requires 0 <= lo <= pm < |s| && Sorted(cmp, s, lo, pm)
    ensures SortedExcept(cmp, s, lo, pm + 1, pm)
  {
  }

  /** All of [lo, hi) is sorted but for the element at k, which may be too small for the ones before it. */
  ghost predicate SortedExcept<T>(cmp: Comparator<T>, s: seq<T>, lo: int, hi: int, k: int)
    requires 0 <= lo && hi <= |s|
  {
    forall i, j :: lo <= i < j < hi && j != k ==> Le(cmp, s[i], s[j])
  }

  lemma SinkOne<T(!new)>(cmp: Comparator<T>, s: seq<T>, lo: int, hi: int, k: int)
    requires Consistent(cmp) && 0 <= lo < k < hi <= |s| && SortedExcept(cmp, s, lo, hi, k)
    requires cmp(s[k - 1], s[k]).sign > 0
    ensures SortedExcept(cmp, Swapped(s, k, k - 1), lo, hi, k - 1)
  {
    assert Le(cmp, s[k], s[k - 1]);
  }

  lemma SettledIsSorted<T(!new)>(cmp: Comparator<T>, s: seq<T>, lo: int, hi: int, k: int)
    requires Consistent(cmp) && 0 <= lo <= k < hi <= |s| && SortedExcept(cmp, s, lo, hi, k)
    requires k == lo || cmp(s[k - 1], s[k]).sign <= 0
    ensures Sorted(cmp, s, lo, hi)
  {
    forall i | lo <= i < k ensures Le(cmp, s[i], s[k]) {
      assert Le(cmp, s[k - 1], s[k]);
      if i < k - 1 { assert Le(cmp, s[i], s[k - 1]); }
    }
  }

  datatype Scan = InOrder | OutOfOrder | ScanFailed

  /** The check for presorted input; `isError` remembers failures that reported no inversion. */
  method ScanPresorted<T(!new)>(a: array<T>, lo: int, n: int, cmp: Comparator<T>) returns (r: Scan, isError: bool)
    requires 0 <= lo && 0 < n && lo + n <= a.Length
    ensures Consistent(cmp) ==> r != ScanFailed && !isError && (r == InOrder <==> Sorted(cmp, a[..], lo, lo + n))
  {
    isError := false;
    var pm := lo + 1;
    while pm < lo + n
      invariant lo + 1 <= pm <= lo + n
      invariant Consistent(cmp) ==> !isError && Sorted(cmp, a[..], lo, pm)
    {
      isError := isError || !cmp(a[pm - 1], a[pm]).ok;
      if cmp(a[pm - 1], a[pm]).sign > 0 {
        assert a[..][pm - 1] == a[pm - 1] && a[..][pm] == a[pm];
        return if isError then ScanFailed else OutOfOrder, isError;
      }
      if Consistent(cmp) {
        SettledIsSorted(cmp, a[..], lo, pm + 1, pm);
      }
      pm := pm + 1;
    }
    r := InOrder;
  }

  // ---- partition ----

  /** How the element compares with the pivot. */
  function Side<T>(cmp: Comparator<T>, x: T, v: T): int {
    cmp(x, v).sign
  }

  predicate Cursors<T>(s: seq<T>, lo: int, hi: int, pa: int, pb: int, pc: int, pd: int) {
    0 <= lo < pa <= pb <= pc + 1 && pc <= pd < hi <= |s|
  }

  /**
    The partition in progress, pivot v at lo: keys equal to it in (lo, pa) and (pd, hi), smaller ones in
    [pa, pb), greater ones in (pc, pd], unknown ones in [pb, pc].
   */
  ghost predicate Parts<T>(cmp: Comparator<T>, s: seq<T>, lo: int, hi: int, pa: int, pb: int, pc: int, pd: int, v: T) {
    && Cursors(s, lo, hi, pa, pb, pc, pd) && s[lo] == v
    && (forall k :: lo < k < pa ==> Side(cmp, s[k], v) == 0)
    && (forall k :: pa <= k < pb ==> Side(cmp, s[k], v) < 0)
    && (forall k :: pc < k <= pd ==> Side(cmp, s[k], v) > 0)
    && (forall k :: pd < k < hi ==> Side(cmp, s[k], v) == 0)
  }

  lemma PartsStart<T>(cmp: Comparator<T>, s: seq<T>, lo: int, hi: int)
    requires 0 <= lo < hi <= |s|
    ensures Parts(cmp, s, lo, hi, lo + 1, lo + 1, hi - 1, hi - 1, s[lo])
  {
  }

  lemma PartsEqualLeft<T>(cmp: Comparator<T>, s: seq<T>, lo: int, hi: int, pa: int, pb: int, pc: int, pd: int, v: T)
    requires Parts(cmp, s, lo, hi, pa, pb, pc, pd, v) && pb <= pc && Side(cmp, s[pb], v) == 0
    ensures Parts(cmp, Swapped(s, pa, pb), lo, hi, pa + 1, pb + 1, pc, pd, v) && Swapped(s, pa, pb)[lo] == v
  {
  }

  lemma PartsLess<T>(cmp: Comparator<T>, s: seq<T>, lo: int, hi: int, pa: int, pb: int, pc: int, pd: int, v: T)
    requires Parts(cmp, s, lo, hi, pa, pb, pc, pd, v) && pb <= pc && Side(cmp, s[pb], v) < 0
    ensures Parts(cmp, s, lo, hi, pa, pb + 1, pc, pd, v)
  {
  }

  lemma PartsGreater<T>(cmp: Comparator<T>, s: seq<T>, lo: int, hi: int, pa: int, pb: int, pc: int, pd: int, v: T)
    requires Parts(cmp, s, lo, hi, pa, pb, pc, pd, v) && pb <= pc && Side(cmp, s[pc], v) > 0
    ensures Parts(cmp, s, lo, hi, pa, pb, pc - 1, pd, v)
  {
  }

  lemma PartsEqualRight<T>(cmp: Comparator<T>, s: seq<T>, lo: int, hi: int, pa: int, pb: int, pc: int, pd: int, v: T)
    requires Parts(cmp, s, lo, hi, pa, pb, pc, pd, v) && pb <= pc && Side(cmp, s[pc], v) == 0
    ensures Parts(cmp, Swapped(s, pc, pd), lo, hi, pa, pb, pc - 1, pd - 1, v) && Swapped(s, pc, pd)[lo] == v
    ensures pb < pc ==> Swapped(s, pc, pd)[pb] == s[pb]
  {
  }

  lemma PartsExchange<T>(cmp: Comparator<T>, s: seq<T>, lo: int, hi: int, pa: int, pb: int, pc: int, pd: int, v: T)
    requires Parts(cmp, s, lo, hi, pa, pb, pc, pd, v) && pb <= pc
    requires Side(cmp, s[pb], v) > 0 && Side(cmp, s[pc], v) < 0
    ensures Parts(cmp, Swapped(s, pb, pc), lo, hi, pa, pb + 1, pc - 1, pd, v) && Swapped(s, pb, pc)[lo] == v && pb < pc
  {
  }

  /** Moves pb up over keys that are not greater than the pivot, parking equal ones at the left end. */
  method ScanUp<T(!new)>(a: array<T>, lo: int, hi: int, pa0: int, pb0: int, pc: int, pd: int, cmp: Comparator<T>, wasError: bool, ghost v: T)
    returns (ok: bool, pa: int, pb: int, isError: bool)
    requires Cursors(a[..], lo, hi, pa0, pb0, pc, pd) && a[lo] == v && Parts(cmp, a[..], lo, hi, pa0, pb0, pc, pd, v)
    modifies a
    ensures Permuted(old(a[..]), a[..], lo, hi)
    ensures Cursors(a[..], lo, hi, pa, pb, pc, pd) && a[lo] == v && Parts(cmp, a[..], lo, hi, pa, pb, pc, pd, v) && pb >= pb0
    ensures ok && pb <= pc ==> Side(cmp, a[pb], v) > 0
    ensures Consistent(cmp) && !wasError ==> ok && !isError
  {
    ghost var was := a[..];
    PermutedRefl(was, lo, hi);
    hide Permuted, Swapped, Consistent, Parts, Side;
    pa, pb, isError := pa0, pb0, wasError;
    while pb <= pc && cmp(a[pb], a[lo]).sign <= 0
      invariant Permuted(was, a[..], lo, hi)
      invariant Cursors(a[..], lo, hi, pa, pb, pc, pd) && a[lo] == v && Parts(cmp, a[..], lo, hi, pa, pb, pc, pd, v)
      invariant pb >= pb0
      invariant Consistent(cmp) && !wasError ==> !isError
      decreases pc - pb
    {
      isError := isError || !cmp(a[pb], a[lo]).ok;
      if Consistent(cmp) { NeverFails(cmp, a[pb], a[lo]); }
      if isError {
        return false, pa, pb, isError;
      }
      if cmp(a[pb], a[lo]).sign == 0 {
        ghost var s := a[..];
        Swap(a, pa, pb, was, lo, hi);
        PartsEqualLeft(cmp, s, lo, hi, pa, pb, pc, pd, v);
        pa := pa + 1;
      } else {
        PartsLess(cmp, a[..], lo, hi, pa, pb, pc, pd, v);
      }
      pb := pb + 1;
    }
    if pb <= pc {
      isError := isError || !cmp(a[pb], a[lo]).ok;
      if Consistent(cmp) { NeverFails(cmp, a[pb], a[lo]); }
    }
    ok := true;
  }

  /** Moves pc down over keys that are not smaller than the pivot, parking equal ones at the right end. */
  method ScanDown<T(!new)>(a: array<T>, lo: int, hi: int, pa: int, pb: int, pc0: int, pd0: int, cmp: Comparator<T>, wasError: bool, ghost v: T)
    returns (ok: bool, pc: int, pd: int, isError: bool)
    requires Cursors(a[..], lo, hi, pa, pb, pc0, pd0) && a[lo] == v && Parts(cmp, a[..], lo, hi, pa, pb, pc0, pd0, v)
    requires pb <= pc0 ==> Side(cmp, a[pb], v) > 0
    modifies a
    ensures Permuted(old(a[..]), a[..], lo, hi)
    ensures Cursors(a[..], lo, hi, pa, pb, pc, pd) && a[lo] == v && Parts(cmp, a[..], lo, hi, pa, pb, pc, pd, v) && pc <= pc0
    ensures ok && pb <= pc ==> Side(cmp, a[pb], v) > 0 && Side(cmp, a[pc], v) < 0
    ensures Consistent(cmp) && !wasError ==> ok && !isError
  {
    ghost var was := a[..];
    PermutedRefl(was, lo, hi);
    hide Permuted, Consistent, Parts, Swapped;
    pc, pd, isError := pc0, pd0, wasError;
    while pb <= pc && cmp(a[pc], a[lo]).sign >= 0
      invariant Permuted(was, a[..], lo, hi)
      invariant Cursors(a[..], lo, hi, pa, pb, pc, pd) && a[lo] == v && Parts(cmp, a[..], lo, hi, pa, pb, pc, pd, v)
      invariant pb <= pc ==> Side(cmp, a[pb], v) > 0
      invariant pc <= pc0
      invariant Consistent(cmp) && !wasError ==> !isError
      decreases pc - pb
    {
      isError := isError || !cmp(a[pc], a[lo]).ok;
      if Consistent(cmp) { NeverFails(cmp, a[pc], a[lo]); }
      if isError {
        return false, pc, pd, isError;
      }
      if cmp(a[pc], a[lo]).sign == 0 {
        ghost var s := a[..];
        Swap(a, pc, pd, was, lo, hi);
        PartsEqualRight(cmp, s, lo, hi, pa, pb, pc, pd, v);
        pd := pd - 1;
      } else {
        PartsGreater(cmp, a[..], lo, hi, pa, pb, pc, pd, v);
      }
      pc := pc - 1;
    }
    if pb <= pc {
      isError := isError || !cmp(a[pc], a[lo]).ok;
      if Consistent(cmp) { NeverFails(cmp, a[pc], a[lo]); }
    }
    ok := true;
  }

  /** The partition loop; ends with no unknown keys left. */
  method Partition<T(!new)>(a: array<T>, lo: int, hi: int, cmp: Comparator<T>, wasError: bool)
    returns (ok: bool, pa: int, pb: int, pc: int, pd: int)
    requires 0 <= lo < hi <= a.Length
    modifies a
    ensures Permuted(old(a[..]), a[..], lo, hi)
    ensures ok ==> pb == pc + 1 && Cursors(a[..], lo, hi, pa, pb, pc, pd) && Parts(cmp, a[..], lo, hi, pa, pb, pc, pd, old(a[lo]))
    ensures Consistent(cmp) && !wasError ==> ok
  {
    ghost var was, v := a[..], a[lo];
    PermutedRefl(was, lo, hi);
    PartsStart(cmp, was, lo, hi);
    pa, pb, pc, pd := lo + 1, lo + 1, hi - 1, hi - 1;
    var isError := wasError;
    ok := true;
    hide Permuted, Swapped, Consistent, Parts, Side;
    while true
      invariant Permuted(was, a[..], lo, hi)
      invariant Cursors(a[..], lo, hi, pa, pb, pc, pd) && a[lo] == v && Parts(cmp, a[..], lo, hi, pa, pb, pc, pd, v)
      invariant Consistent(cmp) && !wasError ==> !isError
      decreases pc - pb
    {
      ghost var s := a[..];
      ok, pa, pb, isError := ScanUp(a, lo, hi, pa, pb, pc, pd, cmp, isError, v);
      PermutedTrans(was, s, a[..], lo, hi);
      if !ok {
        return;
      }
      s := a[..];
      ok, pc, pd, isError := ScanDown(a, lo, hi, pa, pb, pc, pd, cmp, isError, v);
      PermutedTrans(was, s, a[..], lo, hi);
      if !ok || pb > pc {
        return;
      }
      s := a[..];
      Swap(a, pb, pc, was, lo, hi);
      PartsExchange(cmp, s, lo, hi, pa, pb, pc, pd, v);
      pb := pb + 1;
      pc := pc - 1;
    }
  }

  // ---- moving the equal keys to the middle ----

  /** t is s with the blocks of r elements at i and at j exchanged. */
  ghost predicate BlocksSwapped<T>(s: seq<T>, t: seq<T>, i: int, j: int, r: int) {
    && 0 <= i && 0 <= r && i + r <= j && j + r <= |s| == |t|
    && (forall k :: i <= k < i + r ==> t[k] == s[k + (j - i)])
    && (forall k :: j <= k < j + r ==> t[k] == s[k - (j - i)])
    && (forall k :: 0 <= k < |s| && !(i <= k < i + r) && !(j <= k < j + r) ==> t[k] == s[k])
  }

  lemma BlocksSwappedStep<T>(s: seq<T>, t: seq<T>, i: int, j: int, r: int, m: int)
    requires 0 <= r < m && i + m <= j && j + m <= |s| && BlocksSwapped(s, t, i, j, r)
    ensures BlocksSwapped(s, Swapped(t, i + r, j + r), i, j, r + 1)
  {
  }

  method VecSwap<T>(a: array<T>, i: int, j: int, r: int, ghost lo: int, ghost hi: int)
    requires 0 <= lo <= i && 0 <= r && i + r <= j && j + r <= hi <= a.Length
    modifies a
    ensures Permuted(old(a[..]), a[..], lo, hi)
    ensures BlocksSwapped(old(a[..]), a[..], i, j, r)
  {
    ghost var was := a[..];
    PermutedRefl(was, lo, hi);
    NoBlocksSwapped(was, i, j);
    hide Permuted, Swapped, BlocksSwapped;
    var k := 0;
    while k < r
      invariant 0 <= k <= r
      invariant Permuted(was, a[..], lo, hi)
      invariant BlocksSwapped(was, a[..], i, j, k)
    {
      ghost var s := a[..];
      Swap(a, i + k, j + k, was, lo, hi);
      BlocksSwappedStep(was, s, i, j, k, r);
      k := k + 1;
    }
  }

  lemma NoBlocksSwapped<T>(s: seq<T>, i: int, j: int)
    requires 0 <= i <= j <= |s|
    ensures BlocksSwapped(s, s, i, j, 0)
  {
  }

  /** [lo, lo + l) is smaller than v, [hi - g, hi) is greater, and what lies between is equal to v or v itself. */
  ghost predicate ThreeWay<T>(cmp: Comparator<T>, s: seq<T>, lo: int, hi: int, l: int, g: int, v: T) {
    && 0 <= lo && 0 <= l && 0 <= g && lo + l < hi - g && hi <= |s|
    && (forall k :: lo <= k < lo + l ==> Side(cmp, s[k], v) < 0)
    && (forall k :: lo + l <= k < hi - g ==> Side(cmp, s[k], v) == 0 || s[k] == v)
    && (forall k :: hi - g <= k < hi ==> Side(cmp, s[k], v) > 0)
  }

  function Min(x: int, y: int): int { if x < y then x else y }

  lemma LeftBlockMoved<T>(cmp: Comparator<T>, s: seq<T>, t: seq<T>, lo: int, hi: int, pa: int, pb: int, pc: int, pd: int, v: T)
    requires Parts(cmp, s, lo, hi, pa, pb, pc, pd, v) && pb == pc + 1
    requires var r := Min(pa - lo, pb - pa); BlocksSwapped(s, t, lo, pb - r, r)
    ensures forall k :: lo <= k < lo + (pb - pa) ==> Side(cmp, t[k], v) < 0
    ensures forall k :: lo + (pb - pa) <= k < pb ==> Side(cmp, t[k], v) == 0 || t[k] == v
    ensures forall k :: pb <= k < hi ==> t[k] == s[k]
  {
  }

  lemma RightBlockMoved<T>(cmp: Comparator<T>, s: seq<T>, t: seq<T>, lo: int, hi: int, l: int, pb: int, pd: int, v: T)
    requires 0 <= lo && 0 <= l && lo + l < pb <= pd + 1 <= hi <= |s|
    requires forall k :: lo <= k < lo + l ==> Side(cmp, s[k], v) < 0
    requires forall k :: lo + l <= k < pb ==> Side(cmp, s[k], v) == 0 || s[k] == v
    requires forall k :: pb <= k <= pd ==> Side(cmp, s[k], v) > 0
    requires forall k :: pd < k < hi ==> Side(cmp, s[k], v) == 0
    requires var r := Min(pd - (pb - 1), hi - pd - 1); BlocksSwapped(s, t, pb, hi - r, r)
    ensures ThreeWay(cmp, t, lo, hi, l, pd - (pb - 1), v)
  {
  }

  lemma BothBlocksMoved<T>(cmp: Comparator<T>, s: seq<T>, t: seq<T>, u: seq<T>, lo: int, hi: int, pa: int, pb: int, pc: int, pd: int, v: T)
    requires Parts(cmp, s, lo, hi, pa, pb, pc, pd, v) && pb == pc + 1
    requires var r := Min(pa - lo, pb - pa); BlocksSwapped(s, t, lo, pb - r, r)
    requires var r := Min(pd - pc, hi - pd - 1); BlocksSwapped(t, u, pb, hi - r, r)
    ensures ThreeWay(cmp, u, lo, hi, pb - pa, pd - pc, v)
  {
    LeftBlockMoved(cmp, s, t, lo, hi, pa, pb, pc, pd, v);
    hide BlocksSwapped, Side;
    assert forall k :: pb <= k < hi ==> t[k] == s[k];
    RightBlockMoved(cmp, t, u, lo, hi, pb - pa, pb, pd, v);
  }

  /** One round of the sort: partition around the pivot at lo, then bring the equal keys to the middle. */
  method Arrange<T(!new)>(a: array<T>, lo: int, hi: int, cmp: Comparator<T>, wasError: bool)
    returns (ok: bool, l: int, g: int)
    requires 0 <= lo < hi <= a.Length
    modifies a
    ensures Permuted(old(a[..]), a[..], lo, hi)
    ensures ok ==> ThreeWay(cmp, a[..], lo, hi, l, g, old(a[lo]))
    ensures Consistent(cmp) && !wasError ==> ok
  {
    hide Permuted, Parts, BlocksSwapped, ThreeWay, Consistent;
    ghost var was, v := a[..], a[lo];
    var pa, pb, pc, pd;
    ok, pa, pb, pc, pd := Partition(a, lo, hi, cmp, wasError);
    l, g := pb - pa, pd - pc;
    if !ok {
      return;
    }
    ghost var s := a[..];
    var r := Min(pa - lo, pb - pa);
    VecSwap(a, lo, pb - r, r, lo, hi);
    ghost var t := a[..];
    PermutedTrans(was, s, t, lo, hi);
    r := Min(pd - pc, hi - pd - 1);
    VecSwap(a, pb, hi - r, r, lo, hi);
    PermutedTrans(was, t, a[..], lo, hi);
    BothBlocksMoved(cmp, s, t, a[..], lo, hi, pa, pb, pc, pd, v);
  }

  // ---- the sort ----

  /** [lo0, lo) is sorted and nothing in it is greater than anything in [lo, hi). */
  ghost predicate SortedUpTo<T>(cmp: Comparator<T>, s: seq<T>, lo0: int, lo: int, hi: int) {
    && 0 <= lo0 <= lo <= hi <= |s|
    && Sorted(cmp, s, lo0, lo)
    && (forall i, j :: lo0 <= i < lo <= j < hi ==> Le(cmp, s[i], s[j]))
  }

  lemma SortedUpToKept<T(!new)>(cmp: Comparator<T>, s: seq<T>, t: seq<T>, lo0: int, lo: int, hi: int)
    requires SortedUpTo(cmp, s, lo0, lo, hi) && Permuted(s, t, lo, hi)
    ensures SortedUpTo(cmp, t, lo0, lo, hi)
  {
    PermutedOutside(s, t, lo, hi);
    forall i | lo0 <= i < lo ensures forall j :: lo <= j < hi ==> Le(cmp, t[i], t[j]) {
      PermutedKeeps(s, t, lo, hi, x => Le(cmp, s[i], x));
    }
  }

  lemma SortedTail<T>(cmp: Comparator<T>, s: seq<T>, lo0: int, lo: int, hi: int)
    requires SortedUpTo(cmp, s, lo0, lo, hi) && Sorted(cmp, s, lo, hi)
    ensures Sorted(cmp, s, lo0, hi)
  {
  }

  /** Once the smaller part is sorted, everything below the greater part is in place. */
  lemma RoundDone<T(!new)>(cmp: Comparator<T>, s: seq<T>, t: seq<T>, lo0: int, lo: int, hi: int, l: int, g: int, v: T)
    requires Consistent(cmp) && SortedUpTo(cmp, s, lo0, lo, hi) && ThreeWay(cmp, s, lo, hi, l, g, v)
    requires Permuted(s, t, lo, lo + l) && Sorted(cmp, t, lo, lo + l)
    ensures SortedUpTo(cmp, t, lo0, hi - g, hi)
  {
    PermutedKeeps(s, t, lo, lo + l, x => Side(cmp, x, v) < 0);
    PermutedOutside(s, t, lo, lo + l);
    PermutedWiden(s, t, lo, lo + l, lo, hi);
    SortedUpToKept(cmp, s, t, lo0, lo, hi);
    assert ThreeWay(cmp, t, lo, hi, l, g, v);
    ThreeWayOrdered(cmp, t, lo, hi, l, g, v);
  }

  lemma ThreeWayOrdered<T(!new)>(cmp: Comparator<T>, t: seq<T>, lo: int, hi: int, l: int, g: int, v: T)
    requires Consistent(cmp) && ThreeWay(cmp, t, lo, hi, l, g, v)
    ensures forall i, j :: lo <= i < lo + l <= j < hi ==> Le(cmp, t[i], t[j])
    ensures forall i, j :: lo + l <= i < hi - g && i < j < hi ==> Le(cmp, t[i], t[j])
  {
    assert Le(cmp, v, v);
    forall k | lo <= k < hi - g ensures Le(cmp, t[k], v) {}
    forall k | lo + l <= k < hi ensures Le(cmp, v, t[k]) {
      assert cmp(t[k], v).sign >= 0;
    }
  }

  method QuickSort<T(!new)>(a: array<T>, lo0: int, n0: int, cmp: Comparator<T>) returns (ok: bool)
    requires 0 <= lo0 && 0 <= n0 && lo0 + n0 <= a.Length
    modifies a
    ensures Permuted(old(a[..]), a[..], lo0, lo0 + n0)
    ensures Consistent(cmp) ==> ok && Sorted(cmp, a[..], lo0, lo0 + n0)
    decreases n0, 2
  {
    ghost var was, hi := a[..], lo0 + n0;
    PermutedRefl(was, lo0, hi);
    assert SortedUpTo(cmp, was, lo0, lo0, hi);
    var lo, n := lo0, n0;
    hide Permuted, Sorted, Consistent, ThreeWay, SortedUpTo;
    while true
      invariant lo0 <= lo && 0 <= n <= n0 && lo + n == hi
      invariant Permuted(was, a[..], lo0, hi)
      invariant Consistent(cmp) ==> SortedUpTo(cmp, a[..], lo0, lo, hi)
      decreases n
    {
      ghost var s := a[..];
      if n < 7 {
        ok := InsertionSort(a, lo, n, cmp);
        PermutedWiden(s, a[..], lo, hi, lo0, hi);
        PermutedTrans(was, s, a[..], lo0, hi);
        if Consistent(cmp) {
          SortedUpToKept(cmp, s, a[..], lo0, lo, hi);
          SortedTail(cmp, a[..], lo0, lo, hi);
        }
        return;
      }
      var more;
      ok, more, lo, n := Round(a, lo0, lo, n, cmp);
      PermutedTrans(was, s, a[..], lo0, hi);
      if !more {
        return;
      }
    }
  }

  /** Chooses a pivot, moves it to lo and splits the range around it. */
  method SplitAtPivot<T(!new)>(a: array<T>, lo: int, n: int, cmp: Comparator<T>, isError: bool)
    returns (ok: bool, l: int, g: int, ghost v: T)
    requires 0 <= lo && 7 <= n && lo + n <= a.Length
    modifies a
    ensures Permuted(old(a[..]), a[..], lo, lo + n)
    ensures ok ==> ThreeWay(cmp, a[..], lo, lo + n, l, g, v)
    ensures Consistent(cmp) && !isError ==> ok
  {
    hide Permuted, Consistent, ThreeWay, Swapped;
    ghost var was := a[..];
    PermutedRefl(was, lo, lo + n);
    l, g, v := 0, 0, a[lo];
    var pm := ChoosePivot(a, lo, n, cmp);
    if pm == -1 {
      return false, l, g, v;
    }
    Swap(a, lo, pm, was, lo, lo + n);
    ghost var s := a[..];
    v := a[lo];
    ok, l, g := Arrange(a, lo, lo + n, cmp, isError);
    PermutedTrans(was, s, a[..], lo, lo + n);
  }

  /**
    One pass of the loop for at least seven items: sorted or failed (more is false), or sorted up to the
    new lo with the greater part of n items still to do.
   */
  method Round<T(!new)>(a: array<T>, ghost lo0: int, lo: int, n: int, cmp: Comparator<T>)
    returns (ok: bool, more: bool, lo': int, n': int)
    requires 0 <= lo0 <= lo && 7 <= n && lo + n <= a.Length
    requires Consistent(cmp) ==> SortedUpTo(cmp, a[..], lo0, lo, lo + n)
    modifies a
    ensures Permuted(old(a[..]), a[..], lo0, lo + n)
    ensures Consistent(cmp) && !more ==> ok && Sorted(cmp, a[..], lo0, lo + n)
    ensures more ==> lo <= lo' && 1 < n' < n && lo' + n' == lo + n
    ensures Consistent(cmp) && more ==> SortedUpTo(cmp, a[..], lo0, lo', lo + n)
    decreases n, 1
  {
    ghost var was := a[..];
    var hi := lo + n;
    PermutedRefl(was, lo0, hi);
    hide Permuted, Sorted, Consistent, SortedUpTo, ThreeWay;
    more, lo', n' := false, lo, n;
    var scan, isError := ScanPresorted(a, lo, n, cmp);
    if scan != OutOfOrder {
      if Consistent(cmp) { SortedTail(cmp, a[..], lo0, lo, hi); }
      return scan == InOrder, more, lo', n';
    }
    var l, g;
    ghost var v;
    ok, l, g, v := SplitAtPivot(a, lo, n, cmp, isError);
    PermutedWiden(was, a[..], lo, hi, lo0, hi);
    if !ok {
      return;
    }
    if Consistent(cmp) { SortedUpToKept(cmp, was, a[..], lo0, lo, hi); }
    ghost var s := a[..];
    ok := SortSmaller(a, lo0, lo, hi, l, g, cmp, v);
    PermutedTrans(was, s, a[..], lo0, hi);
    if !ok {
      return;
    }
    if g > 1 {
      more, lo', n' := true, hi - g, g;
    } else if Consistent(cmp) {
      ShortIsSorted(cmp, a[..], hi - g, hi);
      SortedTail(cmp, a[..], lo0, hi - g, hi);
    }
  }

  /** Sorts the part below the pivot, after which only the greater part is left to do. */
  method SortSmaller<T(!new)>(a: array<T>, ghost lo0: int, lo: int, hi: int, l: int, g: int, cmp: Comparator<T>, ghost v: T)
    returns (ok: bool)
    requires 0 <= lo0 <= lo < hi <= a.Length && ThreeWay(cmp, a[..], lo, hi, l, g, v)
    requires Consistent(cmp) ==> SortedUpTo(cmp, a[..], lo0, lo, hi)
    modifies a
    ensures Permuted(old(a[..]), a[..], lo0, hi) && 0 <= g < hi - lo
    ensures Consistent(cmp) ==> ok && SortedUpTo(cmp, a[..], lo0, hi - g, hi)
    decreases hi - lo, 0
  {
    hide Permuted, Sorted, Consistent, SortedUpTo, ThreeWay;
    ghost var s := a[..];
    ThreeWayBounds(cmp, s, lo, hi, l, g, v);
    ok := SortPart(a, lo, l, cmp);
    PermutedWiden(s, a[..], lo, lo + l, lo0, hi);
    if Consistent(cmp) { RoundDone(cmp, s, a[..], lo0, lo, hi, l, g, v); }
  }

  lemma ThreeWayBounds<T>(cmp: Comparator<T>, s: seq<T>, lo: int, hi: int, l: int, g: int, v: T)
    requires ThreeWay(cmp, s, lo, hi, l, g, v)
    ensures 0 <= lo && 0 <= l && 0 <= g && lo + l < hi - g && hi <= |s|
  {
  }

  lemma ShortIsSorted<T>(cmp: Comparator<T>, s: seq<T>, lo: int, hi: int)
    requires 0 <= lo && hi <= |s| && hi <= lo + 1
    ensures Sorted(cmp, s, lo, hi)
  {
  }

  /** The recursion into the smaller part, if it has more than one key. */
  method SortPart<T(!new)>(a: array<T>, lo: int, l: int, cmp: Comparator<T>) returns (ok: bool)
    requires 0 <= lo && 0 <= l && lo + l <= a.Length
    modifies a
    ensures Permuted(old(a[..]), a[..], lo, lo + l)
    ensures Consistent(cmp) ==> ok && Sorted(cmp, a[..], lo, lo + l)
    decreases l, 3
  {
    PermutedRefl(a[..], lo, lo + l);
    if l > 1 {
      ok := QuickSort(a, lo, l, cmp);
    } else {
      ok := true;
    }
  }

  /**
    Sorts the first n items. For any comparator at all it terminates and only rearranges those items; for a
    consistent one it succeeds and leaves them sorted.
   */
  method Sort<T(!new)>(a: array<T>, n: int, cmp: Comparator<T>) returns (ok: bool)
    requires 0 <= n <= a.Length
    modifies a
    ensures Permuted(old(a[..]), a[..], 0, n)
    ensures Consistent(cmp) ==> ok && Sorted(cmp, a[..], 0, n)
  {
    ok := QuickSort(a, 0, n, cmp);
  }
}

/** The quicksort workload (examples/qsort/qsort.c). Pointers into the array are indices; a range is
    [first, last). */
module QSort {
  /** s, with the elements at i and j exchanged. */
  function Exchanged(s: seq<int>, i: nat, j: nat): seq<int>
    requires i < |s| && j < |s|
  {
    s[i := s[j]][j := s[i]]
  }

  predicate Sorted(s: seq<int>, first: nat, last: nat)
    requires first <= last <= |s|
  {
    forall i, j :: first <= i < j < last ==> s[i] <= s[j]
  }

  /** t is s with the elements of one range reordered. */
  ghost predicate Permuted(s: seq<int>, t: seq<int>, first: nat, last: nat) {
    first <= last <= |s| == |t| && s[..first] == t[..first] && s[last..] == t[last..] &&
    multiset(s[first..last]) == multiset(t[first..last])
  }

  predicate AtMost(s: seq<int>, first: nat, last: nat, bound: int)
    requires first <= last <= |s|
  {
    forall i :: first <= i < last ==> s[i] <= bound
  }

  predicate AtLeast(s: seq<int>, first: nat, last: nat, bound: int)
    requires first <= last <= |s|
  {
    forall i :: first <= i < last ==> s[i] >= bound
  }

  /** No element of the range is below its first one. */
  predicate StartsWithMinimum(s: seq<int>, first: nat, last: nat)
    requires first <= last <= |s|
  {
    first < last ==> AtLeast(s, first, last, s[first])
  }

  // ----- permutations of a range -----

  lemma ExchangePermutes(s: seq<int>, i: nat, j: nat, first: nat, last: nat)
    requires first <= i < last <= |s| && first <= j < last
    ensures Permuted(s, Exchanged(s, i, j), first, last)
  {
    assert Exchanged(s, i, j)[first..last] == Exchanged(s[first..last], i - first, j - first);
  }

  lemma PermutedReflexive(s: seq<int>, first: nat, last: nat)
    requires first <= last <= |s|
    ensures Permuted(s, s, first, last)
  {
  }

  lemma PermutedTransitive(s: seq<int>, t: seq<int>, u: seq<int>, first: nat, last: nat)
    requires Permuted(s, t, first, last) && Permuted(t, u, first, last)
    ensures Permuted(s, u, first, last)
  {
  }

  lemma ExchangePermutesOn(s: seq<int>, t: seq<int>, i: nat, j: nat, first: nat, last: nat)
    requires Permuted(s, t, first, last) && first <= i < last && first <= j < last
    ensures Permuted(s, Exchanged(t, i, j), first, last)
  {
    ExchangePermutes(t, i, j, first, last);
    PermutedTransitive(s, t, Exchanged(t, i, j), first, last);
  }

  lemma SplitRange(s: seq<int>, a: nat, b: nat, c: nat)
    requires a <= b <= c <= |s|
    ensures s[a..c] == s[a..b] + s[b..c]
  {
  }

  /** A reordering of a part of a range reorders the range. */
  lemma PermutedPart(s: seq<int>, t: seq<int>, first: nat, a: nat, b: nat, last: nat)
    requires first <= a <= b <= last <= |s| && Permuted(s, t, a, b)
    ensures Permuted(s, t, first, last)
  {
    SameOutside(s, t, first, a, b, last);
    SplitRange(s, first, a, last);
    SplitRange(s, a, b, last);
    SplitRange(t, first, a, last);
    SplitRange(t, a, b, last);
  }

  lemma SameOutside(s: seq<int>, t: seq<int>, first: nat, a: nat, b: nat, last: nat)
    requires first <= a <= b <= last <= |s| && Permuted(s, t, a, b)
    ensures s[..first] == t[..first] && s[last..] == t[last..] && s[first..a] == t[first..a] && s[b..last] == t[b..last]
  {
    assert forall i :: 0 <= i < a ==> s[..a][i] == t[..a][i] == s[i] == t[i];
    assert forall i :: b <= i < |s| ==> s[b..][i - b] == t[b..][i - b] == s[i] == t[i];
  }

  /** Every element of a reordered range was in it. */
  lemma PermutedElement(s: seq<int>, t: seq<int>, first: nat, last: nat, i: nat) returns (k: nat)
    requires Permuted(s, t, first, last) && first <= i < last
    ensures first <= k < last && s[k] == t[i]
  {
    assert t[first..last][i - first] in multiset(t[first..last]);
    assert t[i] in s[first..last];
    var n: nat :| n < last - first && s[first..last][n] == t[i];
    k := first + n;
  }

  lemma PermutedKeepsBounds(s: seq<int>, t: seq<int>, first: nat, last: nat, bound: int)
    requires Permuted(s, t, first, last)
    ensures AtMost(s, first, last, bound) ==> AtMost(t, first, last, bound)
    ensures AtLeast(s, first, last, bound) ==> AtLeast(t, first, last, bound)
  {
    forall i | first <= i < last
      ensures exists k :: first <= k < last && s[k] == t[i]
    {
      var k := PermutedElement(s, t, first, last, i);
    }
  }

  // ----- the program -----

  method Swap(a: array<int>, lhs: nat, rhs: nat)
    requires lhs < a.Length && rhs < a.Length
    modifies a
    ensures a[..] == Exchanged(old(a[..]), lhs, rhs)
  {
    var tmp := a[lhs];
    a[lhs] := a[rhs];
    a[rhs] := tmp;
  }

  /** Sorted, but for the element at `hole`, which is not above the ones after it. */
  predicate SortedBut(s: seq<int>, first: nat, hole: nat, last: nat)
    requires first <= hole < last <= |s|
  {
    (forall i, j :: first <= i < j < last && i != hole && j != hole ==> s[i] <= s[j]) &&
    (forall j :: hole < j < last ==> s[hole] <= s[j])
  }

  lemma HoleOpens(s: seq<int>, first: nat, hole: nat)
    requires first <= hole < |s| && Sorted(s, first, hole)
    ensures SortedBut(s, first, hole, hole + 1)
  {
  }

  lemma HoleMoves(s: seq<int>, first: nat, hole: nat, last: nat)
    requires first < hole < last <= |s| && SortedBut(s, first, hole, last) && s[hole] < s[hole - 1]
    ensures SortedBut(Exchanged(s, hole, hole - 1), first, hole - 1, last)
  {
  }

  lemma HoleCloses(s: seq<int>, first: nat, hole: nat, last: nat)
    requires first <= hole < last <= |s| && SortedBut(s, first, hole, last)
    requires first < hole ==> s[hole - 1] <= s[hole]
    ensures Sorted(s, first, last)
  {
    forall i, j | first <= i < j < last
      ensures s[i] <= s[j]
    {
      if j == hole && i < hole - 1 {
        assert s[i] <= s[hole - 1];
      }
    }
  }

  /** The inner loop: move the element at first + i down to its place in the sorted range before it. */
  method Insert(a: array<int>, first: nat, i: nat)
    requires first + i < a.Length && Sorted(a[..], first, first + i)
    modifies a
    ensures Sorted(a[..], first, first + i + 1) && Permuted(old(a[..]), a[..], first, first + i + 1)
  {
    hide Sorted, SortedBut, Permuted, Exchanged;
    HoleOpens(a[..], first, first + i);
    PermutedReflexive(a[..], first, first + i + 1);
    var j := i;
    while j > 0
      invariant 0 <= j <= i
      invariant SortedBut(a[..], first, first + j, first + i + 1)
      invariant Permuted(old(a[..]), a[..], first, first + i + 1)
    {
      ghost var before := a[..];
      if a[first + j] < a[first + j - 1] {
        HoleMoves(before, first, first + j, first + i + 1);
        ExchangePermutesOn(old(a[..]), before, first + j, first + j - 1, first, first + i + 1);
        Swap(a, first + j, first + j - 1);
      } else {
        break;
      }
      j := j - 1;
    }
    HoleCloses(a[..], first, first + j, first + i + 1);
  }

  method InsertionSort(a: array<int>, first: nat, last: nat)
    requires first <= last <= a.Length
    modifies a
    ensures Sorted(a[..], first, last) && Permuted(old(a[..]), a[..], first, last)
  {
    hide Permuted, Sorted;
    PermutedReflexive(a[..], first, last);
    ShortIsSorted(a[..], first);
    if last - first < 2 {
      return;
    }
    var i, endIndex := 1, last - first;
    while i < endIndex
      invariant 1 <= i <= endIndex
      invariant Sorted(a[..], first, first + i) && Permuted(old(a[..]), a[..], first, last)
    {
      ghost var before := a[..];
      Insert(a, first, i);
      InsertedPart(old(a[..]), before, a[..], first, first + i + 1, last);
      i := i + 1;
    }
  }

  lemma ShortIsSorted(s: seq<int>, first: nat)
    requires first <= |s|
    ensures Sorted(s, first, first) && (first < |s| ==> Sorted(s, first, first + 1))
  {
  }

  lemma InsertedPart(was: seq<int>, s: seq<int>, t: seq<int>, first: nat, middle: nat, last: nat)
    requires Permuted(was, s, first, last) && Permuted(s, t, first, middle) && middle <= last
    ensures Permuted(was, t, first, last)
  {
    PermutedPart(s, t, first, first, middle, last);
    PermutedTransitive(was, s, t, first, last);
  }

  /** Not the median: the smaller of `third` and the larger of the other two. */
  function Median(first: int, second: int, third: int): (m: int)
    ensures m <= third && (m == third || m == first || m == second)
    ensures m <= first || m <= second
    ensures m < third ==> first <= m && second <= m
  {
    if first <= second then (if second <= third then second else third)
    else (if first <= third then first else third)
  }

  // ----- partitioning -----

  /** Nothing before mid is above the pivot, nothing after it is below. */
  predicate Partitioned(s: seq<int>, first: nat, last: nat, mid: nat, pivot: int) {
    first <= mid <= last <= |s| &&
    (forall i :: first <= i < mid ==> s[i] <= pivot) && (forall i :: mid < i < last ==> s[i] >= pivot)
  }

  predicate Occurs(s: seq<int>, f: nat, l: nat, pivot: int) {
    exists k :: f <= k < l && k < |s| && s[k] == pivot
  }

  /** The scan window, from f up to and including l - 1: smaller elements are before it, larger ones
      after it, and a pivot that occurs in the range is still in the window. */
  predicate Window(s: seq<int>, first: nat, last: nat, f: nat, l: nat, pivot: int, occurs: bool) {
    first <= f <= l <= last <= |s| && f < last && AtMost(s, first, f, pivot) && AtLeast(s, l, last, pivot) &&
    (occurs ==> Occurs(s, f, l, pivot))
  }

  lemma NarrowLeft(s: seq<int>, first: nat, last: nat, f: nat, l: nat, pivot: int, occurs: bool)
    requires Window(s, first, last, f, l, pivot, occurs) && f + 1 < l && s[f] <= pivot &&
      (s[f] < pivot || s[l - 1] == pivot)
    ensures Window(s, first, last, f + 1, l, pivot, occurs)
  {
  }

  lemma NarrowRight(s: seq<int>, first: nat, last: nat, f: nat, l: nat, pivot: int, occurs: bool)
    requires Window(s, first, last, f, l, pivot, occurs) && f < l && s[l - 1] >= pivot
    requires s[l - 1] > pivot || (s[f] == pivot && f + 1 < l)
    ensures Window(s, first, last, f, l - 1, pivot, occurs)
  {
  }

  lemma ExchangeInside(s: seq<int>, first: nat, last: nat, f: nat, l: nat, pivot: int, occurs: bool, i: nat, j: nat)
    requires Window(s, first, last, f, l, pivot, occurs) && f <= i < l && f <= j < l
    ensures Window(Exchanged(s, i, j), first, last, f, l, pivot, occurs)
  {
    if occurs {
      var k :| f <= k < l && s[k] == pivot;
      var k' := if k == i then j else if k == j then i else k;
      assert Exchanged(s, i, j)[k'] == pivot;
    }
  }

  /** A second pivot, behind a first one, keeps the window from closing on the first position. */
  predicate Moves(s: seq<int>, first: nat, f: nat, l: nat, pivot: int) {
    f > first || (first < |s| && s[first] == pivot && Occurs(s, first + 2, l, pivot))
  }

  /** The invariant of the scan. */
  ghost predicate Scan(was: seq<int>, s: seq<int>, first: nat, last: nat, f: nat, l: nat, pivot: int) {
    first < last <= |was| && Permuted(was, s, first, last) &&
    Window(s, first, last, f, l, pivot, Occurs(was, first, last, pivot)) &&
    (Moves(was, first, first, last, pivot) ==> Moves(s, first, f, l, pivot))
  }

  lemma ScanStarts(s: seq<int>, first: nat, last: nat, pivot: int)
    requires first < last <= |s|
    ensures Scan(s, s, first, last, first, last, pivot)
  {
  }

  /** The three branches that skip elements. */
  lemma ScanSkips(was: seq<int>, s: seq<int>, first: nat, last: nat, f: nat, l: nat, pivot: int, f': nat, l': nat)
    requires Scan(was, s, first, last, f, l, pivot) && f + 1 < l && (s[f] < pivot || s[l - 1] > pivot)
    requires f' == if s[f] < pivot then f + 1 else f
    requires l' == if s[l - 1] > pivot then l - 1 else l
    ensures Scan(was, s, first, last, f', l', pivot)
  {
    var occurs := Occurs(was, first, last, pivot);
    hide Permuted, AtMost, AtLeast;
    assert Window(s, first, last, f', l, pivot, occurs) by {
      if s[f] < pivot {
        NarrowLeft(s, first, last, f, l, pivot, occurs);
      }
    }
    if s[l - 1] > pivot {
      NarrowRight(s, first, last, f', l, pivot, occurs);
    }
  }

  /** The three branches that exchange the ends. */
  lemma ScanExchanges(was: seq<int>, s: seq<int>, first: nat, last: nat, f: nat, l: nat, pivot: int, f': nat, l': nat)
    requires Scan(was, s, first, last, f, l, pivot) && f + 1 < l && s[f] >= pivot >= s[l - 1] && s[f] != s[l - 1]
    requires f' == if s[l - 1] < pivot then f + 1 else f
    requires l' == if s[f] > pivot then l - 1 else l
    ensures Scan(was, Exchanged(s, f, l - 1), first, last, f', l', pivot)
  {
    hide Permuted, AtMost, AtLeast, Occurs;
    var occurs := Occurs(was, first, last, pivot);
    var t := Exchanged(s, f, l - 1);
    assert t[f] == s[l - 1] && t[l - 1] == s[f];
    hide Exchanged;
    ExchangeInside(s, first, last, f, l, pivot, occurs, f, l - 1);
    ExchangePermutesOn(was, s, f, l - 1, first, last);
    assert Window(t, first, last, f', l, pivot, occurs) by {
      if t[f] < pivot {
        NarrowLeft(t, first, last, f, l, pivot, occurs);
      }
    }
    if t[l - 1] > pivot {
      NarrowRight(t, first, last, f', l, pivot, occurs);
    }
  }

  /** Passing over the pivot at f while there is another one at the far end. */
  lemma ScanPassesPivot(was: seq<int>, s: seq<int>, first: nat, last: nat, f: nat, l: nat, pivot: int)
    requires Scan(was, s, first, last, f, l, pivot) && f + 1 < l && s[f] == pivot == s[l - 1]
    ensures Scan(was, s, first, last, f + 1, l, pivot)
  {
    hide Permuted, AtMost, AtLeast;
    NarrowLeft(s, first, last, f, l, pivot, Occurs(was, first, last, pivot));
  }

  /** One step of the inner loop carries the pivot over an element that is not larger. */
  lemma ScanCarries(was: seq<int>, s: seq<int>, first: nat, last: nat, f: nat, l: nat, pivot: int)
    requires Scan(was, s, first, last, f, l, pivot) && f + 2 < l && s[f + 1] < s[f] == pivot == s[l - 1]
    ensures Scan(was, Exchanged(s, f, f + 1), first, last, f + 1, l, pivot)
  {
    hide Permuted, AtMost, AtLeast, Occurs;
    var occurs := Occurs(was, first, last, pivot);
    var t := Exchanged(s, f, f + 1);
    assert t[f] == s[f + 1] && t[l - 1] == s[l - 1];
    hide Exchanged;
    ExchangeInside(s, first, last, f, l, pivot, occurs, f, f + 1);
    ExchangePermutesOn(was, s, f, f + 1, first, last);
    NarrowLeft(t, first, last, f, l, pivot, occurs);
  }

  /** The inner loop, for a window with the pivot at both ends. */
  method CarryPivot(a: array<int>, ghost was: seq<int>, ghost first0: nat, ghost last0: nat, first: nat, last: nat,
                    ghost pivot: int)
    returns (f: nat, ptr: nat)
    requires first < last < a.Length && Scan(was, a[..], first0, last0, first, last + 1, pivot)
    requires a[first] == pivot == a[last]
    modifies a
    ensures first <= f < last && Scan(was, a[..], first0, last0, f, last + 1, pivot)
    ensures a[f] == pivot == a[last] && ptr == f + 1 && (ptr == last || a[ptr] > pivot)
  {
    hide Scan, Exchanged;
    f, ptr := first, first + 1;
    while ptr != last && a[ptr] <= a[f]
      invariant first <= f && ptr == f + 1 <= last && a[f] == pivot == a[last]
      invariant Scan(was, a[..], first0, last0, f, last + 1, pivot)
    {
      ghost var before := a[..];
      if a[ptr] != a[f] {
        ScanCarries(was, before, first0, last0, f, last + 1, pivot);
        Swap(a, f, ptr);
        ExchangedAt(before, f, ptr, last);
        ExchangedAt(before, f, ptr, ptr);
      } else {
        ScanPassesPivot(was, before, first0, last0, f, last + 1, pivot);
      }
      f := f + 1;
      ptr := ptr + 1;
    }
  }

  lemma ExchangedAt(s: seq<int>, i: nat, j: nat, k: nat)
    requires i < |s| && j < |s| && k < |s|
    ensures Exchanged(s, i, j)[k] == s[if k == i then j else if k == j then i else k]
  {
  }

  /** The result of a partition: the range is reordered around mid. If the pivot occurs in it, the pivot
      is at mid; and mid is not the first position if the pivot was there and once more further on. */
  ghost predicate Closed(was: seq<int>, s: seq<int>, first: nat, last: nat, mid: nat, pivot: int) {
    first < last <= |was| && Permuted(was, s, first, last) && mid < last && Partitioned(s, first, last, mid, pivot) &&
    (Occurs(was, first, last, pivot) ==> s[mid] == pivot) &&
    (Moves(was, first, first, last, pivot) ==> mid > first)
  }

  lemma ScanEnds(was: seq<int>, s: seq<int>, first: nat, last: nat, f: nat, l: nat, pivot: int)
    requires Scan(was, s, first, last, f, l, pivot) && l <= f + 1
    ensures Closed(was, s, first, last, f, pivot)
  {
    hide Permuted;
  }

  /** The early return: two pivots are left. */
  lemma CarryEnds(was: seq<int>, s: seq<int>, first: nat, last: nat, f: nat, l: nat, pivot: int)
    requires Scan(was, s, first, last, f, l + 1, pivot) && f + 1 == l && s[f] == pivot == s[l]
    ensures Closed(was, s, first, last, f, pivot)
  {
    hide Permuted;
  }

  /** The loop body: the window shrinks, or is closed on `f`. */
  method Shrink(a: array<int>, ghost was: seq<int>, ghost first0: nat, ghost last0: nat, first: nat, last: nat,
      pivot: int)
    returns (f: nat, l: nat, closed: bool)
    requires first < last < a.Length && Scan(was, a[..], first0, last0, first, last + 1, pivot)
    modifies a
    ensures !closed ==>
      first <= f <= l + 1 && l <= last && l - f < last - first && Scan(was, a[..], first0, last0, f, l + 1, pivot)
    ensures closed ==>
      f < a.Length && Closed(was, a[..], first0, last0, f, pivot)
  {
    hide Scan, Exchanged, Closed;
    ghost var s := a[..];
    f, l, closed := first, last, false;
    if a[first] < pivot && a[last] > pivot {
      ScanSkips(was, s, first0, last0, first, last + 1, pivot, first + 1, last);
      f, l := f + 1, l - 1;
    } else if a[first] < pivot {
      ScanSkips(was, s, first0, last0, first, last + 1, pivot, first + 1, last + 1);
      f := f + 1;
    } else if a[last] > pivot {
      ScanSkips(was, s, first0, last0, first, last + 1, pivot, first, last);
      l := l - 1;
    } else if a[first] == pivot && a[last] != pivot {
      ScanExchanges(was, s, first0, last0, first, last + 1, pivot, first + 1, last + 1);
      Swap(a, first, last);
      f := f + 1;
    } else if a[last] == pivot && a[first] != pivot {
      ScanExchanges(was, s, first0, last0, first, last + 1, pivot, first, last);
      Swap(a, first, last);
      l := l - 1;
    } else if a[first] == a[last] && a[first] == pivot {
      var ptr;
      f, ptr := CarryPivot(a, was, first0, last0, first, last, pivot);
      if ptr == last {
        CarryEnds(was, a[..], first0, last0, f, last, pivot);
        closed := true;
      } else {
        ScanPassesPivot(was, a[..], first0, last0, f, last + 1, pivot);
        f := f + 1;
      }
    } else {
      ScanExchanges(was, s, first0, last0, first, last + 1, pivot, first + 1, last);
      Swap(a, first, last);
      f, l := f + 1, l - 1;
    }
  }

  /** Works for any pivot, in the range or not. */
  method Partition(a: array<int>, first0: nat, last0: nat, pivot: int) returns (mid: nat)
    requires first0 <= last0 <= a.Length
    modifies a
    ensures first0 < last0 ==> Closed(old(a[..]), a[..], first0, last0, mid, pivot)
    ensures first0 == last0 ==> mid == first0 && a[..] == old(a[..])
  {
    if last0 - first0 < 2 {
      if first0 < last0 {
        OneElement(a[..], first0, pivot);
      }
      return first0;
    }
    hide Scan, Closed;
    ghost var was := a[..];
    var first, last := first0, last0 - 1;
    ScanStarts(was, first0, last0, pivot);
    while last - first > 0
      invariant first0 <= first <= last + 1 <= last0
      invariant Scan(was, a[..], first0, last0, first, last + 1, pivot)
      decreases last - first
    {
      var closed;
      first, last, closed := Shrink(a, was, first0, last0, first, last, pivot);
      if closed {
        return first;
      }
    }
    ScanEnds(was, a[..], first0, last0, first, last + 1, pivot);
    mid := first;
  }

  lemma OneElement(s: seq<int>, first: nat, pivot: int)
    requires first < |s|
    ensures Closed(s, s, first, first + 1, first, pivot)
  {
  }

  // ----- sorting -----

  /** The pivot of a range. */
  function Pivot(s: seq<int>, first: nat, last: nat): int
    requires first < last <= |s|
  {
    Median(s[first], s[last - 1], s[first + (last - first) / 2])
  }

  lemma PivotOccurs(s: seq<int>, first: nat, last: nat)
    requires first < last <= |s|
    ensures Occurs(s, first, last, Pivot(s, first, last))
  {
  }

  /** A range that starts with its minimum has a second copy of the pivot, unless the pivot is larger. */
  lemma MinimumPivot(s: seq<int>, first: nat, last: nat)
    requires first + 16 < last <= |s| && StartsWithMinimum(s, first, last)
    ensures Pivot(s, first, last) > s[first] || Moves(s, first, first, last, Pivot(s, first, last))
  {
    var middle := first + (last - first) / 2;
    assert s[last - 1] >= s[first] && s[middle] >= s[first];
    assert first + 2 <= middle < last;
  }

  /** `QSort` may be called again on the same range, but only if the range now starts with its minimum
      and did not before. */
  lemma RangeShrinks(s: seq<int>, t: seq<int>, first: nat, last: nat, mid: nat)
    requires first + 16 < last <= |s| && Closed(s, t, first, last, mid, Pivot(s, first, last))
    ensures mid == first ==> StartsWithMinimum(t, first, last) && !StartsWithMinimum(s, first, last)
  {
    hide Permuted, Moves, Pivot;
    PivotOccurs(s, first, last);
    if mid == first && StartsWithMinimum(s, first, last) {
      MinimumPivot(s, first, last);
      PermutedKeepsFirst(s, t, first, last, Pivot(s, first, last));
    }
  }

  /** Reordering does not lose the first element. */
  lemma PermutedKeepsFirst(s: seq<int>, t: seq<int>, first: nat, last: nat, bound: int)
    requires Permuted(s, t, first, last) && first < last && AtLeast(t, first, last, bound)
    ensures s[first] >= bound
  {
    PermutedSymmetric(s, t, first, last);
    PermutedKeepsBounds(t, s, first, last, bound);
  }

  lemma PermutedSymmetric(s: seq<int>, t: seq<int>, first: nat, last: nat)
    requires Permuted(s, t, first, last)
    ensures Permuted(t, s, first, last)
  {
  }

  /** Both halves sorted, the lower one first. */
  lemma SortedHalves(was: seq<int>, s: seq<int>, t: seq<int>, u: seq<int>, first: nat, mid: nat, last: nat, pivot: int)
    requires Closed(was, s, first, last, mid, pivot) && s[mid] == pivot
    requires Permuted(s, t, first, mid) && Permuted(t, u, mid, last)
    requires Sorted(t, first, mid) && Sorted(u, mid, last)
    ensures Sorted(u, first, last) && Permuted(was, u, first, last)
  {
    SameOutside(s, t, first, first, mid, last);
    SameOutside(t, u, first, mid, last, last);
    HalvesPermute(was, s, t, u, first, mid, last);
    PermutedKeepsBounds(s, t, first, mid, pivot);
    assert forall i :: mid <= i < last ==> s[mid..][i - mid] == t[mid..][i - mid] == s[i] == t[i];
    PermutedKeepsBounds(t, u, mid, last, pivot);
    assert forall i :: first <= i < mid ==> t[..mid][i] == u[..mid][i] == t[i] == u[i];
    hide Permuted;
  }

  /** Both halves sorted, the upper one first. */
  lemma SortedHalvesBackwards(was: seq<int>, s: seq<int>, t: seq<int>, u: seq<int>, first: nat, mid: nat, last: nat,
      pivot: int)
    requires Closed(was, s, first, last, mid, pivot) && s[mid] == pivot
    requires Permuted(s, t, mid, last) && Permuted(t, u, first, mid)
    requires Sorted(t, mid, last) && Sorted(u, first, mid)
    ensures Sorted(u, first, last) && Permuted(was, u, first, last)
  {
    SameOutside(s, t, first, mid, last, last);
    SameOutside(t, u, first, first, mid, last);
    PermutedPart(s, t, first, mid, last, last);
    PermutedPart(t, u, first, first, mid, last);
    PermutedTransitive(was, s, t, first, last);
    PermutedTransitive(was, t, u, first, last);
    PermutedKeepsBounds(s, t, mid, last, pivot);
    assert forall i :: first <= i < mid ==> s[..mid][i] == t[..mid][i] == s[i] == t[i];
    PermutedKeepsBounds(t, u, first, mid, pivot);
    assert forall i :: mid <= i < last ==> t[mid..][i - mid] == u[mid..][i - mid] == t[i] == u[i];
    hide Permuted;
  }

  lemma HalvesPermute(was: seq<int>, s: seq<int>, t: seq<int>, u: seq<int>, first: nat, mid: nat, last: nat)
    requires first <= mid <= last && Permuted(was, s, first, last) && Permuted(s, t, first, mid) &&
      Permuted(t, u, mid, last)
    ensures Permuted(was, u, first, last)
  {
    PermutedPart(s, t, first, first, mid, last);
    PermutedPart(t, u, first, mid, last, last);
    PermutedTransitive(was, s, t, first, last);
    PermutedTransitive(was, t, u, first, last);
  }

  method QSort(a: array<int>, first: nat, last: nat)
    requires first <= last <= a.Length
    modifies a
    ensures Sorted(a[..], first, last) && Permuted(old(a[..]), a[..], first, last)
    decreases last - first, if StartsWithMinimum(a[..], first, last) then 0 else 1
  {
    if last - first <= 16 {
      InsertionSort(a, first, last);
      return;
    }
    hide Sorted, Permuted, Partitioned, Moves, Occurs, StartsWithMinimum, Pivot;
    ghost var s := a[..];
    var pivot := Median(a[first], a[last - 1], a[first + (last - first) / 2]);
    PivotOf(s, first, last, pivot);
    var mid := Partition(a, first, last, pivot);
    ghost var t := a[..];
    RangeShrinks(s, t, first, last, mid);
    if mid - first < last - mid {
      QSort(a, first, mid);
      ghost var u := a[..];
      EmptyRange(t, u, first, mid);
      QSort(a, mid, last);
      SortedHalves(s, t, u, a[..], first, mid, last, pivot);
    } else {
      QSort(a, mid, last);
      ghost var u := a[..];
      QSort(a, first, mid);
      SortedHalvesBackwards(s, t, u, a[..], first, mid, last, pivot);
    }
  }

  lemma PivotOf(s: seq<int>, first: nat, last: nat, pivot: int)
    requires first < last <= |s| && pivot == Median(s[first], s[last - 1], s[first + (last - first) / 2])
    ensures pivot == Pivot(s, first, last)
  {
  }

  /** Sorting nothing changes nothing. */
  lemma EmptyRange(t: seq<int>, u: seq<int>, first: nat, mid: nat)
    requires Permuted(t, u, first, mid)
    ensures mid == first ==> u == t
  {
    if mid == first {
      assert t == t[..first] + t[first..] && u == u[..first] + u[first..];
    }
  }

  /** 0 if the elements are in order, and -1 if not. */
  method VerifySort(a: array<int>, size: nat) returns (code: int)
    requires size <= a.Length
    ensures code == if Sorted(a[..], 0, size) then 0 else -1
  {
    var i := 1;
    while i < size
      invariant 1 <= i && (size > 0 ==> i <= size)
      invariant Sorted(a[..], 0, if i < size then i else size)
    {
      if a[i] < a[i - 1] {
        return -1;
      }
      i := i + 1;
    }
    code := 0;
  }

  /** The whole program, for any data: it returns 0. */
  method SortData(data: array<int>) returns (code: int)
    modifies data
    ensures code == 0 && Sorted(data[..], 0, data.Length) && multiset(data[..]) == multiset(old(data[..]))
  {
    ghost var was := data[..];
    QSort(data, 0, data.Length);
    code := VerifySort(data, data.Length);
    assert was[0..|was|] == was && data[..][0..|was|] == data[..];
  }

  lemma SmallestFirst(s: seq<int>, t: seq<int>)
    requires multiset(s) == multiset(t) && Sorted(s, 0, |s|) && |t| > 0
    ensures |s| > 0 && s[0] <= t[0]
  {
    assert t[0] in multiset(t);
    assert t[0] in s;
  }

  lemma SortedRest(s: seq<int>)
    requires s != [] && Sorted(s, 0, |s|)
    ensures Sorted(s[1..], 0, |s| - 1) && multiset(s[1..]) == multiset(s) - multiset{s[0]} && s == [s[0]] + s[1..]
  {
    assert s == [s[0]] + s[1..];
  }

  /** There is only one way to sort: the result of `QSort` is that of `InsertionSort`. */
  lemma {:induction false} SortedIsUnique(s: seq<int>, t: seq<int>)
    requires multiset(s) == multiset(t) && Sorted(s, 0, |s|) && Sorted(t, 0, |t|)
    ensures s == t
  {
    if s == [] {
      assert |multiset(t)| == 0;
    } else {
      assert |multiset(t)| > 0;
      SmallestFirst(s, t);
      SmallestFirst(t, s);
      SortedRest(s);
      SortedRest(t);
      hide Sorted;
      SortedIsUnique(s[1..], t[1..]);
    }
  }
}

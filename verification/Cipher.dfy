/**
  The keyed transposition cipher of kernel/sys.c.

  The lower-cased key is sorted by quicksort with an index array carried along; the sorted order
  of the columns is the order in which a buffer's columns are written out.  Functions say what
  the sort and the walk compute; methods do it in place on arrays.
 */
module Cipher {

  // ------------------------------------------------------------------ sorting the key

  /** The two arrays that are sorted in lockstep. */
  datatype Keyed = Keyed(key: seq<int>, idx: seq<int>)

  function LowerChar(c: int): int { if 65 <= c <= 90 then c + 32 else c }

  function Lower(key: seq<int>): (r: seq<int>)
    ensures |r| == |key|
  {
    seq(|key|, i requires 0 <= i < |key| => LowerChar(key[i]))
  }

  function Identity(n: nat): (r: seq<int>)
    ensures |r| == n && forall i :: 0 <= i < n ==> r[i] == i
  {
    seq(n, i => i)
  }

  predicate Paired(a: Keyed) { |a.key| == |a.idx| }

  function Swapped(a: Keyed, i: int, j: int): (b: Keyed)
    requires Paired(a) && 0 <= i < |a.key| && 0 <= j < |a.key|
    ensures Paired(b) && |b.key| == |a.key|
  {
    Keyed(a.key[i := a.key[j]][j := a.key[i]], a.idx[i := a.idx[j]][j := a.idx[i]])
  }

  /** The scan of partition from j on, with i the end of the small part so far. */
  function Scan(a: Keyed, pivot: int, i: int, j: int, high: int): (r: (Keyed, int))
    requires Paired(a) && 0 <= i + 1 <= j <= high < |a.key|
    ensures Paired(r.0) && |r.0.key| == |a.key| && i <= r.1 < high
    decreases high - j
  {
    if j == high then (a, i)
    else if a.key[j] <= pivot then Scan(Swapped(a, i + 1, j), pivot, i + 1, j + 1, high)
    else Scan(a, pivot, i, j + 1, high)
  }

  function Partitioned(a: Keyed, low: int, high: int): (r: (Keyed, int))
    requires Paired(a) && 0 <= low <= high < |a.key|
    ensures Paired(r.0) && |r.0.key| == |a.key| && low <= r.1 <= high
  {
    var s := Scan(a, a.key[high], low - 1, low, high);
    (Swapped(s.0, s.1 + 1, high), s.1 + 1)
  }

  function Sorted(a: Keyed, low: int, high: int): (r: Keyed)
    requires Paired(a) && 0 <= low && high < |a.key|
    ensures Paired(r) && |r.key| == |a.key|
    decreases high - low
  {
    if low < high then
      var p := Partitioned(a, low, high);
      Sorted(Sorted(p.0, low, p.1 - 1), p.1 + 1, high)
    else a
  }

  lemma SortedHalves(a: Keyed, low: int, high: int)
    requires Paired(a) && 0 <= low < high < |a.key|
    ensures var p := Partitioned(a, low, high);
            Sorted(a, low, high) == Sorted(Sorted(p.0, low, p.1 - 1), p.1 + 1, high)
  {
  }

  /** The order in which the columns of a buffer are visited under this key. */
  function ColumnOrder(key: seq<int>): (r: seq<int>)
    ensures |r| == |key|
  {
    Sorted(Keyed(Lower(key), Identity(|key|)), 0, |key| - 1).idx
  }

  // ------------------------------------------------------------------ properties kept by every swap

  /** idx is a permutation, and key is the original key read through it. */
  ghost predicate Lockstep(a: Keyed, orig: seq<int>) {
    && |a.key| == |a.idx| == |orig|
    && (forall k :: 0 <= k < |a.idx| ==> 0 <= a.idx[k] < |orig| && a.key[k] == orig[a.idx[k]])
    && (forall j, k :: 0 <= j < k < |a.idx| ==> a.idx[j] != a.idx[k])
    && (forall v :: 0 <= v < |orig| ==> v in a.idx)
  }

  lemma SwapLockstep(a: Keyed, orig: seq<int>, i: int, j: int)
    requires Lockstep(a, orig) && 0 <= i < |a.key| && 0 <= j < |a.key|
    ensures Lockstep(Swapped(a, i, j), orig)
  {
    var b := Swapped(a, i, j);
    forall v | 0 <= v < |orig| ensures v in b.idx {
      assert v in a.idx;
      var k :| 0 <= k < |a.idx| && a.idx[k] == v;
      assert b.idx[if k == i then j else if k == j then i else k] == v;
    }
  }

  lemma {:induction false} ScanLockstep(a: Keyed, orig: seq<int>, pivot: int, i: int, j: int, high: int)
    requires Lockstep(a, orig) && 0 <= i + 1 <= j <= high < |a.key|
    ensures Lockstep(Scan(a, pivot, i, j, high).0, orig)
    decreases high - j
  {
    if j < high {
      if a.key[j] <= pivot {
        SwapLockstep(a, orig, i + 1, j);
        ScanLockstep(Swapped(a, i + 1, j), orig, pivot, i + 1, j + 1, high);
      } else {
        ScanLockstep(a, orig, pivot, i, j + 1, high);
      }
    }
  }

  lemma PartitionLockstep(a: Keyed, orig: seq<int>, low: int, high: int)
    requires Lockstep(a, orig) && 0 <= low <= high < |a.key|
    ensures Lockstep(Partitioned(a, low, high).0, orig)
  {
    var s := Scan(a, a.key[high], low - 1, low, high);
    ScanLockstep(a, orig, a.key[high], low - 1, low, high);
    SwapLockstep(s.0, orig, s.1 + 1, high);
  }

  lemma {:induction false} SortLockstep(a: Keyed, orig: seq<int>, low: int, high: int)
    requires Lockstep(a, orig) && 0 <= low && high < |a.key|
    ensures Lockstep(Sorted(a, low, high), orig)
    decreases high - low
  {
    if low < high {
      var p := Partitioned(a, low, high);
      PartitionLockstep(a, orig, low, high);
      SortLockstep(p.0, orig, low, p.1 - 1);
      SortLockstep(Sorted(p.0, low, p.1 - 1), orig, p.1 + 1, high);
    }
  }

  // ------------------------------------------------------------------ the result is sorted

  ghost predicate Ascending(s: seq<int>, low: int, high: int) {
    forall j, k :: 0 <= low <= j < k <= high < |s| ==> s[j] <= s[k]
  }

  ghost predicate Within(s: seq<int>, low: int, high: int, lb: int, ub: int) {
    forall k :: 0 <= low <= k <= high < |s| ==> lb <= s[k] <= ub
  }

  ghost predicate SameOutside(s: seq<int>, t: seq<int>, low: int, high: int) {
    |s| == |t| && forall k :: 0 <= k < |s| && !(low <= k <= high) ==> t[k] == s[k]
  }

  /** The part scanned so far: low..i not above the pivot, the rest below j above it. */
  ghost predicate Scanned(s: seq<int>, pivot: int, low: int, i: int, j: int, high: int, lb: int, ub: int) {
    && 0 <= low <= i + 1 <= j <= high < |s| && Within(s, low, high, lb, ub) && Within(s, low, i, lb, pivot)
    && forall k :: i < k < j ==> pivot < s[k]
  }

  lemma SwapScanned(a: Keyed, pivot: int, low: int, i: int, j: int, high: int, lb: int, ub: int)
    requires Paired(a) && Scanned(a.key, pivot, low, i, j, high, lb, ub) && j < high && a.key[j] <= pivot
    ensures Scanned(Swapped(a, i + 1, j).key, pivot, low, i + 1, j + 1, high, lb, ub)
    ensures SameOutside(a.key, Swapped(a, i + 1, j).key, low, high - 1)
  {
  }

  /** The scan splits low..high-1 into a part not above the pivot and a part above it. */
  lemma {:induction false} ScanSplits(a: Keyed, pivot: int, low: int, i: int, j: int, high: int, lb: int, ub: int)
    requires Paired(a) && lb <= pivot <= ub && Scanned(a.key, pivot, low, i, j, high, lb, ub)
    ensures var r := Scan(a, pivot, i, j, high);
            SameOutside(a.key, r.0.key, low, high - 1) && Scanned(r.0.key, pivot, low, r.1, high, high, lb, ub)
    decreases high - j
  {
    if j < high {
      if a.key[j] <= pivot {
        SwapScanned(a, pivot, low, i, j, high, lb, ub);
        ScanSplits(Swapped(a, i + 1, j), pivot, low, i + 1, j + 1, high, lb, ub);
      } else {
        ScanSplits(a, pivot, low, i, j + 1, high, lb, ub);
      }
    }
  }

  /** r is s with low..high rearranged so that place p separates the smaller from the larger elements. */
  ghost predicate Split(s: seq<int>, r: seq<int>, p: int, low: int, high: int, lb: int, ub: int) {
    && 0 <= low <= p <= high < |s| == |r| && SameOutside(s, r, low, high) && lb <= r[p] <= ub
    && Within(r, low, p - 1, lb, r[p]) && Within(r, p + 1, high, r[p], ub)
  }

  lemma PartitionSplits(a: Keyed, low: int, high: int, lb: int, ub: int)
    requires Paired(a) && 0 <= low <= high < |a.key| && Within(a.key, low, high, lb, ub)
    ensures var p := Partitioned(a, low, high); Split(a.key, p.0.key, p.1, low, high, lb, ub)
  {
    ScanSplits(a, a.key[high], low, low - 1, low, high, lb, ub);
  }

  /** r is s with low..high put in order, nothing outside moved, and all values within their bounds. */
  ghost predicate InOrder(s: seq<int>, r: seq<int>, low: int, high: int, lb: int, ub: int) {
    Ascending(r, low, high) && SameOutside(s, r, low, high) && Within(r, low, high, lb, ub)
  }

  lemma {:induction false} SortAscending(a: Keyed, low: int, high: int, lb: int, ub: int)
    requires Paired(a) && 0 <= low && high < |a.key| && Within(a.key, low, high, lb, ub)
    ensures InOrder(a.key, Sorted(a, low, high).key, low, high, lb, ub)
    decreases high - low, 1
  {
    if low < high {
      var b, p := SplitParts(a, low, high, lb, ub);
      var r := SortedParts(a, low, high, b, p);
      SortHalves(a.key, b, p, low, high, lb, ub, r);
    } else {
      SortedNothing(a, low, high, lb, ub);
    }
  }

  lemma SplitParts(a: Keyed, low: int, high: int, lb: int, ub: int) returns (b: Keyed, p: int)
    requires Paired(a) && 0 <= low < high < |a.key| && Within(a.key, low, high, lb, ub)
    ensures (b, p) == Partitioned(a, low, high) && Paired(b) && Split(a.key, b.key, p, low, high, lb, ub)
  {
    PartitionSplits(a, low, high, lb, ub);
    b, p := Partitioned(a, low, high).0, Partitioned(a, low, high).1;
  }

  lemma SortedParts(a: Keyed, low: int, high: int, b: Keyed, p: int) returns (r: Keyed)
    requires Paired(a) && 0 <= low < high < |a.key| && (b, p) == Partitioned(a, low, high)
    ensures Paired(b) && r == Sorted(a, low, high) == Sorted(Sorted(b, low, p - 1), p + 1, high)
  {
    SortedHalves(a, low, high);
    r := Sorted(a, low, high);
  }

  lemma SortedNothing(a: Keyed, low: int, high: int, lb: int, ub: int)
    requires Paired(a) && 0 <= low && high < |a.key| && Within(a.key, low, high, lb, ub) && low >= high
    ensures InOrder(a.key, Sorted(a, low, high).key, low, high, lb, ub)
  {
  }

  lemma {:induction false} SortHalves(s: seq<int>, b: Keyed, p: int, low: int, high: int, lb: int, ub: int, r: Keyed)
    requires Paired(b) && low < high && Split(s, b.key, p, low, high, lb, ub)
    requires r == Sorted(Sorted(b, low, p - 1), p + 1, high)
    ensures InOrder(s, r.key, low, high, lb, ub)
    decreases high - low, 0
  {
    var left := Sorted(b, low, p - 1);
    SortAscending(b, low, p - 1, lb, b.key[p]);
    RightHalf(b.key, left.key, low, p, high, ub);
    SortAscending(left, p + 1, high, b.key[p], ub);
    Join(s, b.key, left.key, r.key, low, p, high, lb, ub);
  }

  lemma RightHalf(s: seq<int>, left: seq<int>, low: int, p: int, high: int, ub: int)
    requires 0 <= low <= p <= high < |s| && SameOutside(s, left, low, p - 1) && Within(s, p + 1, high, s[p], ub)
    ensures Within(left, p + 1, high, s[p], ub)
  {
  }

  /** Two sorted halves around a pivot. */
  lemma Join(a: seq<int>, s: seq<int>, left: seq<int>, r: seq<int>, low: int, p: int, high: int, lb: int, ub: int)
    requires 0 <= low <= p <= high < |s| && lb <= s[p] <= ub && SameOutside(a, s, low, high)
    requires InOrder(s, left, low, p - 1, lb, s[p]) && InOrder(left, r, p + 1, high, s[p], ub)
    ensures InOrder(a, r, low, high, lb, ub)
  {
    assert r[p] == left[p] == s[p];
    assert forall k :: low <= k < p ==> r[k] == left[k];
  }

  /** The column order is a permutation of the columns that reads the lower-cased key in order. */
  lemma ColumnOrderSorts(key: seq<int>)
    ensures var order := ColumnOrder(key);
            && (forall k :: 0 <= k < |key| ==> 0 <= order[k] < |key|)
            && (forall j, k :: 0 <= j < k < |key| ==> order[j] != order[k])
            && (forall v :: 0 <= v < |key| ==> v in order)
            && (forall j, k :: 0 <= j < k < |key| ==> Lower(key)[order[j]] <= Lower(key)[order[k]])
  {
    var a := Keyed(Lower(key), Identity(|key|));
    StartLockstep(key);
    SortLockstep(a, Lower(key), 0, |key| - 1);
    var r := Sorted(a, 0, |key| - 1);
    KeyAscending(a);
    forall j, k | 0 <= j < k < |key| ensures Lower(key)[r.idx[j]] <= Lower(key)[r.idx[k]] {
      assert r.key[j] <= r.key[k];
    }
  }

  lemma StartLockstep(key: seq<int>)
    ensures Lockstep(Keyed(Lower(key), Identity(|key|)), Lower(key))
  {
    forall v | 0 <= v < |key| ensures v in Identity(|key|) { assert Identity(|key|)[v] == v; }
  }

  lemma KeyAscending(a: Keyed)
    requires Paired(a)
    ensures Ascending(Sorted(a, 0, |a.key| - 1).key, 0, |a.key| - 1)
  {
    var lb, ub := Bounds(a.key);
    SortAscending(a, 0, |a.key| - 1, lb, ub);
  }

  lemma {:induction false} Bounds(s: seq<int>) returns (lb: int, ub: int)
    ensures forall k :: 0 <= k < |s| ==> lb <= s[k] <= ub
  {
    if |s| == 0 {
      lb, ub := 0, 0;
    } else {
      lb, ub := Bounds(s[..|s| - 1]);
      var x := s[|s| - 1];
      lb := if x < lb then x else lb;
      ub := if x > ub then x else ub;
      forall k | 0 <= k < |s| ensures lb <= s[k] <= ub { if k < |s| - 1 { assert s[..|s| - 1][k] == s[k]; } }
    }
  }

  // ------------------------------------------------------------------ what the key means

  /** Upper and lower case are one: writing a letter small changes nothing. */
  lemma CaseIgnored(key: seq<int>, i: nat)
    requires i < |key| && 65 <= key[i] <= 90
    ensures ColumnOrder(key[i := key[i] + 32]) == ColumnOrder(key)
  {
    assert Lower(key[i := key[i] + 32]) == Lower(key);
  }

  /** A key without upper-case letters is itself read in ascending order. */
  lemma SmallKeySorts(key: seq<int>)
    requires forall k :: 0 <= k < |key| ==> !(65 <= key[k] <= 90)
    ensures var order := ColumnOrder(key);
            && (forall k :: 0 <= k < |key| ==> 0 <= order[k] < |key|)
            && (forall j, k :: 0 <= j < k < |key| ==> key[order[j]] <= key[order[k]])
  {
    ColumnOrderSorts(key);
    assert Lower(key) == key;
  }

  /** Columns under equal letters stay in their order. */
  lemma EqualLetters(key: seq<int>, c: int)
    requires forall k :: 0 <= k < |key| ==> key[k] == c
    ensures forall k :: 0 <= k < |key| ==> ColumnOrder(key)[k] == k
  {
    EqualStays(Keyed(Lower(key), Identity(|key|)), LowerChar(c), 0, |key| - 1);
  }

  lemma {:induction false} EqualStays(a: Keyed, c: int, low: int, high: int)
    requires Paired(a) && 0 <= low && high < |a.key| && forall k :: 0 <= k < |a.key| ==> a.key[k] == c
    ensures Sorted(a, low, high) == a
    decreases high - low
  {
    if low < high {
      EqualScan(a, c, low, high);
      assert Swapped(a, high, high) == a;
      EqualStays(a, c, low, high - 1);
    }
  }

  lemma {:induction false} EqualScan(a: Keyed, c: int, j: int, high: int)
    requires Paired(a) && 0 <= j <= high < |a.key| && forall k :: 0 <= k < |a.key| ==> a.key[k] == c
    ensures Scan(a, c, j - 1, j, high) == (a, high - 1)
    decreases high - j
  {
    if j < high {
      assert Swapped(a, j, j) == a;
      EqualScan(a, c, j + 1, high);
    }
  }
}

/** The example module's quicksort, in the shape the compiler gives it: a
    first section returns for ranges of zero or one element, a second one
    orders a range of two elements, and the last one partitions around the
    middle element (Lomuto's scheme) and sorts both sides recursively. */
module QuickSort {
  import opened Tools

  /** What the algorithm needs of `cmp`: the sign is antisymmetric and
      "compares at most" is transitive, as for the usual three-way
      comparison. */
  ghost predicate TotalOrder<T(!new)>(cmp: (T, T) -> int)
  {
    && (forall x, y :: Compares(cmp, x, y) < 0 <==> Compares(cmp, y, x) > 0)
    && (forall x, y, z :: Compares(cmp, x, y) <= 0 && Compares(cmp, y, z) <= 0 ==> Compares(cmp, x, z) <= 0)
  }

  /** `cmp(x, y)`.  The laws above are stated on this name so that they
      apply where a proof names it, not at every comparison. */
  ghost function Compares<T>(cmp: (T, T) -> int, x: T, y: T): int
  {
    cmp(x, y)
  }

  /** `s[begin..end]` is in ascending order. */
  ghost predicate SortedRange<T>(s: seq<T>, begin: int, end: int, cmp: (T, T) -> int)
    requires 0 <= begin <= end <= |s|
  {
    forall i, j :: begin <= i < j < end ==> cmp(s[i], s[j]) <= 0
  }

  /** `t` holds the same elements as `s` in `[begin, end)` and is equal to it
      everywhere else. */
  ghost predicate Rearranged<T>(s: seq<T>, t: seq<T>, begin: int, end: int)
    requires 0 <= begin <= end <= |s|
  {
    && |t| == |s|
    && multiset(t[begin..end]) == multiset(s[begin..end])
    && t[..begin] == s[..begin] && t[end..] == s[end..]
  }

  /** Every element of `s[lo..hi]` compares below `pivot`. */
  ghost predicate Below<T>(s: seq<T>, lo: int, hi: int, pivot: T, cmp: (T, T) -> int)
    requires 0 <= lo <= hi <= |s|
  {
    forall k :: lo <= k < hi ==> cmp(s[k], pivot) < 0
  }

  /** No element of `s[lo..hi]` compares below `pivot`. */
  ghost predicate NotBelow<T>(s: seq<T>, lo: int, hi: int, pivot: T, cmp: (T, T) -> int)
    requires 0 <= lo <= hi <= |s|
  {
    forall k :: lo <= k < hi ==> !(cmp(s[k], pivot) < 0)
  }

  /** `s[p]` splits `s[begin..end]`: what is before it compares below it,
      what is after it does not. */
  ghost predicate Partitioned<T>(s: seq<T>, begin: int, p: int, end: int, cmp: (T, T) -> int)
    requires 0 <= begin <= p < end <= |s|
  {
    Below(s, begin, p, s[p], cmp) && NotBelow(s, p + 1, end, s[p], cmp)
  }

  /** quickSort(array, begin, end, cmp): sorts `array[begin..end]` in place. */
  method Sort<T(!new)>(a: array<T>, begin: int, end: int, cmp: (T, T) -> int)
    requires 0 <= begin <= end <= a.Length && TotalOrder(cmp)
    modifies a
    ensures SortedRange(a[..], begin, end, cmp)
    ensures Rearranged(old(a[..]), a[..], begin, end)
    decreases end - begin
  {
    var length := end - begin;
    var last := end - 1;
    // One or zero elements
    if length == 0 || length == 1 {
      return;
    }
    // Two elements
    if length == 2 {
      var c := Compare(a, begin, last, cmp);
      if c <= 0 {
        TwoSorted(a[..], begin, cmp);
        return;
      }
      Swap(a, begin, last);
      SwappedInRange(old(a[..]), begin, last, begin, end);
      TwoSwappedSorted(old(a[..]), a[..], begin, cmp);
      return;
    }
    // The actual quicksort algorithm
    ghost var s0 := a[..];
    var storeIndex := Partition(a, begin, end, cmp);
    ghost var s1 := a[..];
    Sort(a, begin, storeIndex, cmp);
    ghost var s2 := a[..];
    Sort(a, storeIndex + 1, end, cmp);
    SortedAfterRecursion(s0, s1, s2, a[..], begin, storeIndex, end, cmp);
  }

  /** Two elements in order are a sorted range. */
  lemma TwoSorted<T>(s: seq<T>, begin: int, cmp: (T, T) -> int)
    requires 0 <= begin && begin + 2 <= |s| && cmp(s[begin], s[begin + 1]) <= 0
    ensures SortedRange(s, begin, begin + 2, cmp)
  {
  }

  /** Two elements out of order are sorted once swapped. */
  lemma TwoSwappedSorted<T(!new)>(s: seq<T>, t: seq<T>, begin: int, cmp: (T, T) -> int)
    requires 0 <= begin && begin + 2 <= |s| && TotalOrder(cmp)
    requires !(cmp(s[begin], s[begin + 1]) <= 0) && t == Swapped(s, begin, begin + 1)
    ensures SortedRange(t, begin, begin + 2, cmp)
  {
    assert t[begin] == s[begin + 1] && t[begin + 1] == s[begin];
    assert Compares(cmp, s[begin], s[begin + 1]) > 0;
    assert cmp(t[begin], t[begin + 1]) < 0;
  }

  /** After partitioning and sorting both sides, the range is sorted and
      holds its original elements. */
  lemma SortedAfterRecursion<T(!new)>(s0: seq<T>, s1: seq<T>, s2: seq<T>, s3: seq<T>,
                                     begin: int, p: int, end: int, cmp: (T, T) -> int)
    requires 0 <= begin <= p < end <= |s0| && TotalOrder(cmp)
    requires Rearranged(s0, s1, begin, end) && Partitioned(s1, begin, p, end, cmp)
    requires Rearranged(s1, s2, begin, p) && SortedRange(s2, begin, p, cmp)
    requires Rearranged(s2, s3, p + 1, end) && SortedRange(s3, p + 1, end, cmp)
    ensures SortedRange(s3, begin, end, cmp)
    ensures Rearranged(s0, s3, begin, end)
  {
    SidesKept(s1, s2, s3, begin, p, end, cmp);
    JoinSorted(s3, begin, p, end, cmp);
    Widened(s1, s2, begin, p, begin, end);
    Widened(s2, s3, p + 1, end, begin, end);
    RearrangedStep(s0, s1, s2, begin, end);
    RearrangedStep(s0, s2, s3, begin, end);
  }

  /** The partition of the third section: the middle element is moved to
      the last position, every element comparing below it is swapped to
      the front, and it is then swapped into place at `storeIndex`. */
  method Partition<T>(a: array<T>, begin: int, end: int, cmp: (T, T) -> int) returns (storeIndex: int)
    requires 0 <= begin && begin + 3 <= end <= a.Length
    modifies a
    ensures begin <= storeIndex < end
    ensures Rearranged(old(a[..]), a[..], begin, end)
    ensures Partitioned(a[..], begin, storeIndex, end, cmp)
  {
    var length := end - begin;
    var last := end - 1;
    var pivotIndex := begin + length / 2;
    Swap(a, pivotIndex, last);
    SwappedInRange(old(a[..]), pivotIndex, last, begin, end);
    ghost var pivot := a[last];
    storeIndex := begin;
    for i := begin to last
      invariant begin <= storeIndex <= i
      invariant a[last] == pivot
      invariant Rearranged(old(a[..]), a[..], begin, end)
      invariant Below(a[..], begin, storeIndex, pivot, cmp)
      invariant NotBelow(a[..], storeIndex, i, pivot, cmp)
    {
      ghost var before := a[..];
      ghost var store := storeIndex;
      storeIndex := CompareWithLastAndSwap(a, i, last, storeIndex, cmp);
      PartitionStep(before, a[..], begin, store, storeIndex, i, last, cmp);
      if cmp(before[i], before[last]) < 0 {
        SwappedInRange(before, i, store, begin, end);
      }
      RearrangedStep(old(a[..]), before, a[..], begin, end);
    }
    ghost var before := a[..];
    Swap(a, storeIndex, last);
    SwappedInRange(before, storeIndex, last, begin, end);
    RearrangedStep(old(a[..]), before, a[..], begin, end);
    PartitionFinish(before, a[..], begin, storeIndex, end, cmp);
  }

  /** One step of the partition loop keeps its invariant: the front
      `[begin, store)` compares below the pivot at `last`, and
      `[store, i)` does not. */
  lemma PartitionStep<T>(before: seq<T>, after: seq<T>, begin: int, store: int, next: int, i: int, last: int,
                         cmp: (T, T) -> int)
    requires 0 <= begin <= store <= i < last < |before|
    requires Below(before, begin, store, before[last], cmp) && NotBelow(before, store, i, before[last], cmp)
    requires cmp(before[i], before[last]) < 0 ==> next == store + 1 && after == Swapped(before, i, store)
    requires !(cmp(before[i], before[last]) < 0) ==> next == store && after == before
    ensures begin <= next <= i + 1 && after[last] == before[last]
    ensures Below(after, begin, next, before[last], cmp) && NotBelow(after, next, i + 1, before[last], cmp)
  {
    if cmp(before[i], before[last]) < 0 {
      SwappedMeaning(before, i, store);
    }
  }

  /** The final swap puts the pivot at `store`, between the elements that
      compare below it and those that do not. */
  lemma PartitionFinish<T>(before: seq<T>, after: seq<T>, begin: int, store: int, end: int, cmp: (T, T) -> int)
    requires 0 <= begin <= store < end <= |before|
    requires Below(before, begin, store, before[end - 1], cmp)
    requires NotBelow(before, store, end - 1, before[end - 1], cmp)
    requires after == Swapped(before, store, end - 1)
    ensures Partitioned(after, begin, store, end, cmp)
  {
    SwappedMeaning(before, store, end - 1);
  }

  /** Rearranging a rearrangement of the same range is a rearrangement. */
  lemma RearrangedStep<T>(s: seq<T>, t: seq<T>, u: seq<T>, begin: int, end: int)
    requires 0 <= begin <= end <= |s|
    requires Rearranged(s, t, begin, end) && |u| == |t|
    requires multiset(u[begin..end]) == multiset(t[begin..end])
    requires u[..begin] == t[..begin] && u[end..] == t[end..]
    ensures Rearranged(s, u, begin, end)
  {
  }

  /** The recursive calls leave the pivot where it is, and each keeps the
      other side; the elements of each side are unchanged, so they still
      compare with the pivot as they did. */
  lemma SidesKept<T>(s1: seq<T>, s2: seq<T>, s3: seq<T>, begin: int, p: int, end: int, cmp: (T, T) -> int)
    requires 0 <= begin <= p < end <= |s1|
    requires Rearranged(s1, s2, begin, p) && Rearranged(s2, s3, p + 1, end)
    requires SortedRange(s2, begin, p, cmp) && Partitioned(s1, begin, p, end, cmp)
    ensures SortedRange(s3, begin, p, cmp) && Partitioned(s3, begin, p, end, cmp)
  {
    SuffixKept(s1, s2, p, p + 1, end);
    PrefixKept(s2, s3, p + 1, begin, p);
    assert s3[p] == s3[..p + 1][p] == s2[..p + 1][p] == s2[p];
    assert s2[p] == s2[p..][0] == s1[p..][0] == s1[p];
    RearrangedSorted(s2, s3, begin, p, cmp);
    StillBelow(s1, s3, begin, p, s1[p], cmp);
    StillNotBelow(s2, s3, p + 1, end, s1[p], cmp);
    StillNotBelow(s1, s2, p + 1, end, s1[p], cmp);
  }

  /** Slices inside an unchanged prefix are unchanged. */
  lemma PrefixKept<T>(s: seq<T>, t: seq<T>, n: int, b: int, e: int)
    requires 0 <= b <= e <= n <= |s| && n <= |t| && t[..n] == s[..n]
    ensures t[b..e] == s[b..e]
  {
    forall k | 0 <= k < e - b
      ensures t[b..e][k] == s[b..e][k]
    {
      assert t[b + k] == t[..n][b + k] == s[..n][b + k] == s[b + k];
    }
  }

  /** Slices inside an unchanged suffix are unchanged. */
  lemma SuffixKept<T>(s: seq<T>, t: seq<T>, n: int, b: int, e: int)
    requires 0 <= n <= b <= e <= |s| && |t| == |s| && t[n..] == s[n..]
    ensures t[b..e] == s[b..e]
  {
    forall k | 0 <= k < e - b
      ensures t[b..e][k] == s[b..e][k]
    {
      assert t[b + k] == t[n..][b + k - n] == s[n..][b + k - n] == s[b + k];
    }
  }

  /** Each element of `t[b..e]` occurs in `s[b..e]` when the two hold the
      same elements. */
  lemma SameElements<T>(s: seq<T>, t: seq<T>, b: int, e: int, k: int) returns (j: int)
    requires 0 <= b <= k < e <= |s| && e <= |t| && multiset(s[b..e]) == multiset(t[b..e])
    ensures b <= j < e && s[j] == t[k]
  {
    assert t[k] == t[b..e][k - b];
    assert t[k] in multiset(s[b..e]);
    var m :| 0 <= m < e - b && s[b..e][m] == t[k];
    j := b + m;
  }

  lemma StillBelow<T>(s: seq<T>, t: seq<T>, b: int, e: int, pivot: T, cmp: (T, T) -> int)
    requires 0 <= b <= e <= |s| && e <= |t| && multiset(s[b..e]) == multiset(t[b..e])
    requires Below(s, b, e, pivot, cmp)
    ensures Below(t, b, e, pivot, cmp)
  {
    forall k | b <= k < e
      ensures cmp(t[k], pivot) < 0
    {
      var j := SameElements(s, t, b, e, k);
    }
  }

  lemma StillNotBelow<T>(s: seq<T>, t: seq<T>, b: int, e: int, pivot: T, cmp: (T, T) -> int)
    requires 0 <= b <= e <= |s| && e <= |t| && multiset(s[b..e]) == multiset(t[b..e])
    requires NotBelow(s, b, e, pivot, cmp)
    ensures NotBelow(t, b, e, pivot, cmp)
  {
    forall k | b <= k < e
      ensures !(cmp(t[k], pivot) < 0)
    {
      var j := SameElements(s, t, b, e, k);
    }
  }

  /** Equal slices are sorted alike. */
  lemma RearrangedSorted<T>(s: seq<T>, t: seq<T>, b: int, e: int, cmp: (T, T) -> int)
    requires 0 <= b <= e <= |s| && e <= |t| && s[b..e] == t[b..e]
    requires SortedRange(s, b, e, cmp)
    ensures SortedRange(t, b, e, cmp)
  {
    forall i, j | b <= i < j < e
      ensures cmp(t[i], t[j]) <= 0
    {
      assert t[i] == t[b..e][i - b] == s[b..e][i - b] == s[i];
      assert t[j] == t[b..e][j - b] == s[b..e][j - b] == s[j];
    }
  }

  /** A sorted left side below the pivot and a sorted right side not below
      it make the whole range sorted. */
  lemma JoinSorted<T(!new)>(s: seq<T>, begin: int, p: int, end: int, cmp: (T, T) -> int)
    requires 0 <= begin <= p < end <= |s| && TotalOrder(cmp)
    requires SortedRange(s, begin, p, cmp) && SortedRange(s, p + 1, end, cmp)
    requires Partitioned(s, begin, p, end, cmp)
    ensures SortedRange(s, begin, end, cmp)
  {
    forall i, j | begin <= i < j < end
      ensures cmp(s[i], s[j]) <= 0
    {
      if j == p {
      } else if i == p {
        assert !(Compares(cmp, s[j], s[p]) < 0);
      } else if i < p && p < j {
        assert !(Compares(cmp, s[j], s[p]) < 0);
        assert Compares(cmp, s[i], s[p]) <= 0 && Compares(cmp, s[p], s[j]) <= 0;
      }
    }
  }

  /** A rearrangement of a smaller range is one of any range around it. */
  lemma Widened<T>(s: seq<T>, t: seq<T>, b: int, e: int, begin: int, end: int)
    requires 0 <= begin <= b <= e <= end <= |s|
    requires Rearranged(s, t, b, e)
    ensures Rearranged(s, t, begin, end)
  {
    assert s[begin..b] == s[..b][begin..] && t[begin..b] == t[..b][begin..];
    assert s[e..end] == s[e..][..end - e] && t[e..end] == t[e..][..end - e];
    assert s[begin..end] == s[begin..b] + s[b..e] + s[e..end];
    assert t[begin..end] == t[begin..b] + t[b..e] + t[e..end];
    assert s[..begin] == s[..b][..begin] && t[..begin] == t[..b][..begin];
    assert s[end..] == s[e..][end - e..] && t[end..] == t[e..][end - e..];
  }

  // ---------------------------------------------------------------------
  // The comparison the module's tests sort numbers with

  /** -1, 1 or 0 as `left` is below, above or equal to `right`. */
  function NumberCompare(left: int, right: int): int
  {
    if left < right then -1 else if left > right then 1 else 0
  }

  lemma NumberCompareIsTotalOrder()
    ensures TotalOrder(NumberCompare)
  {
    assert forall x: int, y: int :: Compares(NumberCompare, x, y) <= 0 <==> x <= y;
  }

  /** The numbers 4, 2, 3, 1 come out as 1, 2, 3, 4. */
  method SortsFourNumbers() returns (r: seq<int>)
    ensures r == [1, 2, 3, 4]
  {
    var a := new int[4][4, 2, 3, 1];
    NumberCompareIsTotalOrder();
    ghost var before := a[..];
    assert before[0..4] == [4, 2, 3, 1];
    Sort(a, 0, 4, NumberCompare);
    r := a[..];
    assert a[..][0..4] == r;
    assert multiset(r) == multiset{1, 2, 3, 4};
    SortedNumbers(r);
  }

  /** The only ascending order of 1, 2, 3, 4. */
  lemma SortedNumbers(s: seq<int>)
    requires |s| == 4 && SortedRange(s, 0, 4, NumberCompare) && multiset(s) == multiset{1, 2, 3, 4}
    ensures s == [1, 2, 3, 4]
  {
    assert NumberCompare(s[0], s[1]) <= 0 && NumberCompare(s[1], s[2]) <= 0 && NumberCompare(s[2], s[3]) <= 0;
    assert s == [s[0], s[1], s[2], s[3]];
    assert multiset(s) == multiset{s[0], s[1], s[2], s[3]};
    AscendingOnceEach(s[0], s[1], s[2], s[3]);
  }

  /** 1, 2, 3 and 4 in ascending order are 1, 2, 3, 4. */
  lemma AscendingOnceEach(a: int, b: int, c: int, d: int)
    requires a <= b <= c <= d && multiset{a, b, c, d} == multiset{1, 2, 3, 4}
    ensures a == 1 && b == 2 && c == 3 && d == 4
  {
    var m := multiset{a, b, c, d};
    assert m[1] == 1 && m[2] == 1 && m[3] == 1 && m[4] == 1;
    assert a in m && d in m;
    assert a == b ==> m[a] >= 2;
    assert b == c ==> m[b] >= 2;
    assert c == d ==> m[c] >= 2;
  }
}

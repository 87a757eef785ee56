/** The array helpers the example algorithms are written with: swapping two
    positions, counting through a range, and comparing two positions with a
    caller-supplied comparison. */
module Tools {

  /** `s` with positions `i` and `j` exchanged. */
  function Swapped<T>(s: seq<T>, i: int, j: int): (r: seq<T>)
    requires 0 <= i < |s| && 0 <= j < |s|
    ensures |r| == |s|
  {
    s[i := s[j]][j := s[i]]
  }

  /** A swap exchanges the two positions, keeps every other one, and so
      keeps the elements; doing it twice restores the sequence. */
  lemma SwappedMeaning<T>(s: seq<T>, i: int, j: int)
    requires 0 <= i < |s| && 0 <= j < |s|
    ensures Swapped(s, i, j)[i] == s[j] && Swapped(s, i, j)[j] == s[i]
    ensures forall k :: 0 <= k < |s| && k != i && k != j ==> Swapped(s, i, j)[k] == s[k]
    ensures multiset(Swapped(s, i, j)) == multiset(s)
    ensures Swapped(Swapped(s, i, j), i, j) == s
  {
  }

  /** A swap inside `[b, e)` keeps the elements of that range and
      everything outside it. */
  lemma SwappedInRange<T>(s: seq<T>, i: int, j: int, b: int, e: int)
    requires 0 <= b <= i < e <= |s| && b <= j < e
    ensures multiset(Swapped(s, i, j)[b..e]) == multiset(s[b..e])
    ensures Swapped(s, i, j)[..b] == s[..b] && Swapped(s, i, j)[e..] == s[e..]
  {
    var t := Swapped(s, i, j);
    assert t[b..e] == Swapped(s[b..e], i - b, j - b);
    SwappedMeaning(s[b..e], i - b, j - b);
  }

  /** swap: exchanges `array[one]` and `array[two]` in place. */
  method Swap<T>(a: array<T>, one: int, two: int)
    requires 0 <= one < a.Length && 0 <= two < a.Length
    modifies a
    ensures a[..] == Swapped(old(a[..]), one, two)
  {
    var tmp := a[one];
    a[one] := a[two];
    a[two] := tmp;
  }

  /** The indices `begin, begin + 1, ..., end - 1`; none when `begin >= end`. */
  function Range(begin: int, end: int): (r: seq<int>)
    ensures |r| == if begin < end then end - begin else 0
    ensures forall k :: 0 <= k < |r| ==> r[k] == begin + k
    decreases end - begin
  {
    if begin >= end then [] else [begin] + Range(begin + 1, end)
  }

  /** A state threaded through `callback(state, i)` for the indices
      in order. */
  function Fold<S>(callback: (S, int) -> S, init: S, indices: seq<int>): S
  {
    if indices == [] then init
    else callback(Fold(callback, init, indices[..|indices| - 1]), indices[|indices| - 1])
  }

  /** loop: calls `callback(i)` for `i` from `begin` up to `end - 1`, in
      increasing order.  The callback's effect is a state it updates; the
      calls made are returned alongside it. */
  method Loop<S>(begin: int, end: int, callback: (S, int) -> S, init: S) returns (state: S, calls: seq<int>)
    ensures calls == Range(begin, end)
    ensures state == Fold(callback, init, calls)
  {
    state := init;
    calls := [];
    var i := begin;
    while i < end
      invariant begin <= end ==> begin <= i <= end
      invariant begin > end ==> i == begin
      invariant calls == Range(begin, i)
      invariant state == Fold(callback, init, calls)
      decreases end - i
    {
      RangeExtend(begin, i);
      state := callback(state, i);
      calls := calls + [i];
      i := i + 1;
    }
  }

  lemma RangeExtend(begin: int, i: int)
    requires begin <= i
    ensures Range(begin, i + 1) == Range(begin, i) + [i]
  {
  }

  /** compare: the comparison of the elements at two positions. */
  method Compare<T>(a: array<T>, i1: int, i2: int, cmp: (T, T) -> int) returns (c: int)
    requires 0 <= i1 < a.Length && 0 <= i2 < a.Length
    ensures c == cmp(a[i1], a[i2])
  {
    var left := a[i1];
    var right := a[i2];
    c := cmp(left, right);
  }

  /** compareWithLastAndSwap: when `array[left]` compares below
      `array[right]`, it is swapped into `storeIndex`, which moves up by
      one; otherwise nothing changes. */
  method CompareWithLastAndSwap<T>(a: array<T>, left: int, right: int, storeIndex: int, cmp: (T, T) -> int)
    returns (next: int)
    requires 0 <= left < a.Length && 0 <= right < a.Length && 0 <= storeIndex < a.Length
    modifies a
    ensures cmp(old(a[left]), old(a[right])) < 0 ==>
              next == storeIndex + 1 && a[..] == Swapped(old(a[..]), left, storeIndex)
    ensures !(cmp(old(a[left]), old(a[right])) < 0) ==>
              next == storeIndex && a[..] == old(a[..])
  {
    next := storeIndex;
    var c := Compare(a, left, right, cmp);
    if c < 0 {
      Swap(a, left, storeIndex);
      next := next + 1;
    }
  }
}

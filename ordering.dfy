/**
 * The two-tier in-place sort of PickInfo.java: insertion sort below seven
 * elements, otherwise a middle-pivot Hoare quicksort whose inner scans rely on
 * the pivot value as a sentinel instead of a bounds check.
 *
 * The source carries three copies of this routine that differ only in the key
 * (sortIntersectionInfoArray, sortPickInfoArray, sortGeomAtoms). The first two
 * sort one array of records by a field; they are modelled once, as SortByKey
 * over an array<T> and a total key function. The third moves a key array and a
 * payload array in lockstep; it is modelled as SortParallel.
 */
module Ordering {

  /** Below this length the insertion sort runs, at or above it the quicksort. */
  const InsertionSortLimit: nat := 7

  /** The keys of a[lo..hi] are non-decreasing. */
  ghost predicate SortedOn<T>(a: seq<T>, key: T -> real, lo: int, hi: int)
    requires 0 <= lo <= hi <= |a|
  {
    forall x, y :: lo <= x < y < hi ==> key(a[x]) <= key(a[y])
  }

  ghost predicate Sorted<T>(a: seq<T>, key: T -> real)
  {
    SortedOn(a, key, 0, |a|)
  }

  /** s1 rearranges s0 within [lo, hi) and leaves every other position alone. */
  ghost predicate Permuted<T>(s0: seq<T>, s1: seq<T>, lo: int, hi: int)
  {
    |s1| == |s0| && 0 <= lo <= hi <= |s0| &&
    multiset(s1) == multiset(s0) &&
    forall x :: 0 <= x < |s0| && !(lo <= x < hi) ==> s1[x] == s0[x]
  }

  /** s with the elements at i and j exchanged. */
  ghost function Swapped<T>(s: seq<T>, i: int, j: int): seq<T>
    requires 0 <= i < |s| && 0 <= j < |s|
  {
    s[i := s[j]][j := s[i]]
  }

  /** What one partition pass leaves behind: the keys of [l, i) are at most
      the pivot value k and the keys of (j, r] at least k. */
  ghost predicate Split<T>(s: seq<T>, key: T -> real, l: int, j: int, i: int, r: int, k: real)
  {
    0 <= l && l - 1 <= j < i <= r + 1 && r < |s| &&
    (forall x :: l <= x < i ==> key(s[x]) <= k) &&
    (forall x :: j < x <= r ==> key(s[x]) >= k)
  }

  /** If two sequences agree outside [lo, hi) and are permutations of each
      other, then so are their slices [lo, hi). */
  lemma {:induction false} SlicePermutation<T>(s0: seq<T>, s1: seq<T>, lo: int, hi: int)
    requires Permuted(s0, s1, lo, hi)
    ensures multiset(s1[lo..hi]) == multiset(s0[lo..hi])
  {
    assert s0 == s0[..lo] + s0[lo..hi] + s0[hi..];
    assert s1 == s1[..lo] + s1[lo..hi] + s1[hi..];
    assert s0[..lo] == s1[..lo];
    assert s0[hi..] == s1[hi..];
    calc {
      multiset(s1[lo..hi]);
      multiset(s1) - multiset(s1[..lo]) - multiset(s1[hi..]);
      multiset(s0) - multiset(s0[..lo]) - multiset(s0[hi..]);
      multiset(s0[lo..hi]);
    }
  }

  /** A rearrangement of [lo, hi) keeps every bound that held of the keys
      in [lo, hi). */
  lemma {:induction false} PermutationKeepsBounds<T>(s0: seq<T>, s1: seq<T>, key: T -> real, lo: int, hi: int, k: real)
    requires Permuted(s0, s1, lo, hi)
    ensures (forall x :: lo <= x < hi ==> key(s0[x]) <= k) ==> (forall x :: lo <= x < hi ==> key(s1[x]) <= k)
    ensures (forall x :: lo <= x < hi ==> key(s0[x]) >= k) ==> (forall x :: lo <= x < hi ==> key(s1[x]) >= k)
  {
    SlicePermutation(s0, s1, lo, hi);
    forall x | lo <= x < hi
      ensures exists y :: lo <= y < hi && s1[x] == s0[y]
    {
      assert s1[x] == s1[lo..hi][x - lo];
      assert s1[x] in multiset(s0[lo..hi]);
      var y :| 0 <= y < hi - lo && s0[lo..hi][y] == s1[x];
      assert s0[lo + y] == s1[x];
    }
  }

  /** Rearranging [lo, hi) and then a sub-range of it rearranges [lo, hi). */
  lemma {:induction false} PermutedTrans<T>(s0: seq<T>, s1: seq<T>, s2: seq<T>, lo: int, hi: int, lo': int, hi': int)
    requires Permuted(s0, s1, lo, hi) && Permuted(s1, s2, lo', hi')
    requires lo <= lo' && hi' <= hi
    ensures Permuted(s0, s2, lo, hi)
  {
  }

  /** One more exchange inside [lo, hi) keeps a rearrangement of [lo, hi). */
  lemma {:induction false} SwapKeepsPermuted<T>(s0: seq<T>, s1: seq<T>, i: int, j: int, lo: int, hi: int)
    requires Permuted(s0, s1, lo, hi) && lo <= i < hi && lo <= j < hi
    ensures Permuted(s0, Swapped(s1, i, j), lo, hi)
  {
    var s2 := Swapped(s1, i, j);
    assert multiset(s1[i := s1[j]]) == multiset(s1) - multiset{s1[i]} + multiset{s1[j]};
  }

  /** The induction step of the quicksort: a partition pass, then a sort of
      [l, j], then a sort of [i, r], sort [l, r]. The element between j and
      i, if any, already sits between the two halves. */
  lemma {:induction false} CombineSorted<T>(s0: seq<T>, s1: seq<T>, s2: seq<T>, s3: seq<T>, key: T -> real,
                                            l: int, j: int, i: int, r: int, k: real)
    requires Permuted(s0, s1, l, r + 1) && Split(s1, key, l, j, i, r, k)
    requires Permuted(s1, s2, l, j + 1) && SortedOn(s2, key, l, j + 1)
    requires Permuted(s2, s3, i, r + 1) && SortedOn(s3, key, i, r + 1)
    ensures Permuted(s0, s3, l, r + 1) && SortedOn(s3, key, l, r + 1)
  {
    PermutedTrans(s0, s1, s2, l, r + 1, l, j + 1);
    PermutedTrans(s0, s2, s3, l, r + 1, i, r + 1);
    PermutationKeepsBounds(s1, s2, key, l, j + 1, k);
    PermutationKeepsBounds(s2, s3, key, i, r + 1, k);
    assert forall x :: l <= x < i ==> key(s3[x]) <= k by {
      forall x | l <= x < i
        ensures key(s3[x]) <= k
      {
        if x > j {
          assert s3[x] == s2[x] == s1[x];
        } else {
          assert s3[x] == s2[x];
        }
      }
    }
    assert forall y :: j < y <= r ==> key(s3[y]) >= k by {
      forall y | j < y <= r
        ensures key(s3[y]) >= k
      {
        if y < i {
          assert s3[y] == s2[y] == s1[y];
        }
      }
    }
    forall x, y | l <= x < y <= r
      ensures key(s3[x]) <= key(s3[y])
    {
      if y <= j {
        assert s3[x] == s2[x] && s3[y] == s2[y];
      } else if x >= i {
      } else {
        assert key(s3[x]) <= k <= key(s3[y]);
      }
    }
  }

  /** Exchanges two elements, as the three-statement swaps of the source do. */
  method Swap<T>(a: array<T>, i: int, j: int)
    requires 0 <= i < a.Length && 0 <= j < a.Length
    modifies a
    ensures a[..] == Swapped(old(a[..]), i, j)
    ensures a[i] == old(a[j]) && a[j] == old(a[i])
    ensures forall x :: 0 <= x < a.Length && x != i && x != j ==> a[x] == old(a[x])
    ensures multiset(a[..]) == multiset(old(a[..]))
  {
    var t := a[i];
    a[i] := a[j];
    a[j] := t;
  }

  /** Insertion sort by adjacent exchanges (PickInfo.java:193-202). */
  method InsertSort<T>(a: array<T>, key: T -> real)
    modifies a
    ensures Sorted(a[..], key)
    ensures multiset(a[..]) == multiset(old(a[..]))
  {
    for i := 0 to a.Length
      invariant SortedOn(a[..], key, 0, i)
      invariant multiset(a[..]) == multiset(old(a[..]))
    {
      var j := i;
      while j > 0 && key(a[j - 1]) > key(a[j])
        invariant 0 <= j <= i
        invariant forall x, y :: 0 <= x < y <= i && x != j && y != j ==> key(a[x]) <= key(a[y])
        invariant forall y :: j < y <= i ==> key(a[j]) <= key(a[y])
        invariant multiset(a[..]) == multiset(old(a[..]))
      {
        Swap(a, j, j - 1);
        j := j - 1;
      }
    }
  }

  /** `while (key(a[i]) < k) i++` (PickInfo.java:210): the element at the
      ghost index pi stops the scan, so no bounds check is needed. */
  method ScanUp<T>(a: array<T>, key: T -> real, k: real, i0: int, ghost pi: int) returns (i: int)
    requires 0 <= i0 <= pi < a.Length && key(a[pi]) >= k
    ensures i0 <= i <= pi && key(a[i]) >= k
    ensures forall x :: i0 <= x < i ==> key(a[x]) < k
  {
    i := i0;
    while key(a[i]) < k
      invariant i0 <= i <= pi
      invariant forall x :: i0 <= x < i ==> key(a[x]) < k
      decreases pi - i
    {
      i := i + 1;
    }
  }

  /** `while (k < key(a[j])) j--` (PickInfo.java:211), stopped by the element
      at the ghost index pj. */
  method ScanDown<T>(a: array<T>, key: T -> real, k: real, j0: int, ghost pj: int) returns (j: int)
    requires 0 <= pj <= j0 < a.Length && key(a[pj]) <= k
    ensures pj <= j <= j0 && key(a[j]) <= k
    ensures forall x :: j < x <= j0 ==> key(a[x]) > k
  {
    j := j0;
    while k < key(a[j])
      invariant pj <= j <= j0
      invariant forall x :: j < x <= j0 ==> key(a[x]) > k
      decreases j - pj
    {
      j := j - 1;
    }
  }

  /** One round of the quicksort's do-while loop (PickInfo.java:210-218):
      the scans `while (key(a[i]) < k) i++` and `while (k < key(a[j])) j--`
      have no bounds check; the ghost indices pi0 and pj0 name an element
      that stops each scan (in the first round the pivot itself). If the
      scans have not crossed, the two elements are exchanged and both ends
      move inwards. */
  method PartitionRound<T>(a: array<T>, key: T -> real, k: real, l: int, r: int,
                           i0: int, j0: int, ghost pi0: int, ghost pj0: int)
    returns (i: int, j: int, ghost pi: int, ghost pj: int)
    requires 0 <= l <= i0 <= pi0 <= r < a.Length && l <= pj0 <= j0 <= r && i0 <= j0
    requires key(a[pi0]) >= k && key(a[pj0]) <= k
    requires (i0 == l && j0 == r && pi0 == pj0 && (l < r ==> pi0 < r)) || (l < i0 && j0 < r && pi0 <= j0 + 1 && i0 - 1 <= pj0)
    requires forall x :: l <= x < i0 ==> key(a[x]) <= k
    requires forall x :: j0 < x <= r ==> key(a[x]) >= k
    modifies a
    ensures Permuted(old(a[..]), a[..], l, r + 1)
    ensures l < i <= r + 1 && l - 1 <= j < r && (l < r ==> i <= r)
    ensures forall x :: l <= x < i ==> key(a[x]) <= k
    ensures forall x :: j < x <= r ==> key(a[x]) >= k
    ensures i <= j ==> j - i < j0 - i0 && i <= pi <= r && l <= pj <= j && pi <= j + 1 && i - 1 <= pj
    ensures i <= j ==> key(a[pi]) >= k && key(a[pj]) <= k
  {
    i := ScanUp(a, key, k, i0, pi0);
    j := ScanDown(a, key, k, j0, pj0);
    pi, pj := pi0, pj0;
    if i <= j {
      Swap(a, i, j);
      pi, pj := j, i;
      i, j := i + 1, j - 1;
    }
  }

  /** The partition pass of PickInfo.java:205-219. On exit every key left
      of i is at most the pivot value k and every key right of j at least
      k, and both ends have moved inwards, so each recursive range is
      smaller. */
  method Partition<T>(a: array<T>, key: T -> real, l: int, r: int) returns (i: int, j: int, ghost k: real)
    requires 0 <= l <= r < a.Length
    modifies a
    ensures Permuted(old(a[..]), a[..], l, r + 1)
    ensures Split(a[..], key, l, j, i, r, k)
    ensures l < i && j < r && (l < r ==> i <= r)
  {
    i, j := l, r;
    var pivot := key(a[(l + r) / 2]);
    k := pivot;
    ghost var pi, pj := (l + r) / 2, (l + r) / 2;
    while true
      invariant l <= i <= pi <= r && l <= pj <= j <= r && i <= j
      invariant key(a[pi]) >= k && key(a[pj]) <= k
      invariant (i == l && j == r && pi == pj && (l < r ==> pi < r)) || (l < i && j < r && pi <= j + 1 && i - 1 <= pj)
      invariant forall x :: l <= x < i ==> key(a[x]) <= k
      invariant forall x :: j < x <= r ==> key(a[x]) >= k
      invariant Permuted(old(a[..]), a[..], l, r + 1)
      decreases j - i
    {
      ghost var before := a[..];
      i, j, pi, pj := PartitionRound(a, key, pivot, l, r, i, j, pi, pj);
      PermutedTrans(old(a[..]), before, a[..], l, r + 1, l, r + 1);
      if !(i <= j) {
        break;
      }
    }
  }

  /** Middle-pivot Hoare quicksort of a[l..r] (PickInfo.java:204-223). The
      second recursive call keeps the source's guard `l < r` rather than
      `i < r`; Partition shows i <= r whenever l < r, so that call is always
      on a valid, strictly smaller range (at worst one element). */
  method Quicksort<T>(a: array<T>, key: T -> real, l: int, r: int)
    requires 0 <= l <= r < a.Length
    modifies a
    ensures Permuted(old(a[..]), a[..], l, r + 1)
    ensures SortedOn(a[..], key, l, r + 1)
    decreases r - l
  {
    var i, j, k := Partition(a, key, l, r);
    ghost var parted := a[..];
    if l < j {
      Quicksort(a, key, l, j);
    }
    ghost var left := a[..];
    if l < r {
      Quicksort(a, key, i, r);
    }
    CombineSorted(old(a[..]), parted, left, a[..], key, l, j, i, r, k);
  }

  /** The dispatch of PickInfo.java:182-190 on one array of records. */
  method SortByKey<T>(a: array<T>, key: T -> real)
    modifies a
    ensures Sorted(a[..], key)
    ensures multiset(a[..]) == multiset(old(a[..]))
  {
    if a.Length < InsertionSortLimit {
      InsertSort(a, key);
    } else {
      Quicksort(a, key, 0, a.Length - 1);
    }
  }

  /** The (key, payload) pairs of two parallel sequences. */
  ghost function Zip<T>(keys: seq<real>, items: seq<T>): seq<(real, T)>
    requires |keys| == |items|
    ensures |Zip(keys, items)| == |keys|
  {
    seq(|keys|, n requires 0 <= n < |keys| => (keys[n], items[n]))
  }

  /** A pair is ordered by its key. */
  function PairKey<T>(p: (real, T)): real { p.0 }

  /** Bounds on the keys alone are bounds on the pairs. */
  lemma {:induction false} ZipSplit<T>(keys: seq<real>, items: seq<T>, l: int, j: int, i: int, r: int, k: real)
    requires |keys| == |items| && 0 <= l && l - 1 <= j < i <= r + 1 && r < |keys|
    requires forall x :: l <= x < i ==> keys[x] <= k
    requires forall x :: j < x <= r ==> keys[x] >= k
    ensures Split(Zip(keys, items), PairKey, l, j, i, r, k)
  {
    var z := Zip(keys, items);
    assert forall x :: 0 <= x < |z| ==> PairKey(z[x]) == keys[x];
  }

  /** Keys in order make pairs in order. */
  lemma {:induction false} ZipSorted<T>(keys: seq<real>, items: seq<T>)
    requires |keys| == |items|
    requires forall x, y :: 0 <= x < y < |keys| ==> keys[x] <= keys[y]
    ensures Sorted(Zip(keys, items), PairKey)
  {
    var z := Zip(keys, items);
    assert forall x :: 0 <= x < |z| ==> PairKey(z[x]) == keys[x];
  }

  /** Exchanges two positions of both arrays at once (PickInfo.java:547-552
      and :566-572). */
  method SwapBoth<T>(keys: array<real>, items: array<T>, i: int, j: int)
    requires keys as object != items as object && keys.Length == items.Length
    requires 0 <= i < keys.Length && 0 <= j < keys.Length
    modifies keys, items
    ensures Zip(keys[..], items[..]) == Swapped(Zip(old(keys[..]), old(items[..])), i, j)
    ensures keys[i] == old(keys[j]) && keys[j] == old(keys[i])
    ensures forall x :: 0 <= x < keys.Length && x != i && x != j ==> keys[x] == old(keys[x])
    ensures multiset(Zip(keys[..], items[..])) == multiset(Zip(old(keys[..]), old(items[..])))
  {
    ghost var z0 := Zip(keys[..], items[..]);
    var t := keys[i];
    keys[i] := keys[j];
    keys[j] := t;
    var p := items[i];
    items[i] := items[j];
    items[j] := p;
    assert Zip(keys[..], items[..]) == Swapped(z0, i, j);
  }

  /** Insertion sort of the keys, moving the payload with them
      (PickInfo.java:543-555). */
  method InsertSortParallel<T>(keys: array<real>, items: array<T>)
    requires keys as object != items as object && keys.Length == items.Length
    modifies keys, items
    ensures Sorted(Zip(keys[..], items[..]), PairKey)
    ensures multiset(Zip(keys[..], items[..])) == multiset(Zip(old(keys[..]), old(items[..])))
  {
    for i := 0 to keys.Length
      invariant forall x, y :: 0 <= x < y < i ==> keys[x] <= keys[y]
      invariant multiset(Zip(keys[..], items[..])) == multiset(Zip(old(keys[..]), old(items[..])))
    {
      var j := i;
      while j > 0 && keys[j - 1] > keys[j]
        invariant 0 <= j <= i
        invariant forall x, y :: 0 <= x < y <= i && x != j && y != j ==> keys[x] <= keys[y]
        invariant forall y :: j < y <= i ==> keys[j] <= keys[y]
        invariant multiset(Zip(keys[..], items[..])) == multiset(Zip(old(keys[..]), old(items[..])))
      {
        SwapBoth(keys, items, j, j - 1);
        j := j - 1;
      }
    }
    ZipSorted(keys[..], items[..]);
  }

  /** One round of the partition loop of PickInfo.java:562-576, exchanging
      in both arrays. */
  method PartitionRoundParallel<T>(keys: array<real>, items: array<T>, k: real, l: int, r: int,
                                   i0: int, j0: int, ghost pi0: int, ghost pj0: int)
    returns (i: int, j: int, ghost pi: int, ghost pj: int)
    requires keys as object != items as object && keys.Length == items.Length
    requires 0 <= l <= i0 <= pi0 <= r < keys.Length && l <= pj0 <= j0 <= r && i0 <= j0
    requires keys[pi0] >= k && keys[pj0] <= k
    requires (i0 == l && j0 == r && pi0 == pj0 && (l < r ==> pi0 < r)) || (l < i0 && j0 < r && pi0 <= j0 + 1 && i0 - 1 <= pj0)
    requires forall x :: l <= x < i0 ==> keys[x] <= k
    requires forall x :: j0 < x <= r ==> keys[x] >= k
    modifies keys, items
    ensures Permuted(Zip(old(keys[..]), old(items[..])), Zip(keys[..], items[..]), l, r + 1)
    ensures l < i <= r + 1 && l - 1 <= j < r && (l < r ==> i <= r)
    ensures forall x :: l <= x < i ==> keys[x] <= k
    ensures forall x :: j < x <= r ==> keys[x] >= k
    ensures i <= j ==> j - i < j0 - i0 && i <= pi <= r && l <= pj <= j && pi <= j + 1 && i - 1 <= pj
    ensures i <= j ==> keys[pi] >= k && keys[pj] <= k
  {
    i := ScanUp(keys, d => d, k, i0, pi0);
    j := ScanDown(keys, d => d, k, j0, pj0);
    pi, pj := pi0, pj0;
    if i <= j {
      SwapBoth(keys, items, i, j);
      SwapKeepsPermuted(Zip(old(keys[..]), old(items[..])), Zip(old(keys[..]), old(items[..])), i, j, l, r + 1);
      pi, pj := j, i;
      i, j := i + 1, j - 1;
    }
  }

  /** The partitioning pass of PickInfo.java:557-576, on both arrays. */
  method PartitionParallel<T>(keys: array<real>, items: array<T>, l: int, r: int) returns (i: int, j: int, ghost k: real)
    requires keys as object != items as object && keys.Length == items.Length
    requires 0 <= l <= r < keys.Length
    modifies keys, items
    ensures Permuted(Zip(old(keys[..]), old(items[..])), Zip(keys[..], items[..]), l, r + 1)
    ensures Split(Zip(keys[..], items[..]), PairKey, l, j, i, r, k)
    ensures l < i && j < r && (l < r ==> i <= r)
  {
    i, j := l, r;
    var pivot := keys[(l + r) / 2];
    k := pivot;
    ghost var pi, pj := (l + r) / 2, (l + r) / 2;
    while true
      invariant l <= i <= pi <= r && l <= pj <= j <= r && i <= j
      invariant keys[pi] >= k && keys[pj] <= k
      invariant (i == l && j == r && pi == pj && (l < r ==> pi < r)) || (l < i && j < r && pi <= j + 1 && i - 1 <= pj)
      invariant forall x :: l <= x < i ==> keys[x] <= k
      invariant forall x :: j < x <= r ==> keys[x] >= k
      invariant Permuted(Zip(old(keys[..]), old(items[..])), Zip(keys[..], items[..]), l, r + 1)
      decreases j - i
    {
      ghost var before := Zip(keys[..], items[..]);
      i, j, pi, pj := PartitionRoundParallel(keys, items, pivot, l, r, i, j, pi, pj);
      PermutedTrans(Zip(old(keys[..]), old(items[..])), before, Zip(keys[..], items[..]), l, r + 1, l, r + 1);
      if !(i <= j) {
        break;
      }
    }
    ZipSplit(keys[..], items[..], l, j, i, r, k);
  }

  /** The quicksort of PickInfo.java:557-580, with the same `l < r` guard. */
  method QuicksortParallel<T>(keys: array<real>, items: array<T>, l: int, r: int)
    requires keys as object != items as object && keys.Length == items.Length
    requires 0 <= l <= r < keys.Length
    modifies keys, items
    ensures Permuted(Zip(old(keys[..]), old(items[..])), Zip(keys[..], items[..]), l, r + 1)
    ensures SortedOn(Zip(keys[..], items[..]), PairKey, l, r + 1)
    decreases r - l
  {
    var i, j, k := PartitionParallel(keys, items, l, r);
    ghost var parted := Zip(keys[..], items[..]);
    if l < j {
      QuicksortParallel(keys, items, l, j);
    }
    ghost var left := Zip(keys[..], items[..]);
    if l < r {
      QuicksortParallel(keys, items, i, r);
    }
    CombineSorted(Zip(old(keys[..]), old(items[..])), parted, left, Zip(keys[..], items[..]), PairKey, l, j, i, r, k);
  }

  /** The dispatch of PickInfo.java:534-540 on a key array and its payload:
      afterwards the (key, payload) pairs are in key order and are exactly
      the pairs of the input. */
  method SortParallel<T>(keys: array<real>, items: array<T>)
    requires keys as object != items as object && keys.Length == items.Length
    modifies keys, items
    ensures Sorted(Zip(keys[..], items[..]), PairKey)
    ensures multiset(Zip(keys[..], items[..])) == multiset(Zip(old(keys[..]), old(items[..])))
  {
    if keys.Length < InsertionSortLimit {
      InsertSortParallel(keys, items);
    } else {
      QuicksortParallel(keys, items, 0, keys.Length - 1);
    }
  }
  /** f applied to every element of s. */
  function MapSeq<A, B>(s: seq<A>, f: A -> B): (r: seq<B>)
    ensures |r| == |s|
  {
    seq(|s|, i requires 0 <= i < |s| => f(s[i]))
  }

  /** Taking out the element at k takes it out of the multiset. */
  lemma RemoveAt<A>(s: seq<A>, k: int)
    requires 0 <= k < |s|
    ensures multiset(s) == multiset(s[..k] + s[k + 1..]) + multiset{s[k]}
  {
    assert s == s[..k] + [s[k]] + s[k + 1..];
  }

  lemma Cancel<A>(m0: multiset<A>, m1: multiset<A>, x: A)
    requires m0 + multiset{x} == m1 + multiset{x}
    ensures m0 == m1
  {
    assert forall y :: m0[y] == (m0 + multiset{x})[y] - (if y == x then 1 else 0);
    assert forall y :: m1[y] == (m1 + multiset{x})[y] - (if y == x then 1 else 0);
  }

  /** Taking out an element commutes with MapSeq. */
  lemma MapSeqRemove<A, B>(s: seq<A>, k: int, f: A -> B)
    requires 0 <= k < |s|
    ensures MapSeq(s[..k] + s[k + 1..], f) == MapSeq(s, f)[..k] + MapSeq(s, f)[k + 1..]
  {
    var t := s[..k] + s[k + 1..];
    assert forall i :: 0 <= i < |t| ==> t[i] == if i < k then s[i] else s[i + 1];
  }

  /** Taking out the element at k takes its image out of the image's
      multiset. */
  lemma MapRemoveAt<A, B>(s: seq<A>, k: int, rest: seq<A>, f: A -> B)
    requires 0 <= k < |s| && rest == s[..k] + s[k + 1..]
    ensures multiset(MapSeq(s, f)) == multiset(MapSeq(rest, f)) + multiset{f(s[k])}
  {
    MapSeqRemove(s, k, f);
    RemoveAt(MapSeq(s, f), k);
  }

  /** The induction step of MapPermutation: matching the first element of
      s0 with the element at k of s1. */
  lemma MapStep<A, B>(s0: seq<A>, s1: seq<A>, k: int, f: A -> B)
    requires |s0| > 0 && 0 <= k < |s1| && s0[0] == s1[k]
    requires multiset(MapSeq(s0[1..], f)) == multiset(MapSeq(s1[..k] + s1[k + 1..], f))
    ensures multiset(MapSeq(s0, f)) == multiset(MapSeq(s1, f))
  {
    var x := f(s0[0]);
    assert multiset(MapSeq(s0, f)) == multiset(MapSeq(s0[1..], f)) + multiset{x} by {
      assert s0[..0] + s0[1..] == s0[1..];
      MapRemoveAt(s0, 0, s0[1..], f);
    }
    assert multiset(MapSeq(s1, f)) == multiset(MapSeq(s1[..k] + s1[k + 1..], f)) + multiset{x} by {
      MapRemoveAt(s1, k, s1[..k] + s1[k + 1..], f);
    }
  }

  /** Permuting a sequence permutes its image: in particular the payloads
      of two permutations of the same (key, payload) pairs are permutations
      of each other. */
  lemma {:induction false} MapPermutation<A, B>(s0: seq<A>, s1: seq<A>, f: A -> B)
    requires multiset(s0) == multiset(s1)
    ensures multiset(MapSeq(s0, f)) == multiset(MapSeq(s1, f))
    decreases |s0|
  {
    if |s0| == 0 {
      assert |multiset(s1)| == 0;
    } else {
      var x := s0[0];
      assert x in multiset(s1);
      var k :| 0 <= k < |s1| && s1[k] == x;
      var t1 := s1[..k] + s1[k + 1..];
      RemoveAt(s0, 0);
      RemoveAt(s1, k);
      assert s0[..0] + s0[1..] == s0[1..];
      Cancel(multiset(s0[1..]), multiset(t1), x);
      MapPermutation(s0[1..], t1, f);
      MapStep(s0, s1, k, f);
    }
  }
}

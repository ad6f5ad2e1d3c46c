/** The merge sort producer (mergeSort): a top-down merge sort whose inner
    merge and sort share the value array, the trace and both counters. The
    shared trace and counters are threaded through the methods as
    parameters and results; the value array is modified in place. */
module Merge {
  import opened Types
  import opened SortSpec
  import opened Steps
  import opened Arrays

  /** The markers of one step of the main merge loop: a fresh all-Default
      marker array in which the loop over l..r marks the merged range
      Comparing, one index at a time. */
  method Highlight(n: nat, l: nat, r: nat) returns (bars: seq<BarState>)
    requires l <= r < n
    ensures |bars| == n
    ensures forall q :: 0 <= q < n ==> bars[q] == (if l <= q <= r then Comparing else Default)
  {
    bars := Uniform(n, Default);
    var p := l;
    while p <= r
      invariant l <= p <= r + 1 && |bars| == n
      invariant forall q :: 0 <= q < n ==> bars[q] == (if l <= q < p then Comparing else Default)
    {
      bars := bars[p := Comparing];
      p := p + 1;
    }
  }

  /** Number of head comparisons the merge of a and b makes: one per value
      taken while both runs still have values. */
  ghost function MergeComparisons(a: seq<int>, b: seq<int>): nat
    decreases |a| + |b|
  {
    if a == [] || b == [] then 0
    else if a[0] <= b[0] then 1 + MergeComparisons(a[1..], b)
    else 1 + MergeComparisons(a, b[1..])
  }

  /** The merge compares at least as often as the shorter run is long and
      at most once per value but the last. */
  lemma {:induction false} MergeComparisonsBounds(a: seq<int>, b: seq<int>)
    ensures a == [] || b == [] ==> MergeComparisons(a, b) == 0
    ensures a != [] && b != [] ==> MergeComparisons(a, b) <= |a| + |b| - 1
    ensures MergeComparisons(a, b) >= (if |a| <= |b| then |a| else |b|)
    decreases |a| + |b|
  {
    if a != [] && b != [] {
      if a[0] <= b[0] {
        MergeComparisonsBounds(a[1..], b);
      } else {
        MergeComparisonsBounds(a, b[1..]);
      }
    }
  }

  /** The bounds for the merge of two adjacent runs of s whose right run
      is not the longer one. */
  lemma MergeCountBounds(s: seq<int>, l: nat, m: nat, r: nat)
    requires l <= m < r < |s| && r - m <= m + 1 - l
    ensures r - m <= MergeComparisons(s[l..m + 1], s[m + 1..r + 1]) <= r - l
  {
    MergeComparisonsBounds(s[l..m + 1], s[m + 1..r + 1]);
  }

  /** Length of the left half when sort(l, r) splits a range of n >= 2
      values at m = l + (r - l) / 2: the left half takes the middle value. */
  function Half(n: nat): (h: nat)
    requires n >= 2
    ensures 1 <= h < n
  {
    if n <= 3 then n - 1 else Half(n - 2) + 1
  }

  /** Half(n) is the split sort(l, r) computes for n = r - l + 1. */
  lemma {:induction false} HalfIsMiddle(n: nat)
    requires n >= 2
    ensures Half(n) == (n - 1) / 2 + 1
  {
    if n > 3 {
      HalfIsMiddle(n - 2);
    }
  }

  /** The split point sort(l, r) computes, l + floor((r - l) / 2): the left
      half l..m holds Half(r - l + 1) values. */
  function Middle(l: int, r: int): (m: int)
    requires l < r
    ensures m == l + Half(r + 1 - l) - 1
  {
    HalfIsMiddle(r + 1 - l);
    l + (r - l) / 2
  }

  /** The right half is never longer than the left half. */
  lemma {:induction false} HalfLonger(n: nat)
    requires n >= 2
    ensures n - Half(n) <= Half(n)
  {
    if n > 3 {
      HalfLonger(n - 2);
    }
  }

  /** Values written (counted as swaps) by the merge sort of n values: every
      merge writes each value of its range once. */
  function MergeSortMoves(n: nat): nat
  {
    if n <= 1 then 0 else MergeSortMoves(Half(n)) + MergeSortMoves(n - Half(n)) + n
  }

  /** Fewest comparisons the merge sort of n values can make: every merge
      compares at least once per value of its shorter (right) run. */
  function MergeSortFewestComparisons(n: nat): nat
  {
    if n <= 1 then 0
    else MergeSortFewestComparisons(Half(n)) + MergeSortFewestComparisons(n - Half(n)) + (n - Half(n))
  }

  /** Most comparisons the merge sort of n values can make: every merge
      compares at most once per value of its range but the last. */
  function MergeSortMostComparisons(n: nat): nat
  {
    if n <= 1 then 0
    else MergeSortMostComparisons(Half(n)) + MergeSortMostComparisons(n - Half(n)) + (n - 1)
  }

  /** The cells l..k - 1 of a hold the merge output written so far. */
  ghost predicate Placed(a: seq<int>, l: nat, k: nat, merged: seq<int>)
    requires l <= k <= |a| && k - l <= |merged|
  {
    forall p :: l <= p < k ==> a[p] == merged[p - l]
  }

  /** Writing the next output value at k extends both facts by one cell. */
  lemma PlacedGrow(a: seq<int>, b: seq<int>, l: nat, k: nat, merged: seq<int>)
    requires l <= k < |a| == |b| && k - l < |merged|
    requires Placed(a, l, k, merged) && SameOutside(a, b, l, k)
    ensures Placed(a[k := merged[k - l]], l, k + 1, merged)
    ensures SameOutside(a[k := merged[k - l]], b, l, k + 1)
  {
  }

  /** The array after merge(arr, l, m, r), from the array before: l..r holds
      the merge of the runs l..m and m+1..r, the rest is unchanged. */
  ghost predicate MergedInto(a: seq<int>, b: seq<int>, l: nat, m: nat, r: nat)
    requires l <= m < r < |a| == |b|
  {
    a[l..r + 1] == Merged(b[l..m + 1], b[m + 1..r + 1]) && a[..l] == b[..l] && a[r + 1..] == b[r + 1..]
  }

  /** Once the whole range is written, the pointwise facts are MergedInto. */
  lemma PlacedAll(a: seq<int>, b: seq<int>, l: nat, m: nat, r: nat, n: nat)
    requires l <= m < r < |a| == |b| && n == r + 1 - l
    requires Placed(a, l, l + n, Merged(b[l..m + 1], b[m + 1..r + 1])) && SameOutside(a, b, l, l + n)
    ensures MergedInto(a, b, l, m, r)
  {
    var merged := Merged(b[l..m + 1], b[m + 1..r + 1]);
    assert a[l..r + 1] == merged by {
      forall p | 0 <= p < r + 1 - l ensures a[l..r + 1][p] == merged[p] {
        assert a[l + p] == merged[p];
      }
    }
  }

  /** Sorting both halves and merging them sorts the range. */
  lemma SortedIntoComposed(s0: seq<int>, s1: seq<int>, s2: seq<int>, s3: seq<int>, l: nat, m: nat, r: nat)
    requires l <= m < r < |s0| == |s1| == |s2| == |s3|
    requires SortedInto(s1, s0, l, m) && SortedInto(s2, s1, m + 1, r) && MergedInto(s3, s2, l, m, r)
    ensures SortedInto(s3, s0, l, r)
  {
    var a, b := s2[l..m + 1], s2[m + 1..r + 1];
    forall i, j | l <= i < j <= m ensures InOrder(s2, i, j) {
      assert InOrder(s1, i, j);
    }
    SortedRunSlice(s2, l, m);
    SortedRunSlice(s2, m + 1, r);
    MergedSorted(a, b);
    SortedRunSlice(s3, l, r);
    MergedPermutation(a, b);
    assert s2[l..r + 1] == a + b;
    assert s3 == s3[..l] + s3[l..r + 1] + s3[r + 1..];
    assert s2 == s2[..l] + s2[l..r + 1] + s2[r + 1..];
    forall p | 0 <= p < |s3| && !(l <= p < r + 1) ensures s3[p] == s0[p] {
      if p < l {
        assert s3[p] == s3[..l][p] == s2[..l][p];
      } else {
        assert s3[p] == s3[r + 1..][p - r - 1] == s2[r + 1..][p - r - 1];
      }
    }
  }

  /** The counts of a merge sort of n values: dw values written, and dc
      comparisons between the fewest and the most it can make. */
  ghost predicate SortCounts(n: nat, dc: int, dw: int) {
    dw == MergeSortMoves(n) && MergeSortFewestComparisons(n) <= dc <= MergeSortMostComparisons(n)
  }

  /** The counts of sort(l, r) from those of its two recursive calls and
      its merge, which compares at least once per value of its shorter run
      and at most once per value but the last. */
  lemma {:induction false} SortCounted(n: nat, h: nat, k: nat, cL: int, wL: int, cR: int, wR: int, c: int, w: int)
    requires n >= 2 && h == Half(n) && k == n - h
    requires SortCounts(h, cL, wL) && SortCounts(k, cR, wR)
    requires k <= c - cL - cR <= n - 1 && w == wL + wR + n
    ensures SortCounts(n, c, w)
  {
  }

  /** Sorting both halves and merging them gives the counts of the whole. */
  lemma SortCountsComposed(s: seq<int>, l: nat, m: nat, r: nat,
                           c0: int, w0: int, c1: int, w1: int, c2: int, w2: int, c3: int, w3: int)
    requires l <= m < r < |s| && m == l + Half(r + 1 - l) - 1
    requires SortCounts(m + 1 - l, c1 - c0, w1 - w0) && SortCounts(r + 1 - (m + 1), c2 - c1, w2 - w1)
    requires c3 == c2 + MergeComparisons(s[l..m + 1], s[m + 1..r + 1]) && w3 == w2 + (r + 1 - l)
    ensures SortCounts(r + 1 - l, c3 - c0, w3 - w0)
  {
    HalfLonger(r + 1 - l);
    MergeCountBounds(s, l, m, r);
    SortCounted(r + 1 - l, m + 1 - l, r + 1 - (m + 1), c1 - c0, w1 - w0, c2 - c1, w2 - w1, c3 - c0, w3 - w0);
  }

  /** What the merge sort trace guarantees beyond the common shape: every
      merge writes its whole range once (the swaps), each merge compares at
      least once per value of its right run and at most once per value of
      its range but the last, and every comparison and every write costs
      one step. */
  ghost predicate MergeTrace(input: seq<int>, steps: seq<AnimationStep>) {
    var n := |input|;
    IsTrace(input, steps) &&
    Last(steps).metrics.swaps == MergeSortMoves(n) &&
    MergeSortFewestComparisons(n) <= Last(steps).metrics.comparisons &&
    Last(steps).metrics.comparisons <= MergeSortMostComparisons(n) &&
    |steps| == 2 + Last(steps).metrics.comparisons + Last(steps).metrics.swaps
  }

  /** An input of at most one value gives the initial and the closing step
      only, with zero metrics. */
  lemma MergeTraceShort(input: seq<int>, steps: seq<AnimationStep>)
    requires MergeTrace(input, steps) && |input| <= 1
    ensures |steps| == 2 && Last(steps).metrics == Metrics(0, 0)
  {
  }

  method MergeSort(input: seq<int>) returns (steps: seq<AnimationStep>)
    ensures MergeTrace(input, steps)
  {
    var arr := CopyOf(input);
    var n := arr.Length;
    steps := [CreateStep(arr, Uniform(n, Default), 0, 0, InitialArray)];
    var comparisons, swaps;
    steps, comparisons, swaps := Sort(arr, 0, n - 1, steps, 0, 0, input);
    SortedRunSlice(arr[..], 0, n - 1);
    assert arr[0..n] == arr[..];
    steps := PushFinal(arr, Uniform(n, Sorted), steps, comparisons, swaps, input);
  }

  /** sort(arr, l, r): the range l..r is sorted in place and the other cells
      keep their values; every comparison and every write is counted and
      recorded by one step. */
  method Sort(arr: array<int>, l: int, r: int, steps0: seq<AnimationStep>, comparisons0: nat, swaps0: nat,
              ghost input: seq<int>)
    returns (steps: seq<AnimationStep>, comparisons: nat, swaps: nat)
    requires 0 <= l <= r + 1 <= arr.Length == |input|
    requires Recording(input, steps0, comparisons0, swaps0)
    modifies arr
    ensures SortedInto(arr[..], old(arr[..]), l, r)
    ensures SortCounts(r + 1 - l, comparisons - comparisons0, swaps - swaps0)
    ensures |steps| == |steps0| + (comparisons - comparisons0) + (swaps - swaps0)
    ensures Recording(input, steps, comparisons, swaps)
    decreases r - l
  {
    ghost var s0 := arr[..];
    if l >= r {
      SortedIntoShort(s0, l, r);
      return steps0, comparisons0, swaps0;
    }
    var m := Middle(l, r);
    steps, comparisons, swaps := Sort(arr, l, m, steps0, comparisons0, swaps0, input);
    ghost var s1, c1, w1 := arr[..], comparisons, swaps;
    steps, comparisons, swaps := Sort(arr, m + 1, r, steps, comparisons, swaps, input);
    ghost var s2, c2, w2 := arr[..], comparisons, swaps;
    steps, comparisons, swaps := MergeRuns(arr, l, m, r, steps, comparisons, swaps, input);
    SortedIntoComposed(s0, s1, s2, arr[..], l, m, r);
    SortCountsComposed(s2, l, m, r, comparisons0, swaps0, c1, w1, c2, w2, comparisons, swaps);
  }

  /** merge(arr, l, m, r): the ranges l..m and m+1..r are copied out and
      merged back into l..r, the left run first on equal values. Each value
      written is counted as a swap and recorded by one step; each head
      comparison is counted and recorded by one more step. */
  method MergeRuns(arr: array<int>, l: nat, m: nat, r: nat, steps0: seq<AnimationStep>,
                   comparisons0: nat, swaps0: nat, ghost input: seq<int>)
    returns (steps: seq<AnimationStep>, comparisons: nat, swaps: nat)
    requires l <= m < r < arr.Length == |input|
    requires Recording(input, steps0, comparisons0, swaps0)
    modifies arr
    ensures MergedInto(arr[..], old(arr[..]), l, m, r)
    ensures comparisons == comparisons0 + MergeComparisons(old(arr[l..m + 1]), old(arr[m + 1..r + 1]))
    ensures swaps == swaps0 + (r + 1 - l)
    ensures |steps| == |steps0| + (comparisons - comparisons0) + (swaps - swaps0)
    ensures Recording(input, steps, comparisons, swaps)
  {
    ghost var start := arr[..];
    var left := arr[l..m + 1];
    var right := arr[m + 1..r + 1];
    ghost var merged := Merged(left, right);
    var i, j;
    steps, comparisons, swaps, i, j := MergeHeads(arr, l, r, left, right, steps0, comparisons0, swaps0, merged, input);
    HeadsRest(left, right, merged, arr[..], start, l, i, j);
    steps, swaps := Drain(arr, l, i + j, |left| + j, left[i..], steps, comparisons, swaps, merged, start, input);
    steps, swaps := Drain(arr, l, |left| + j, |left| + |right|, right[j..], steps, comparisons, swaps, merged, start, input);
    PlacedAll(arr[..], start, l, m, r, |left| + |right|);
  }

  /** The state of the main merge loop after taking i values of the left
      run and j of the right: the rest still to merge is the merge of what
      is left of the runs, and l..l + i + j - 1 holds the merge so far. */
  ghost predicate HeadsTaken(left: seq<int>, right: seq<int>, merged: seq<int>, a: seq<int>, start: seq<int>,
                             l: nat, i: nat, j: nat)
    requires i <= |left| && j <= |right| && |merged| == |left| + |right|
    requires l + i + j <= |a| == |start|
  {
    Merged(left[i..], right[j..]) == merged[i + j..] && Placed(a, l, l + i + j, merged) &&
    SameOutside(a, start, l, l + i + j)
  }

  /** Taking the smaller head (the left one on a tie) keeps HeadsTaken and
      costs one comparison. */
  lemma HeadsStep(left: seq<int>, right: seq<int>, merged: seq<int>, a: seq<int>, start: seq<int>,
                  l: nat, i: nat, j: nat)
    requires i < |left| && j < |right| && |merged| == |left| + |right|
    requires l + |left| + |right| <= |a| == |start|
    requires HeadsTaken(left, right, merged, a, start, l, i, j)
    ensures left[i] <= right[j] ==>
      HeadsTaken(left, right, merged, a[l + i + j := left[i]], start, l, i + 1, j) &&
      MergeComparisons(left[i..], right[j..]) == 1 + MergeComparisons(left[i + 1..], right[j..])
    ensures left[i] > right[j] ==>
      HeadsTaken(left, right, merged, a[l + i + j := right[j]], start, l, i, j + 1) &&
      MergeComparisons(left[i..], right[j..]) == 1 + MergeComparisons(left[i..], right[j + 1..])
  {
    MergedStep(left, right, i, j);
    PlacedGrow(a, start, l, l + i + j, merged);
    assert merged[i + j] == Merged(left[i..], right[j..])[0];
    assert merged[i + j + 1..] == merged[i + j..][1..];
  }

  /** The main merge loop: while both runs have values, the smaller head
      (the left one on a tie) is written next. It stops when one run is
      used up, having written the merge of the runs up to that point. */
  method MergeHeads(arr: array<int>, l: nat, r: nat, left: seq<int>, right: seq<int>,
                    steps0: seq<AnimationStep>, comparisons0: nat, swaps0: nat,
                    ghost merged: seq<int>, ghost input: seq<int>)
    returns (steps: seq<AnimationStep>, comparisons: nat, swaps: nat, i: nat, j: nat)
    requires l + |left| + |right| == r + 1 <= arr.Length == |input|
    requires merged == Merged(left, right)
    requires Recording(input, steps0, comparisons0, swaps0)
    modifies arr
    ensures i <= |left| && j <= |right| && (i == |left| || j == |right|)
    ensures HeadsTaken(left, right, merged, arr[..], old(arr[..]), l, i, j)
    ensures comparisons == comparisons0 + MergeComparisons(left, right)
    ensures swaps == swaps0 + i + j
    ensures |steps| == |steps0| + (comparisons - comparisons0) + (swaps - swaps0)
    ensures Recording(input, steps, comparisons, swaps)
  {
    ghost var start := arr[..];
    i, j := 0, 0;
    steps, comparisons, swaps := steps0, comparisons0, swaps0;
    assert left[0..] == left && right[0..] == right && merged[0..] == merged;
    while i < |left| && j < |right|
      invariant i <= |left| && j <= |right|
      invariant HeadsTaken(left, right, merged, arr[..], start, l, i, j)
      invariant comparisons + MergeComparisons(left[i..], right[j..]) == comparisons0 + MergeComparisons(left, right)
      invariant swaps == swaps0 + i + j
      invariant |steps| == |steps0| + (comparisons - comparisons0) + (swaps - swaps0)
      invariant Recording(input, steps, comparisons, swaps)
      decreases |left| + |right| - i - j
    {
      steps, comparisons, swaps, i, j := MergeStep(arr, l, r, left, right, i, j, steps, comparisons, swaps,
                                                   merged, start, input);
    }
    MergedRest(left[i..], right[j..]);
  }

  /** One iteration of the main merge loop: the range is shown Comparing
      (one step, one comparison), the smaller head (the left one on a tie)
      is written at l + i + j and shown Swapping (one step, one swap). */
  method MergeStep(arr: array<int>, l: nat, r: nat, left: seq<int>, right: seq<int>, i0: nat, j0: nat,
                   steps0: seq<AnimationStep>, comparisons0: nat, swaps0: nat,
                   ghost merged: seq<int>, ghost start: seq<int>, ghost input: seq<int>)
    returns (steps: seq<AnimationStep>, comparisons: nat, swaps: nat, i: nat, j: nat)
    requires i0 < |left| && j0 < |right| && l + |left| + |right| == r + 1 <= arr.Length == |input| == |start|
    requires merged == Merged(left, right)
    requires HeadsTaken(left, right, merged, arr[..], start, l, i0, j0)
    requires Recording(input, steps0, comparisons0, swaps0)
    modifies arr
    ensures i <= |left| && j <= |right| && i + j == i0 + j0 + 1
    ensures HeadsTaken(left, right, merged, arr[..], start, l, i, j)
    ensures comparisons + MergeComparisons(left[i..], right[j..]) == comparisons0 + MergeComparisons(left[i0..], right[j0..])
    ensures comparisons == comparisons0 + 1 && swaps == swaps0 + 1
    ensures |steps| == |steps0| + 2
    ensures Recording(input, steps, comparisons, swaps)
  {
    var k := l + i0 + j0;
    HeadsStep(left, right, merged, arr[..], start, l, i0, j0);
    var bars := Highlight(arr.Length, l, r);
    comparisons := comparisons0 + 1;
    steps := Push(arr, bars, steps0, comparisons, swaps0, ComparePair(left[i0], right[j0]), input);
    i, j := i0, j0;
    if left[i] <= right[j] {
      arr[k] := left[i];
      i := i + 1;
    } else {
      arr[k] := right[j];
      j := j + 1;
    }
    bars := bars[k := Swapping];
    swaps := swaps0 + 1;
    steps := Push(arr, bars, steps, comparisons, swaps, Place(arr[k]), input);
  }

  /** When the main merge loop stops, the rest of the merge is what is
      left of the left run followed by what is left of the right run. */
  lemma HeadsRest(left: seq<int>, right: seq<int>, merged: seq<int>, a: seq<int>, start: seq<int>,
                  l: nat, i: nat, j: nat)
    requires i <= |left| && j <= |right| && (i == |left| || j == |right|) && |merged| == |left| + |right|
    requires l + |left| + |right| <= |a| == |start|
    requires HeadsTaken(left, right, merged, a, start, l, i, j)
    ensures merged[i + j..|left| + j] == left[i..] && merged[|left| + j..|left| + |right|] == right[j..]
    ensures Placed(a, l, l + (i + j), merged) && SameOutside(a, start, l, l + (i + j))
  {
    MergedRest(left[i..], right[j..]);
    assert merged[i + j..] == left[i..] + right[j..];
    assert merged[i + j..|left| + j] == merged[i + j..][..|left| - i];
    assert merged[|left| + j..|left| + |right|] == merged[i + j..][|left| - i..];
  }

  /** One of the two draining loops: the rest of a run, which is the merge
      output from d0 to d1 - 1, is written from l + d0 on, one value, one
      swap and one step (only that cell Swapping) at a time. */
  method Drain(arr: array<int>, l: nat, d0: nat, d1: nat, rest: seq<int>, steps0: seq<AnimationStep>,
               comparisons: nat, swaps0: nat, ghost merged: seq<int>, ghost start: seq<int>, ghost input: seq<int>)
    returns (steps: seq<AnimationStep>, swaps: nat)
    requires d0 <= d1 <= |merged| && l + d1 <= arr.Length == |input| == |start|
    requires merged[d0..d1] == rest
    requires Placed(arr[..], l, l + d0, merged) && SameOutside(arr[..], start, l, l + d0)
    requires Recording(input, steps0, comparisons, swaps0)
    modifies arr
    ensures Placed(arr[..], l, l + d1, merged) && SameOutside(arr[..], start, l, l + d1)
    ensures swaps == swaps0 + |rest| && |steps| == |steps0| + |rest|
    ensures Recording(input, steps, comparisons, swaps)
  {
    steps, swaps := steps0, swaps0;
    var t := 0;
    while t < |rest|
      invariant t <= |rest| == d1 - d0
      invariant Placed(arr[..], l, l + d0 + t, merged) && SameOutside(arr[..], start, l, l + d0 + t)
      invariant swaps == swaps0 + t && |steps| == |steps0| + t
      invariant Recording(input, steps, comparisons, swaps)
    {
      var k := l + d0 + t;
      assert rest[t] == merged[k - l];
      PlacedGrow(arr[..], start, l, k, merged);
      arr[k] := rest[t];
      var bars := Uniform(arr.Length, Default)[k := Swapping];
      swaps := swaps + 1;
      steps := Push(arr, bars, steps, comparisons, swaps, PlaceRemaining(arr[k]), input);
      t := t + 1;
    }
  }

  /** One iteration of the main merge loop takes the smaller head, the left
      one on a tie, and costs one comparison. */
  lemma MergedStep(a: seq<int>, b: seq<int>, i: nat, j: nat)
    requires i < |a| && j < |b|
    ensures a[i] <= b[j] ==> Merged(a[i..], b[j..]) == [a[i]] + Merged(a[i + 1..], b[j..]) &&
                             MergeComparisons(a[i..], b[j..]) == 1 + MergeComparisons(a[i + 1..], b[j..])
    ensures a[i] > b[j] ==> Merged(a[i..], b[j..]) == [b[j]] + Merged(a[i..], b[j + 1..]) &&
                            MergeComparisons(a[i..], b[j..]) == 1 + MergeComparisons(a[i..], b[j + 1..])
  {
    assert a[i..][1..] == a[i + 1..] && b[j..][1..] == b[j + 1..];
  }

  /** Once one run is used up the merge is the other run's rest. */
  lemma MergedRest(a: seq<int>, b: seq<int>)
    requires a == [] || b == []
    ensures Merged(a, b) == a + b && MergeComparisons(a, b) == 0
  {
  }
}

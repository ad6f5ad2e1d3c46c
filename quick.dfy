/** The quick sort producer (quickSort): a recursive quick sort over the
    Lomuto partition scheme, the last value of each range being its pivot.
    The inner partition and sort share the value array, the trace and both
    counters; the trace and counters are threaded through the methods as
    parameters and results, the value array is modified in place. */
module Quick {
  import opened Types
  import opened SortSpec
  import opened Steps
  import opened Arrays

  /** Every value in a[lo..hi - 1] is strictly below x. */
  ghost predicate RangeBelow(a: seq<int>, lo: int, hi: int, x: int)
    requires 0 <= lo && hi <= |a|
  {
    forall k :: lo <= k < hi ==> a[k] < x
  }

  /** Every value in a[lo..hi - 1] is at least x. */
  ghost predicate RangeAtLeast(a: seq<int>, lo: int, hi: int, x: int)
    requires 0 <= lo && hi <= |a|
  {
    forall k :: lo <= k < hi ==> x <= a[k]
  }

  /** low..high is partitioned around p: the values before p are below the
      value at p and the values after p, up to high, are at least that. */
  ghost predicate Partitioned(a: seq<int>, low: int, high: int, p: int)
    requires 0 <= low <= p <= high < |a|
  {
    RangeBelow(a, low, p, a[p]) && RangeAtLeast(a, p + 1, high + 1, a[p])
  }

  /** The state of the partition loop after the indices low..j - 1 were
      compared with the pivot start[high]: the values that were below it
      sit in low..i, the others in i + 1..j - 1, and only low..high - 1 was
      rearranged. */
  ghost predicate Scanned(a: seq<int>, start: seq<int>, low: int, high: int, i: int, j: int)
    requires 0 <= low <= j <= high < |a| == |start| && low - 1 <= i < j
  {
    RangeBelow(a, low, i + 1, start[high]) && RangeAtLeast(a, i + 1, j, start[high]) &&
    multiset(a) == multiset(start) && SameOutside(a, start, low, high)
  }

  /** The multiset of a sequence is that of its three parts. */
  lemma MultisetSplit(s: seq<int>, lo: int, hi: int)
    requires 0 <= lo <= hi <= |s|
    ensures multiset(s) == multiset(s[..lo]) + multiset(s[lo..hi]) + multiset(s[hi..])
  {
    assert s == s[..lo] + s[lo..hi] + s[hi..];
  }

  /** Rearranging a range keeps the multiset of that range. */
  lemma RangeMultiset(a: seq<int>, b: seq<int>, lo: int, hi: int)
    requires 0 <= lo <= hi <= |a| == |b|
    requires multiset(a) == multiset(b) && SameOutside(a, b, lo, hi)
    ensures multiset(a[lo..hi]) == multiset(b[lo..hi])
  {
    MultisetSplit(a, lo, hi);
    MultisetSplit(b, lo, hi);
    assert a[..lo] == b[..lo];
    assert a[hi..] == b[hi..];
    forall x ensures multiset(a[lo..hi])[x] == multiset(b[lo..hi])[x] {
      assert multiset(a)[x] == multiset(b)[x];
    }
  }

  /** A strict upper bound on a range survives rearranging that range. */
  lemma RangeBelowKept(a: seq<int>, b: seq<int>, lo: int, hi: int, x: int)
    requires 0 <= lo <= hi <= |a| == |b|
    requires multiset(a) == multiset(b) && SameOutside(a, b, lo, hi) && RangeBelow(b, lo, hi, x)
    ensures RangeBelow(a, lo, hi, x)
  {
    RangeMultiset(a, b, lo, hi);
    var t := b[lo..hi];
    forall k | lo <= k < hi ensures a[k] < x {
      assert a[k] == a[lo..hi][k - lo];
      assert a[k] in multiset(t);
      var q :| 0 <= q < |t| && t[q] == a[k];
      assert t[q] == b[lo + q];
    }
  }

  /** A lower bound on a range survives rearranging that range. */
  lemma RangeAtLeastKept(a: seq<int>, b: seq<int>, lo: int, hi: int, x: int)
    requires 0 <= lo <= hi <= |a| == |b|
    requires multiset(a) == multiset(b) && SameOutside(a, b, lo, hi) && RangeAtLeast(b, lo, hi, x)
    ensures RangeAtLeast(a, lo, hi, x)
  {
    RangeMultiset(a, b, lo, hi);
    var t := b[lo..hi];
    forall k | lo <= k < hi ensures x <= a[k] {
      assert a[k] == a[lo..hi][k - lo];
      assert a[k] in multiset(t);
      var q :| 0 <= q < |t| && t[q] == a[k];
      assert t[q] == b[lo + q];
    }
  }

  /** One comparison keeps the loop state: a value below the pivot is
      exchanged with the first value of the upper part, which moves the
      boundary between the parts up by one; any other value joins the upper
      part where it is. */
  lemma ScannedNext(a: seq<int>, b: seq<int>, start: seq<int>, low: int, high: int, i: int, j: int)
    requires 0 <= low <= j < high < |a| == |start| && low - 1 <= i < j
    requires Scanned(a, start, low, high, i, j)
    requires a[j] < start[high] ==> b == a[i + 1 := a[j]][j := a[i + 1]] && multiset(b) == multiset(a)
    requires !(a[j] < start[high]) ==> b == a
    ensures Scanned(b, start, low, high, if a[j] < start[high] then i + 1 else i, j + 1)
  {
  }

  /** Exchanging the pivot into the first index of the upper part ends the
      partition: low..high is partitioned around that index, which holds
      the pivot, and only low..high was rearranged. */
  lemma PivotPlaced(a: seq<int>, b: seq<int>, start: seq<int>, low: int, high: int, i: int)
    requires 0 <= low <= high < |a| == |start| && low - 1 <= i < high
    requires Scanned(a, start, low, high, i, high)
    requires b == a[i + 1 := a[high]][high := a[i + 1]] && multiset(b) == multiset(a)
    ensures Partitioned(b, low, high, i + 1) && b[i + 1] == start[high]
    ensures multiset(b) == multiset(start) && SameOutside(b, start, low, high + 1)
  {
  }

  /** The markers during partition: the pivot's index high is marked Pivot
      and every other index Default. */
  ghost predicate PartitionMarks(bars: seq<BarState>, high: int) {
    0 <= high < |bars| && forall k :: 0 <= k < |bars| ==> bars[k] == (if k == high then Pivot else Default)
  }

  /** The marker loop at the head of partition, which sets the markers of
      low..high - 1 to Default one index at a time. */
  method ClearRange(bars0: seq<BarState>, low: int, high: int) returns (bars: seq<BarState>)
    requires 0 <= low <= high <= |bars0|
    ensures |bars| == |bars0|
    ensures forall k :: 0 <= k < |bars| ==> bars[k] == (if low <= k < high then Default else bars0[k])
  {
    bars := bars0;
    var k := low;
    while k < high
      invariant low <= k <= high && |bars| == |bars0|
      invariant forall q :: 0 <= q < |bars| ==> bars[q] == (if low <= q < k then Default else bars0[q])
    {
      bars := bars[k := Default];
      k := k + 1;
    }
  }

  /** The markers passed down after a pivot is placed: every Sorted marker
      is kept and every other marker becomes Default. */
  method KeepSorted(bars0: seq<BarState>) returns (bars: seq<BarState>)
    ensures |bars| == |bars0|
    ensures forall k :: 0 <= k < |bars| ==> bars[k] == (if bars0[k] == Sorted then Sorted else Default)
  {
    bars := bars0;
    var k := 0;
    while k < |bars|
      invariant k <= |bars| == |bars0|
      invariant forall q :: 0 <= q < k ==> bars[q] == (if bars0[q] == Sorted then Sorted else Default)
      invariant forall q :: k <= q < |bars| ==> bars[q] == bars0[q]
    {
      if bars[k] != Sorted {
        bars := bars[k := Default];
      }
      k := k + 1;
    }
  }

  /** One iteration of the partition loop: the value at j is compared with
      the pivot (one comparison, one step) and, when it is below, exchanged
      with the first value of the upper part (one swap, one more step).
      The markers it touches are reset to Default afterwards. */
  method PartitionStep(arr: array<int>, low: int, high: int, i0: int, j: int, pivot: int, bars0: seq<BarState>,
                       steps0: seq<AnimationStep>, comparisons0: nat, swaps0: nat, ghost input: seq<int>)
    returns (i: int, bars: seq<BarState>, steps: seq<AnimationStep>, comparisons: nat, swaps: nat)
    requires 0 <= low <= j < high < arr.Length == |bars0| == |input| && low - 1 <= i0 < j
    requires PartitionMarks(bars0, high)
    requires multiset(arr[..]) == multiset(input)
    requires Recording(input, steps0, comparisons0, swaps0) && AllPermutations(steps0, input)
    modifies arr
    ensures old(arr[j]) < pivot ==> i == i0 + 1 && arr[..] == old(arr[..])[i0 + 1 := old(arr[j])][j := old(arr[i0 + 1])]
    ensures !(old(arr[j]) < pivot) ==> i == i0 && arr[..] == old(arr[..])
    ensures multiset(arr[..]) == multiset(old(arr[..]))
    ensures |bars| == |bars0| && PartitionMarks(bars, high)
    ensures comparisons == comparisons0 + 1 && swaps == swaps0 + (i - i0)
    ensures |steps| == |steps0| + 1 + (swaps - swaps0)
    ensures Recording(input, steps, comparisons, swaps) && AllPermutations(steps, input)
  {
    i := i0;
    bars := bars0[j := Comparing];
    comparisons, swaps := comparisons0 + 1, swaps0;
    steps := Push(arr, bars, steps0, comparisons, swaps, CompareWithPivot(arr[j], pivot), input);
    if arr[j] < pivot {
      i := i + 1;
      bars, steps, swaps := ExchangeBelow(arr, i, j, bars, steps, comparisons, swaps, input);
    }
    bars := bars[j := Default];
  }

  /** The exchange inside the partition loop: the values at i and j trade
      places (one swap), one step shows both marked Swapping, and the
      marker at i is reset to Default. */
  method ExchangeBelow(arr: array<int>, i: int, j: int, bars0: seq<BarState>,
                       steps0: seq<AnimationStep>, comparisons: nat, swaps0: nat, ghost input: seq<int>)
    returns (bars: seq<BarState>, steps: seq<AnimationStep>, swaps: nat)
    requires 0 <= i <= j < arr.Length == |bars0| == |input|
    requires multiset(arr[..]) == multiset(input)
    requires Recording(input, steps0, comparisons, swaps0) && AllPermutations(steps0, input)
    modifies arr
    ensures arr[..] == old(arr[..])[i := old(arr[j])][j := old(arr[i])]
    ensures multiset(arr[..]) == multiset(old(arr[..]))
    ensures bars == bars0[j := Swapping][i := Default]
    ensures swaps == swaps0 + 1 && |steps| == |steps0| + 1
    ensures Recording(input, steps, comparisons, swaps) && AllPermutations(steps, input)
  {
    Swap(arr, i, j);
    swaps := swaps0 + 1;
    bars := bars0[i := Swapping][j := Swapping];
    steps := Push(arr, bars, steps0, comparisons, swaps, SwapPair(arr[j], arr[i]), input);
    bars := bars[i := Default];
  }

  /** The head of partition: the markers are all Default but the pivot's,
      after the loop that clears low..high - 1, and one step announces the
      range and its pivot. */
  method OpenPartition(arr: array<int>, low: int, high: int, pivot: int, steps0: seq<AnimationStep>,
                       comparisons: nat, swaps: nat, ghost input: seq<int>)
    returns (bars: seq<BarState>, steps: seq<AnimationStep>)
    requires 0 <= low < high < arr.Length == |input|
    requires multiset(arr[..]) == multiset(input)
    requires Recording(input, steps0, comparisons, swaps) && AllPermutations(steps0, input)
    ensures |bars| == arr.Length && PartitionMarks(bars, high)
    ensures |steps| == |steps0| + 1
    ensures Recording(input, steps, comparisons, swaps) && AllPermutations(steps, input)
  {
    var n := arr.Length;
    bars := Uniform(n, Default);
    bars := ClearRange(bars, low, high);
    bars := bars[high := Pivot];
    steps := Push(arr, bars, steps0, comparisons, swaps, PartitionRange(low, high, pivot), input);
  }

  /** The loop of partition: every index j of low..high - 1 is compared with
      the pivot at high, and each value below it is exchanged to the end of
      the lower part low..i. */
  method ScanRange(arr: array<int>, low: int, high: int, pivot: int, bars: seq<BarState>,
                   steps0: seq<AnimationStep>, comparisons0: nat, swaps0: nat, ghost input: seq<int>)
    returns (i: int, steps: seq<AnimationStep>, comparisons: nat, swaps: nat)
    requires 0 <= low < high < arr.Length == |bars| == |input| && pivot == arr[high]
    requires PartitionMarks(bars, high)
    requires multiset(arr[..]) == multiset(input)
    requires Recording(input, steps0, comparisons0, swaps0) && AllPermutations(steps0, input)
    modifies arr
    ensures low - 1 <= i < high && Scanned(arr[..], old(arr[..]), low, high, i, high)
    ensures comparisons == comparisons0 + (high - low) && swaps == swaps0 + (i + 1 - low)
    ensures |steps| == |steps0| + (comparisons - comparisons0) + (swaps - swaps0)
    ensures Recording(input, steps, comparisons, swaps) && AllPermutations(steps, input)
  {
    ghost var start := arr[..];
    i := low - 1;
    steps, comparisons, swaps := steps0, comparisons0, swaps0;
    var marks := bars;
    var j := low;
    while j < high
      invariant low <= j <= high && low - 1 <= i < j
      invariant Scanned(arr[..], start, low, high, i, j)
      invariant |marks| == arr.Length && PartitionMarks(marks, high)
      invariant comparisons == comparisons0 + (j - low) && swaps == swaps0 + (i + 1 - low)
      invariant |steps| == |steps0| + (comparisons - comparisons0) + (swaps - swaps0)
      invariant Recording(input, steps, comparisons, swaps) && AllPermutations(steps, input)
    {
      ghost var a := arr[..];
      ghost var i0 := i;
      i, marks, steps, comparisons, swaps :=
        PartitionStep(arr, low, high, i, j, pivot, marks, steps, comparisons, swaps, input);
      ScannedNext(a, arr[..], start, low, high, i0, j);
      j := j + 1;
    }
  }

  /** partition(low, high): the pivot arr[high] ends at the returned index
      p with every value of low..p - 1 below it and every value of
      p + 1..high at least it; the cells outside low..high keep their
      values. Every index of low..high - 1 is compared once; every value
      found below the pivot and the pivot itself are exchanged once (also
      when an exchange is with itself). */
  method Partition(arr: array<int>, low: int, high: int, steps0: seq<AnimationStep>,
                   comparisons0: nat, swaps0: nat, ghost input: seq<int>)
    returns (p: int, steps: seq<AnimationStep>, comparisons: nat, swaps: nat)
    requires 0 <= low < high < arr.Length == |input|
    requires multiset(arr[..]) == multiset(input)
    requires Recording(input, steps0, comparisons0, swaps0) && AllPermutations(steps0, input)
    modifies arr
    ensures low <= p <= high && arr[p] == old(arr[high])
    ensures Partitioned(arr[..], low, high, p)
    ensures multiset(arr[..]) == multiset(old(arr[..])) && SameOutside(arr[..], old(arr[..]), low, high + 1)
    ensures comparisons == comparisons0 + (high - low) && swaps == swaps0 + (p - low) + 1
    ensures |steps| == |steps0| + 2 + (comparisons - comparisons0) + (swaps - swaps0 - 1)
    ensures Recording(input, steps, comparisons, swaps) && AllPermutations(steps, input)
  {
    ghost var start := arr[..];
    var pivot := arr[high];
    var bars, i;
    bars, steps := OpenPartition(arr, low, high, pivot, steps0, comparisons0, swaps0, input);
    i, steps, comparisons, swaps := ScanRange(arr, low, high, pivot, bars, steps, comparisons0, swaps0, input);
    ghost var a := arr[..];
    steps, swaps := PivotExchange(arr, i + 1, high, pivot, bars, steps, comparisons, swaps, input);
    PivotPlaced(a, arr[..], start, low, high, i);
    p := i + 1;
  }

  /** The exchange that ends partition: the pivot at high trades places with
      the value at p (one swap, also when p is high), and one step shows
      both marked Swapping. */
  method PivotExchange(arr: array<int>, p: int, high: int, pivot: int, bars0: seq<BarState>,
                       steps0: seq<AnimationStep>, comparisons: nat, swaps0: nat, ghost input: seq<int>)
    returns (steps: seq<AnimationStep>, swaps: nat)
    requires 0 <= p <= high < arr.Length == |bars0| == |input|
    requires multiset(arr[..]) == multiset(input)
    requires Recording(input, steps0, comparisons, swaps0) && AllPermutations(steps0, input)
    modifies arr
    ensures arr[..] == old(arr[..])[p := old(arr[high])][high := old(arr[p])]
    ensures multiset(arr[..]) == multiset(old(arr[..]))
    ensures swaps == swaps0 + 1 && |steps| == |steps0| + 1
    ensures Recording(input, steps, comparisons, swaps) && AllPermutations(steps, input)
  {
    Swap(arr, p, high);
    swaps := swaps0 + 1;
    var bars := bars0[p := Swapping][high := Swapping];
    steps := Push(arr, bars, steps0, comparisons, swaps, PlacePivot(pivot), input);
  }

  /** The counts of one sort(low, high) call over a range of n values, as
      differences: at most one comparison per pair of values and one swap
      per pair of n + 1 values; a range of at most one value costs nothing;
      a longer one at least one comparison per value but the first and at
      least one swap; one step per comparison, one or two per swap, and one
      per value (a pivot or a single-element range). */
  ghost predicate QuickCounts(n: nat, dc: int, ds: int, dst: int) {
    dc <= Pairs(n) && ds <= Pairs(n + 1) &&
    n + dc + ds <= dst <= n + dc + 2 * ds &&
    (n <= 1 ==> dc == 0 && ds == 0) &&
    (n >= 2 ==> n - 1 <= dc && 1 <= ds)
  }

  /** An empty range costs nothing; a single value costs one step. */
  lemma QuickCountsShort()
    ensures QuickCounts(0, 0, 0, 0) && QuickCounts(1, 0, 0, 1)
  {
    assert Pairs(2) == 1;
  }

  /** The pairs among l + r + 1 values include those among the first l,
      those among the last r, and one for each of these values paired with
      the value between them. */
  lemma {:induction false} PairsSplit(l: nat, r: nat)
    ensures Pairs(l) + Pairs(r) + l + r <= Pairs(l + r + 1)
    decreases r
  {
    if r > 0 {
      PairsSplit(l, r - 1);
    }
  }

  /** sort(low, high) over a partition that placed its pivot at p, with
      the counters (c, w) and the step count t taken before the partition
      (0), after the step marking the pivot (1), after the lower side (2)
      and after the upper side (3): the whole call has the counts of its
      range. */
  lemma QuickCountsComposed(low: int, p: int, high: int, c0: int, w0: int, t0: int, c1: int, w1: int, t1: int,
                            c2: int, w2: int, t2: int, c3: int, w3: int, t3: int)
    requires 0 <= low <= p <= high && low < high
    requires c1 - c0 == high - low && w1 - w0 == p - low + 1 && t1 - t0 == 2 + (c1 - c0) + (w1 - w0)
    requires QuickCounts(p - 1 + 1 - low, c2 - c1, w2 - w1, t2 - t1)
    requires QuickCounts(high + 1 - (p + 1), c3 - c2, w3 - w2, t3 - t2)
    ensures QuickCounts(high + 1 - low, c3 - c0, w3 - w0, t3 - t0)
  {
    PairsSplit(p - low, high - p);
    PairsSplit(p - low + 1, high - p);
  }

  /** The array after sorting both sides of a placed pivot is the range
      sorted: the lower side stays below the pivot, the upper side stays at
      least the pivot, and the pivot does not move. */
  lemma SortedAroundPivot(a0: seq<int>, a1: seq<int>, a2: seq<int>, a3: seq<int>, low: int, p: int, high: int)
    requires 0 <= low <= p <= high < |a0| == |a1| == |a2| == |a3|
    requires Partitioned(a1, low, high, p) && multiset(a1) == multiset(a0) && SameOutside(a1, a0, low, high + 1)
    requires SortedInto(a2, a1, low, p - 1) && SortedInto(a3, a2, p + 1, high)
    ensures SortedInto(a3, a0, low, high)
  {
    var x := a1[p];
    RangeBelowKept(a2, a1, low, p, x);
    assert RangeAtLeast(a2, p + 1, high + 1, x);
    RangeAtLeastKept(a3, a2, p + 1, high + 1, x);
    assert a3[p] == x;
    forall i, j | low <= i < j <= high ensures InOrder(a3, i, j) {
      if j < p {
        assert InOrder(a2, i, j);
      } else if p < i {
        assert InOrder(a3, i, j);
      }
    }
  }

  /** The first half of sort(low, high, barStates) on a range of two or
      more values: the range is partitioned, and one step shows the pivot
      Sorted with every marker that was not Sorted cleared; the markers of
      that step are the ones passed down. */
  method PartitionMarked(arr: array<int>, low: int, high: int, bars: seq<BarState>, steps0: seq<AnimationStep>,
                         comparisons0: nat, swaps0: nat, ghost input: seq<int>)
    returns (p: int, next: seq<BarState>, steps: seq<AnimationStep>, comparisons: nat, swaps: nat)
    requires 0 <= low < high < arr.Length == |bars| == |input|
    requires multiset(arr[..]) == multiset(input)
    requires Recording(input, steps0, comparisons0, swaps0) && AllPermutations(steps0, input)
    modifies arr
    ensures low <= p <= high && Partitioned(arr[..], low, high, p)
    ensures multiset(arr[..]) == multiset(old(arr[..])) && SameOutside(arr[..], old(arr[..]), low, high + 1)
    ensures |next| == |bars| && next[p] == Sorted
    ensures forall k :: 0 <= k < |next| && k != p ==> next[k] == (if bars[k] == Sorted then Sorted else Default)
    ensures comparisons - comparisons0 == high - low && swaps - swaps0 == p - low + 1
    ensures |steps| - |steps0| == 2 + (comparisons - comparisons0) + (swaps - swaps0)
    ensures Recording(input, steps, comparisons, swaps) && AllPermutations(steps, input)
  {
    p, steps, comparisons, swaps := Partition(arr, low, high, steps0, comparisons0, swaps0, input);
    next := KeepSorted(bars[p := Sorted]);
    steps := Push(arr, next, steps, comparisons, swaps, PivotSorted(arr[p]), input);
  }

  /** sort(low, high, barStates): low..high is sorted in place and the
      other cells keep their values. A range of two or more values is
      partitioned, one step shows its pivot Sorted (with every marker that
      was not Sorted cleared), and both sides are sorted; a single value is
      recorded as sorted by one step; an empty range records nothing. */
  method Sort(arr: array<int>, low: int, high: int, bars: seq<BarState>, steps0: seq<AnimationStep>,
              comparisons0: nat, swaps0: nat, ghost input: seq<int>)
    returns (steps: seq<AnimationStep>, comparisons: nat, swaps: nat)
    requires 0 <= low <= high + 1 <= arr.Length == |bars| == |input|
    requires multiset(arr[..]) == multiset(input)
    requires Recording(input, steps0, comparisons0, swaps0) && AllPermutations(steps0, input)
    modifies arr
    ensures SortedInto(arr[..], old(arr[..]), low, high)
    ensures QuickCounts(high + 1 - low, comparisons - comparisons0, swaps - swaps0, |steps| - |steps0|)
    ensures low == high ==>
              (arr[..] == old(arr[..]) &&
               steps == steps0 + [AnimationStep(arr[..], bars[low := Sorted], Metrics(comparisons, swaps), SingleElement(low))])
    ensures Recording(input, steps, comparisons, swaps) && AllPermutations(steps, input)
    decreases high - low
  {
    ghost var a0 := arr[..];
    if low < high {
      var pi, next;
      pi, next, steps, comparisons, swaps := PartitionMarked(arr, low, high, bars, steps0, comparisons0, swaps0, input);
      ghost var a1, c1, w1, t1 := arr[..], comparisons, swaps, |steps|;
      steps, comparisons, swaps := Sort(arr, low, pi - 1, next, steps, comparisons, swaps, input);
      ghost var a2, c2, w2, t2 := arr[..], comparisons, swaps, |steps|;
      steps, comparisons, swaps := Sort(arr, pi + 1, high, next, steps, comparisons, swaps, input);
      SortedAroundPivot(a0, a1, a2, arr[..], low, pi, high);
      QuickCountsComposed(low, pi, high, comparisons0, swaps0, |steps0|, c1, w1, t1, c2, w2, t2,
                          comparisons, swaps, |steps|);
    } else if low == high {
      var next := bars[low := Sorted];
      comparisons, swaps := comparisons0, swaps0;
      steps := Push(arr, next, steps0, comparisons, swaps, SingleElement(low), input);
      SortedIntoShort(a0, low, high);
      QuickCountsShort();
    } else {
      steps, comparisons, swaps := steps0, comparisons0, swaps0;
      SortedIntoShort(a0, low, high);
      QuickCountsShort();
    }
  }

  /** What the quick sort trace guarantees beyond the common shape: every
      step is a rearrangement of the input (the producer only exchanges),
      and the counts of sorting the whole input hold for the closing
      metrics, with the two bracketing steps added to the step count. */
  ghost predicate QuickTrace(input: seq<int>, steps: seq<AnimationStep>) {
    IsTrace(input, steps) &&
    AllPermutations(steps, input) &&
    QuickCounts(|input|, Last(steps).metrics.comparisons, Last(steps).metrics.swaps, |steps| - 2) &&
    (|input| == 1 ==> steps[1] == AnimationStep(input, [Sorted], Metrics(0, 0), SingleElement(0)))
  }

  /** An input of at most one value gives the initial step, one step per
      value and the closing step, with zero metrics; for one value the step
      between marks its index Sorted as a single-element partition. */
  lemma QuickTraceShort(input: seq<int>, steps: seq<AnimationStep>)
    requires QuickTrace(input, steps) && |input| <= 1
    ensures |steps| == 2 + |input| && Last(steps).metrics == Metrics(0, 0)
    ensures |input| == 1 ==> steps[1].description == SingleElement(0) && steps[1].barStates == [Sorted]
  {
  }

  /** Two or more values cost at least one comparison per value but the
      first and at least one swap, and at most one comparison per pair. */
  lemma QuickTraceLong(input: seq<int>, steps: seq<AnimationStep>)
    requires QuickTrace(input, steps) && |input| >= 2
    ensures |input| - 1 <= Last(steps).metrics.comparisons
    ensures 2 * Last(steps).metrics.comparisons <= |input| * (|input| - 1)
    ensures 1 <= Last(steps).metrics.swaps
  {
    PairsClosedForm(|input|);
  }

  method QuickSort(input: seq<int>) returns (steps: seq<AnimationStep>)
    ensures QuickTrace(input, steps)
  {
    var arr := CopyOf(input);
    var n := arr.Length;
    steps := [CreateStep(arr, Uniform(n, Default), 0, 0, InitialArray)];
    var comparisons, swaps;
    steps, comparisons, swaps := Sort(arr, 0, n - 1, Uniform(n, Default), steps, 0, 0, input);
    assert QuickCounts(|input|, comparisons, swaps, |steps| - 1);
    SortedRunSlice(arr[..], 0, n - 1);
    assert arr[0..n] == arr[..];
    ghost var shown := steps;
    steps := PushFinal(arr, Uniform(n, Sorted), steps, comparisons, swaps, input);
    assert Last(steps).metrics.comparisons == comparisons && Last(steps).metrics.swaps == swaps;
    if n == 1 {
      assert Uniform(n, Default)[0 := Sorted] == [Sorted];
      assert steps[1] == shown[1];
    }
  }
}

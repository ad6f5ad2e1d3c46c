/** The selection sort producer (selectionSort): pass i scans the unsorted
    part for its leftmost smallest value and exchanges it into position i. */
module Selection {
  import opened Types
  import opened SortSpec
  import opened Steps
  import opened Arrays

  /** The ordering reached after i passes: every value before i is in order
      with every value after it (so the first i values are the i smallest,
      ascending). */
  ghost predicate SelectedPrefix(s: seq<int>, i: nat)
    requires i <= |s|
  {
    forall a, b :: 0 <= a < i && a < b < |s| ==> InOrder(s, a, b)
  }

  /** s with the values at i and m exchanged (unchanged when i == m). */
  ghost function Exchanged(s: seq<int>, i: nat, m: nat): seq<int>
    requires i < |s| && m < |s|
  {
    s[i := s[m]][m := s[i]]
  }

  /** m holds the leftmost smallest value of s[lo..hi]. */
  predicate LeftmostMinimum(s: seq<int>, lo: nat, hi: nat, m: nat)
    requires lo <= m < hi <= |s|
  {
    (forall k :: lo <= k < hi ==> s[m] <= s[k]) &&
    (forall k :: lo <= k < m ==> s[m] < s[k])
  }

  /** Exchanging the smallest unsorted value into position i extends the
      ordered prefix by one. */
  lemma SelectSettles(s: seq<int>, i: nat, m: nat)
    requires i <= m < |s| && SelectedPrefix(s, i) && LeftmostMinimum(s, i, |s|, m)
    ensures SelectedPrefix(s[i := s[m]][m := s[i]], i + 1)
  {
    var t := s[i := s[m]][m := s[i]];
    forall a, b | 0 <= a < i + 1 && a < b < |t| ensures InOrder(t, a, b) {
      if a < i {
        if b == i {
          assert InOrder(s, a, m);
        } else if b == m {
          assert InOrder(s, a, i);
        } else {
          assert InOrder(s, a, b);
        }
      }
    }
  }

  /** With all but the last value placed, the values are ascending. */
  lemma SelectedSorted(s: seq<int>)
    requires |s| > 0 && SelectedPrefix(s, |s| - 1)
    ensures IsSorted(s)
  {
    forall a, b | 0 <= a < b < |s| ensures s[a] <= s[b] {
      assert InOrder(s, a, b);
    }
  }

  /** In ascending values the leftmost smallest one of a suffix is its first. */
  lemma SortedLeftmostMinimum(s: seq<int>, lo: nat, m: nat)
    requires lo <= m < |s| && IsSorted(s) && LeftmostMinimum(s, lo, |s|, m)
    ensures m == lo
  {
    assert s[lo] <= s[m];
  }

  /** What the selection sort trace guarantees beyond the common shape:
      every step is a rearrangement of the input, every pass compares each
      unsorted value with the running minimum once (so n * (n - 1) / 2
      comparisons in all), a pass exchanges at most once (never for input
      already ascending), and besides the comparisons and exchanges at most
      one step per comparison announces a new minimum. */
  predicate SelectionTrace(input: seq<int>, steps: seq<AnimationStep>) {
    IsTrace(input, steps) &&
    AllPermutations(steps, input) &&
    Last(steps).metrics.comparisons == Pairs(|input|) &&
    (Last(steps).metrics.swaps < |input| || Last(steps).metrics.swaps == 0) &&
    (IsSorted(input) ==> Last(steps).metrics.swaps == 0) &&
    2 + Pairs(|input|) + Last(steps).metrics.swaps <= |steps| <=
      2 + 2 * Pairs(|input|) + Last(steps).metrics.swaps
  }

  method SelectionSort(input: seq<int>) returns (steps: seq<AnimationStep>)
    ensures SelectionTrace(input, steps)
  {
    var arr := CopyOf(input);
    var comparisons: nat, swaps: nat := 0, 0;
    var n := arr.Length;
    var bars := Uniform(n, Default);

    steps := [CreateStep(arr, bars, comparisons, swaps, InitialArray)];
    steps, bars, comparisons, swaps := SelectionPasses(arr, bars, steps, input);
    if n > 0 {
      bars := bars[n - 1 := Sorted];
    }
    assert bars == Uniform(n, Sorted);
    steps := PushFinal(arr, bars, steps, comparisons, swaps, input);
  }

  /** The outer loop: after pass i the first i + 1 positions hold the i + 1
      smallest values, ascending, and are marked Sorted. */
  method SelectionPasses(arr: array<int>, bars0: seq<BarState>, steps0: seq<AnimationStep>, ghost input: seq<int>)
    returns (steps: seq<AnimationStep>, bars: seq<BarState>, comparisons: nat, swaps: nat)
    requires arr[..] == input && bars0 == Uniform(|input|, Default)
    requires Recording(input, steps0, 0, 0) && AllPermutations(steps0, input) && |steps0| == 1
    modifies arr
    ensures multiset(arr[..]) == multiset(input) && IsSorted(arr[..])
    ensures |bars| == |input| && forall k :: 0 <= k < |input| - 1 ==> bars[k] == Sorted
    ensures comparisons == Pairs(|input|)
    ensures swaps < |input| || swaps == 0
    ensures IsSorted(input) ==> swaps == 0
    ensures 1 + comparisons + swaps <= |steps| <= 1 + 2 * comparisons + swaps
    ensures Recording(input, steps, comparisons, swaps) && AllPermutations(steps, input)
  {
    var n := arr.Length;
    steps, bars, comparisons, swaps := steps0, bars0, 0, 0;
    var i := 0;
    while i < n - 1
      invariant 0 <= i <= n && (n > 0 ==> i < n)
      invariant multiset(arr[..]) == multiset(input) && SelectedPrefix(arr[..], i)
      invariant |bars| == n && forall k :: 0 <= k < i ==> bars[k] == Sorted
      invariant forall k :: i <= k < n ==> bars[k] == Default
      invariant comparisons + Pairs(n - i) == Pairs(n)
      invariant swaps <= i
      invariant IsSorted(input) ==> arr[..] == input && swaps == 0
      invariant 1 + comparisons + swaps <= |steps| <= 1 + 2 * comparisons + swaps
      invariant Recording(input, steps, comparisons, swaps) && AllPermutations(steps, input)
    {
      ghost var m;
      steps, bars, comparisons, swaps, m := SelectionPass(arr, bars, i, steps, comparisons, swaps, input);
      i := i + 1;
    }
    if n > 0 {
      SelectedSorted(arr[..]);
    }
  }

  /** Pass i: finds the leftmost smallest value of the unsorted part,
      exchanges it into position i when it is elsewhere, then resets the
      markers of the unsorted part and marks i Sorted. */
  method SelectionPass(arr: array<int>, bars0: seq<BarState>, i: nat,
                       steps0: seq<AnimationStep>, comparisons0: nat, swaps0: nat, ghost input: seq<int>)
    returns (steps: seq<AnimationStep>, bars: seq<BarState>, comparisons: nat, swaps: nat, ghost m: nat)
    requires |bars0| == arr.Length == |input| && i + 1 < arr.Length
    requires forall k :: i <= k < |bars0| ==> bars0[k] == Default
    requires multiset(arr[..]) == multiset(input) && SelectedPrefix(arr[..], i)
    requires Recording(input, steps0, comparisons0, swaps0) && AllPermutations(steps0, input)
    modifies arr
    ensures multiset(arr[..]) == multiset(input) && SelectedPrefix(arr[..], i + 1)
    ensures |bars| == |bars0| && bars[..i] == bars0[..i] && bars[i] == Sorted
    ensures forall k :: i < k < |bars| ==> bars[k] == Default
    ensures comparisons == comparisons0 + (arr.Length - 1 - i)
    ensures swaps == swaps0 || swaps == swaps0 + 1
    ensures IsSorted(old(arr[..])) ==> arr[..] == old(arr[..]) && swaps == swaps0
    ensures i <= m < arr.Length && LeftmostMinimum(old(arr[..]), i, arr.Length, m)
    ensures arr[..] == Exchanged(old(arr[..]), i, m)
    ensures swaps == swaps0 + (if m == i then 0 else 1)
    ensures |steps0| + (comparisons - comparisons0) + (swaps - swaps0) <= |steps|
    ensures |steps| <= |steps0| + 2 * (comparisons - comparisons0) + (swaps - swaps0)
    ensures Recording(input, steps, comparisons, swaps) && AllPermutations(steps, input)
  {
    var n := arr.Length;
    ghost var start := arr[..];
    var minIdx;
    bars := bars0[i := Pivot];
    steps, bars, minIdx, comparisons := ScanForMinimum(arr, bars, i, steps0, comparisons0, swaps0, input);
    swaps := swaps0;
    if minIdx != i {
      steps, bars, swaps := SwapMinimum(arr, bars, i, minIdx, steps, comparisons, swaps, input);
    } else {
      assert Exchanged(start, i, minIdx) == start;
    }
    SelectSettles(start, i, minIdx);
    if IsSorted(start) {
      SortedLeftmostMinimum(start, i, minIdx);
    }
    m := minIdx;
    bars := bars[..i + 1] + Uniform(n - i - 1, Default);
    bars := bars[minIdx := Default];
    bars := bars[i := Sorted];
  }

  /** The inner loop: compares every value after i with the running
      minimum, each comparison with a step and each improvement with another.
      It returns the index of the leftmost smallest value of arr[i..]. */
  method ScanForMinimum(arr: array<int>, bars0: seq<BarState>, i: nat,
                        steps0: seq<AnimationStep>, comparisons0: nat, swaps: nat, ghost input: seq<int>)
    returns (steps: seq<AnimationStep>, bars: seq<BarState>, minIdx: nat, comparisons: nat)
    requires |bars0| == arr.Length == |input| && i < arr.Length
    requires bars0[i] == Pivot && forall k :: i < k < |bars0| ==> bars0[k] == Default
    requires Recording(input, steps0, comparisons0, swaps)
    ensures i <= minIdx < arr.Length && LeftmostMinimum(arr[..], i, arr.Length, minIdx)
    ensures |bars| == |bars0| && bars[..i] == bars0[..i]
    ensures forall k :: i <= k < |bars| ==> bars[k] == (if k == minIdx then Pivot else Default)
    ensures comparisons == comparisons0 + (arr.Length - 1 - i)
    ensures |steps0| + (comparisons - comparisons0) <= |steps| <= |steps0| + 2 * (comparisons - comparisons0)
    ensures Recording(input, steps, comparisons, swaps)
    ensures AllPermutations(steps0, input) && multiset(arr[..]) == multiset(input) ==>
              AllPermutations(steps, input)
  {
    var n := arr.Length;
    steps, bars, minIdx, comparisons := steps0, bars0, i, comparisons0;
    var j := i + 1;
    while j < n
      invariant i < j <= n && i <= minIdx < j
      invariant LeftmostMinimum(arr[..], i, j, minIdx)
      invariant |bars| == n && bars[..i] == bars0[..i]
      invariant forall k :: i <= k < n ==> bars[k] == (if k == minIdx then Pivot else Default)
      invariant comparisons == comparisons0 + (j - 1 - i)
      invariant |steps0| + (comparisons - comparisons0) <= |steps| <= |steps0| + 2 * (comparisons - comparisons0)
      invariant Recording(input, steps, comparisons, swaps)
      invariant AllPermutations(steps0, input) && multiset(arr[..]) == multiset(input) ==>
                  AllPermutations(steps, input)
    {
      steps, bars, minIdx, comparisons := CompareWithMinimum(arr, bars, i, j, minIdx, steps, comparisons, swaps, input);
      j := j + 1;
    }
  }

  /** One iteration of the inner loop: a step comparing arr[j] with the
      running minimum, and when arr[j] is strictly smaller it becomes the
      running minimum, announced by a second step. */
  method CompareWithMinimum(arr: array<int>, bars0: seq<BarState>, i: nat, j: nat, minIdx0: nat,
                            steps0: seq<AnimationStep>, comparisons0: nat, swaps: nat, ghost input: seq<int>)
    returns (steps: seq<AnimationStep>, bars: seq<BarState>, minIdx: nat, comparisons: nat)
    requires |bars0| == arr.Length == |input| && i <= minIdx0 < j < arr.Length
    requires Recording(input, steps0, comparisons0, swaps)
    ensures (arr[j] < arr[minIdx0] && minIdx == j) || (arr[minIdx0] <= arr[j] && minIdx == minIdx0)
    ensures bars == (if minIdx == j then bars0[minIdx0 := Default][j := Pivot] else bars0[j := Default])
    ensures comparisons == comparisons0 + 1
    ensures |steps| == |steps0| + (if minIdx == j then 2 else 1)
    ensures Recording(input, steps, comparisons, swaps)
    ensures AllPermutations(steps0, input) && multiset(arr[..]) == multiset(input) ==>
              AllPermutations(steps, input)
  {
    bars := bars0[j := Comparing];
    comparisons := comparisons0 + 1;
    steps := Push(arr, bars, steps0, comparisons, swaps, CompareMinimum(arr[minIdx0], arr[j]), input);
    if arr[j] < arr[minIdx0] {
      bars := bars[minIdx0 := Default];
      minIdx := j;
      bars := bars[minIdx := Pivot];
      steps := Push(arr, bars, steps, comparisons, swaps, NewMinimum(arr[minIdx]), input);
    } else {
      minIdx := minIdx0;
      bars := bars[j := Default];
    }
  }

  /** The exchange of the minimum at m into position i, counted and shown
      with both positions marked Swapping. */
  method SwapMinimum(arr: array<int>, bars0: seq<BarState>, i: nat, m: nat,
                     steps0: seq<AnimationStep>, comparisons: nat, swaps0: nat, ghost input: seq<int>)
    returns (steps: seq<AnimationStep>, bars: seq<BarState>, swaps: nat)
    requires |bars0| == arr.Length == |input| && i < m < arr.Length
    requires multiset(arr[..]) == multiset(input)
    requires Recording(input, steps0, comparisons, swaps0) && AllPermutations(steps0, input)
    modifies arr
    ensures arr[..] == Exchanged(old(arr[..]), i, m)
    ensures multiset(arr[..]) == multiset(input)
    ensures bars == bars0[i := Swapping][m := Swapping]
    ensures swaps == swaps0 + 1 && |steps| == |steps0| + 1
    ensures Recording(input, steps, comparisons, swaps) && AllPermutations(steps, input)
  {
    Swap(arr, i, m);
    swaps := swaps0 + 1;
    bars := bars0[i := Swapping][m := Swapping];
    steps := Push(arr, bars, steps0, comparisons, swaps, SwapWith(arr[m], arr[i]), input);
  }
}

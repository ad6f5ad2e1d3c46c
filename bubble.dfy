/** The bubble sort producer (bubbleSort), proved against a functional
    description of its passes. */
module Bubble {
  import opened Types
  import opened SortSpec
  import opened Steps
  import opened Arrays

  /** The compare-exchange of the inner loop at index j: the pair at j and
      j + 1 is put in order. */
  function Exchange(s: seq<int>, j: nat): seq<int>
    requires j + 1 < |s|
  {
    if s[j] > s[j + 1] then s[j := s[j + 1]][j + 1 := s[j]] else s
  }

  /** The rest of one pass: compare-exchange at j, j + 1, ..., last - 1. */
  function PassFrom(s: seq<int>, j: nat, last: nat): (r: seq<int>)
    requires last < |s|
    ensures |r| == |s|
    decreases last - j
  {
    if j >= last then s else PassFrom(Exchange(s, j), j + 1, last)
  }

  /** How many of those compare-exchanges actually exchange. */
  function ExchangesFrom(s: seq<int>, j: nat, last: nat): nat
    requires last < |s|
    decreases last - j
  {
    if j >= last then 0
    else (if s[j] > s[j + 1] then 1 else 0) + ExchangesFrom(Exchange(s, j), j + 1, last)
  }

  /** The value at m bounds every value before it. */
  ghost predicate BoundsPrefix(s: seq<int>, m: nat)
    requires m < |s|
  {
    forall a :: 0 <= a < m ==> InOrder(s, a, m)
  }

  /** The ordering reached after i passes: the last i values are ascending
      and the first of them bounds every earlier value. */
  ghost predicate SettledSuffix(s: seq<int>, i: nat)
    requires i <= |s|
  {
    (forall a, b :: |s| - i <= a < b < |s| ==> InOrder(s, a, b)) &&
    (0 < i ==> BoundsPrefix(s, |s| - i))
  }

  /** Each exchange removes exactly one inversion. */
  lemma {:induction false} PassFromInversions(s: seq<int>, j: nat, last: nat)
    requires last < |s|
    ensures Inversions(PassFrom(s, j, last)) + ExchangesFrom(s, j, last) == Inversions(s)
    decreases last - j
  {
    if j < last {
      PassFromInversions(Exchange(s, j), j + 1, last);
      if s[j] > s[j + 1] {
        InversionsSwapAdjacent(s, j);
      }
    }
  }

  /** A pass leaves the cells after last alone. */
  lemma {:induction false} PassFromFrame(s: seq<int>, j: nat, last: nat)
    requires last < |s|
    ensures forall k :: last < k < |s| ==> PassFrom(s, j, last)[k] == s[k]
    decreases last - j
  {
    if j < last {
      PassFromFrame(Exchange(s, j), j + 1, last);
    }
  }

  /** A bound on the cells up to last still bounds them after a pass. */
  lemma {:induction false} PassFromBounded(s: seq<int>, j: nat, last: nat, x: int)
    requires last < |s|
    requires forall k :: 0 <= k <= last ==> s[k] <= x
    ensures forall k :: 0 <= k <= last ==> PassFrom(s, j, last)[k] <= x
    decreases last - j
  {
    if j < last {
      PassFromBounded(Exchange(s, j), j + 1, last, x);
    }
  }

  /** The running maximum of a pass is carried up to index last. */
  lemma {:induction false} PassFromCarriesMaximum(s: seq<int>, j: nat, last: nat)
    requires j <= last < |s|
    requires forall k :: 0 <= k < j ==> s[k] <= s[j]
    ensures forall k :: 0 <= k < last ==> PassFrom(s, j, last)[k] <= PassFrom(s, j, last)[last]
    decreases last - j
  {
    if j < last {
      var t := Exchange(s, j);
      assert forall k :: 0 <= k < j + 1 ==> t[k] <= t[j + 1];
      PassFromCarriesMaximum(t, j + 1, last);
    }
  }

  /** A pass over the unsettled part, after i passes, settles one more value. */
  lemma PassSettles(s: seq<int>, i: nat)
    requires i + 1 < |s| && SettledSuffix(s, i)
    ensures SettledSuffix(PassFrom(s, 0, |s| - 1 - i), i + 1)
  {
    var last := |s| - 1 - i;
    var r := PassFrom(s, 0, last);
    PassFromFrame(s, 0, last);
    PassFromCarriesMaximum(s, 0, last);
    if i > 0 {
      // every unsettled value is bounded by the first settled one, s[last + 1]
      assert forall k :: 0 <= k <= last ==> s[k] <= s[last + 1] by {
        assert BoundsPrefix(s, last + 1);
        forall k | 0 <= k <= last ensures s[k] <= s[last + 1] {
          assert InOrder(s, k, last + 1);
        }
      }
      PassFromBounded(s, 0, last, s[last + 1]);
    }
    forall a, b | last <= a < b < |s| ensures InOrder(r, a, b) {
      if last < a {
        assert InOrder(s, a, b);
      } else if last + 1 < b {
        assert InOrder(s, last + 1, b);
      }
    }
    forall a | 0 <= a < last ensures InOrder(r, a, last) {
    }
  }

  /** A whole pass after i passes settles one more value, and its exchanges
      are the inversions it removes. */
  lemma PassDone(s: seq<int>, t: seq<int>, i: nat)
    requires i + 1 < |s| && SettledSuffix(s, i) && t == PassFrom(s, 0, |s| - 1 - i)
    ensures SettledSuffix(t, i + 1)
    ensures Inversions(t) + ExchangesFrom(s, 0, |s| - 1 - i) == Inversions(s)
  {
    PassSettles(s, i);
    PassFromInversions(s, 0, |s| - 1 - i);
  }

  /** Once all but the first value are settled, the values are ascending. */
  lemma SettledSorted(s: seq<int>)
    requires |s| > 0 && SettledSuffix(s, |s| - 1)
    ensures IsSorted(s)
  {
    forall a, b | 0 <= a < b < |s| ensures s[a] <= s[b] {
      if 0 < a {
        assert InOrder(s, a, b);
      } else {
        assert InOrder(s, 0, 1);
        if 1 < b {
          assert InOrder(s, 1, b);
        }
      }
    }
  }

  /** What the bubble sort trace guarantees beyond the common shape: every
      step is a rearrangement of the input (the producer only exchanges),
      every adjacent pair of every pass is compared, each exchange removes one
      inversion, and there is one step per comparison and per exchange. */
  predicate BubbleTrace(input: seq<int>, steps: seq<AnimationStep>) {
    IsTrace(input, steps) &&
    AllPermutations(steps, input) &&
    Last(steps).metrics == Metrics(Pairs(|input|), Inversions(input)) &&
    |steps| == 2 + Pairs(|input|) + Inversions(input)
  }

  method BubbleSort(input: seq<int>) returns (steps: seq<AnimationStep>)
    ensures BubbleTrace(input, steps)
  {
    var arr := CopyOf(input);
    var comparisons: nat, swaps: nat := 0, 0;
    var n := arr.Length;
    var bars := Uniform(n, Default);

    steps := [CreateStep(arr, bars, comparisons, swaps, InitialArray)];
    steps, bars, comparisons, swaps := BubblePasses(arr, bars, steps, input);
    if n > 0 {
      bars := bars[0 := Sorted];
    }
    assert bars == Uniform(n, Sorted);
    steps := PushFinal(arr, bars, steps, comparisons, swaps, input);
  }

  /** The outer loop: pass i settles the largest of the first n - i values
      at n - 1 - i and marks that position Sorted. Afterwards the values are
      ascending, every pair of every pass has been compared and every
      inversion of the input has been removed by exactly one exchange. */
  method BubblePasses(arr: array<int>, bars0: seq<BarState>, steps0: seq<AnimationStep>, ghost input: seq<int>)
    returns (steps: seq<AnimationStep>, bars: seq<BarState>, comparisons: nat, swaps: nat)
    requires arr[..] == input && bars0 == Uniform(|input|, Default)
    requires Recording(input, steps0, 0, 0) && AllPermutations(steps0, input) && |steps0| == 1
    modifies arr
    ensures multiset(arr[..]) == multiset(input) && IsSorted(arr[..])
    ensures |bars| == |input| && forall k :: 0 < k < |input| ==> bars[k] == Sorted
    ensures comparisons == Pairs(|input|) && swaps == Inversions(input)
    ensures |steps| == 1 + comparisons + swaps
    ensures Recording(input, steps, comparisons, swaps) && AllPermutations(steps, input)
  {
    var n := arr.Length;
    steps, bars, comparisons, swaps := steps0, bars0, 0, 0;
    var i := 0;
    while i < n - 1
      invariant 0 <= i <= n && (n > 0 ==> i < n)
      invariant multiset(arr[..]) == multiset(input) && SettledSuffix(arr[..], i)
      invariant |bars| == n && forall k :: n - i <= k < n ==> bars[k] == Sorted
      invariant comparisons + Pairs(n - i) == Pairs(n)
      invariant swaps + Inversions(arr[..]) == Inversions(input)
      invariant |steps| == 1 + comparisons + swaps
      invariant Recording(input, steps, comparisons, swaps) && AllPermutations(steps, input)
    {
      steps, bars, comparisons, swaps := SettlePass(arr, bars, i, steps, comparisons, swaps, input);
      i := i + 1;
    }
    if n > 0 {
      SettledSorted(arr[..]);
    }
    InversionsZeroIffSorted(arr[..]);
  }

  /** One iteration of the outer loop seen from that loop: pass i settles
      the largest unsettled value at n - 1 - i, which is then marked Sorted;
      every exchange removes one inversion. */
  method SettlePass(arr: array<int>, bars0: seq<BarState>, i: nat,
                    steps0: seq<AnimationStep>, comparisons0: nat, swaps0: nat, ghost input: seq<int>)
    returns (steps: seq<AnimationStep>, bars: seq<BarState>, comparisons: nat, swaps: nat)
    requires |bars0| == arr.Length == |input| && i + 1 < arr.Length
    requires multiset(arr[..]) == multiset(input) && SettledSuffix(arr[..], i)
    requires Recording(input, steps0, comparisons0, swaps0) && AllPermutations(steps0, input)
    modifies arr
    ensures multiset(arr[..]) == multiset(input) && SettledSuffix(arr[..], i + 1)
    ensures |bars| == |bars0| && bars[arr.Length - 1 - i] == Sorted
    ensures forall k :: 0 <= k < arr.Length - 1 - i ==> bars[k] == Default
    ensures forall k :: arr.Length - 1 - i < k < arr.Length ==> bars[k] == bars0[k]
    ensures comparisons == comparisons0 + (arr.Length - 1 - i)
    ensures swaps + Inversions(arr[..]) == swaps0 + Inversions(old(arr[..]))
    ensures |steps| == |steps0| + (comparisons - comparisons0) + (swaps - swaps0)
    ensures Recording(input, steps, comparisons, swaps) && AllPermutations(steps, input)
  {
    steps, bars, comparisons, swaps := BubblePass(arr, bars0, i, steps0, comparisons0, swaps0, input);
    bars := bars[arr.Length - 1 - i := Sorted];
  }

  /** Pass i of the outer loop: compares the pairs (j, j + 1) below the i
      settled values, exchanging those out of order, with a step for every
      comparison and every exchange. The largest unsettled value ends next to
      the settled ones, and every exchange removes one inversion. */
  method BubblePass(arr: array<int>, bars0: seq<BarState>, i: nat,
                    steps0: seq<AnimationStep>, comparisons0: nat, swaps0: nat, ghost input: seq<int>)
    returns (steps: seq<AnimationStep>, bars: seq<BarState>, comparisons: nat, swaps: nat)
    requires |bars0| == arr.Length == |input| && i + 1 < arr.Length
    requires multiset(arr[..]) == multiset(input) && SettledSuffix(arr[..], i)
    requires Recording(input, steps0, comparisons0, swaps0) && AllPermutations(steps0, input)
    modifies arr
    ensures arr[..] == PassFrom(old(arr[..]), 0, arr.Length - 1 - i)
    ensures swaps == swaps0 + ExchangesFrom(old(arr[..]), 0, arr.Length - 1 - i)
    ensures multiset(arr[..]) == multiset(input) && SettledSuffix(arr[..], i + 1)
    ensures |bars| == |bars0| && forall k :: arr.Length - 1 - i < k < arr.Length ==> bars[k] == bars0[k]
    ensures forall k :: 0 <= k <= arr.Length - 1 - i ==> bars[k] == Default
    ensures comparisons == comparisons0 + (arr.Length - 1 - i)
    ensures swaps + Inversions(arr[..]) == swaps0 + Inversions(old(arr[..]))
    ensures |steps| == |steps0| + (comparisons - comparisons0) + (swaps - swaps0)
    ensures Recording(input, steps, comparisons, swaps) && AllPermutations(steps, input)
  {
    var n := arr.Length;
    var last := n - 1 - i;
    ghost var start := arr[..];
    steps, bars, comparisons, swaps := steps0, bars0, comparisons0, swaps0;
    var j := 0;
    while j < last
      invariant 0 <= j <= last
      invariant PassFrom(arr[..], j, last) == PassFrom(start, 0, last)
      invariant swaps + ExchangesFrom(arr[..], j, last) == swaps0 + ExchangesFrom(start, 0, last)
      invariant multiset(arr[..]) == multiset(input)
      invariant |bars| == n && forall k :: last < k < n ==> bars[k] == bars0[k]
      invariant 0 < j ==> forall k :: 0 <= k <= j ==> bars[k] == Default
      invariant comparisons == comparisons0 + j
      invariant |steps| == |steps0| + (comparisons - comparisons0) + (swaps - swaps0)
      invariant Recording(input, steps, comparisons, swaps) && AllPermutations(steps, input)
    {
      steps, bars, comparisons, swaps := CompareExchange(arr, bars, j, steps, comparisons, swaps, input);
      j := j + 1;
    }
    assert PassFrom(arr[..], j, last) == arr[..] && ExchangesFrom(arr[..], j, last) == 0;
    PassDone(start, arr[..], i);
  }

  /** One iteration of the inner loop: the pair at j and j + 1 is marked and
      compared (one step), exchanged with a second step when out of order, and
      unmarked. */
  method CompareExchange(arr: array<int>, bars0: seq<BarState>, j: nat,
                         steps0: seq<AnimationStep>, comparisons0: nat, swaps0: nat, ghost input: seq<int>)
    returns (steps: seq<AnimationStep>, bars: seq<BarState>, comparisons: nat, swaps: nat)
    requires |bars0| == arr.Length == |input| && j + 1 < arr.Length
    requires multiset(arr[..]) == multiset(input)
    requires Recording(input, steps0, comparisons0, swaps0) && AllPermutations(steps0, input)
    modifies arr
    ensures arr[..] == Exchange(old(arr[..]), j)
    ensures multiset(arr[..]) == multiset(input)
    ensures bars == bars0[j := Default][j + 1 := Default]
    ensures comparisons == comparisons0 + 1
    ensures swaps == swaps0 + (if old(arr[j]) > old(arr[j + 1]) then 1 else 0)
    ensures |steps| == |steps0| + 1 + (swaps - swaps0)
    ensures Recording(input, steps, comparisons, swaps) && AllPermutations(steps, input)
  {
    bars := bars0[j := Comparing][j + 1 := Comparing];
    comparisons := comparisons0 + 1;
    swaps := swaps0;
    steps := Push(arr, bars, steps0, comparisons, swaps, ComparePair(arr[j], arr[j + 1]), input);

    if arr[j] > arr[j + 1] {
      steps, bars, swaps := ExchangeStep(arr, bars, j, steps, comparisons, swaps, input);
    }
    bars := bars[j := Default][j + 1 := Default];
  }

  /** The exchange of an out-of-order pair at j and j + 1, counted and shown
      with both positions marked Swapping. */
  method ExchangeStep(arr: array<int>, bars0: seq<BarState>, j: nat,
                      steps0: seq<AnimationStep>, comparisons: nat, swaps0: nat, ghost input: seq<int>)
    returns (steps: seq<AnimationStep>, bars: seq<BarState>, swaps: nat)
    requires |bars0| == arr.Length == |input| && j + 1 < arr.Length && arr[j] > arr[j + 1]
    requires multiset(arr[..]) == multiset(input)
    requires Recording(input, steps0, comparisons, swaps0) && AllPermutations(steps0, input)
    modifies arr
    ensures arr[..] == old(arr[..])[j := old(arr[j + 1])][j + 1 := old(arr[j])]
    ensures multiset(arr[..]) == multiset(input)
    ensures bars == bars0[j := Swapping][j + 1 := Swapping]
    ensures swaps == swaps0 + 1 && |steps| == |steps0| + 1
    ensures Recording(input, steps, comparisons, swaps) && AllPermutations(steps, input)
  {
    Swap(arr, j, j + 1);
    swaps := swaps0 + 1;
    bars := bars0[j := Swapping][j + 1 := Swapping];
    steps := Push(arr, bars, steps0, comparisons, swaps, SwapPair(arr[j + 1], arr[j]), input);
  }
}

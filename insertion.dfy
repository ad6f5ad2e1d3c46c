/** The insertion sort producer (insertionSort): pass i takes arr[i] as the
    key, shifts the larger values of the sorted prefix one place right and
    writes the key into the hole. */
module Insertion {
  import opened Types
  import opened SortSpec
  import opened Steps
  import opened Arrays

  /** The array while the key s[i] is being inserted, with the hole at h:
      the values from h to i - 1 have moved one place right, so s[h] shows
      twice and the key is held aside. */
  ghost function Shifted(s: seq<int>, h: nat, i: nat): (t: seq<int>)
    requires h <= i < |s|
    ensures |t| == |s|
  {
    seq(|s|, k requires 0 <= k < |s| => if h < k <= i then s[k - 1] else s[k])
  }

  /** The array once the key s[i] has been written into the hole at h. */
  ghost function Inserted(s: seq<int>, h: nat, i: nat): (t: seq<int>)
    requires h <= i < |s|
    ensures |t| == |s|
  {
    seq(|s|, k requires 0 <= k < |s| => if k == h then s[i] else if h < k <= i then s[k - 1] else s[k])
  }

  /** Before any shift the array is untouched. */
  lemma ShiftedNone(s: seq<int>, i: nat)
    requires i < |s|
    ensures Shifted(s, i, i) == s
  {
  }

  /** Copying the value left of the hole into the hole moves the hole left. */
  lemma ShiftedMore(s: seq<int>, h: nat, i: nat)
    requires 0 < h <= i < |s|
    ensures Shifted(s, h, i)[h - 1] == s[h - 1]
    ensures Shifted(s, h, i)[h := s[h - 1]] == Shifted(s, h - 1, i)
  {
    var t := Shifted(s, h, i);
    var u := Shifted(s, h - 1, i);
    assert forall k :: 0 <= k < |s| ==> t[h := s[h - 1]][k] == u[k] by {
      forall k | 0 <= k < |s| ensures t[h := s[h - 1]][k] == u[k] {
        if k < h {
          assert t[k] == s[k] && u[k] == s[k];
        } else if k == h {
          assert u[k] == s[h - 1];
        } else if k <= i {
          assert t[k] == s[k - 1] && u[k] == s[k - 1];
        } else {
          assert t[k] == s[k] && u[k] == s[k];
        }
      }
    }
  }

  /** Writing the key into the hole gives the inserted array. */
  lemma ShiftedFilled(s: seq<int>, h: nat, i: nat)
    requires h <= i < |s|
    ensures Shifted(s, h, i)[h := s[i]] == Inserted(s, h, i)
  {
    var t := Shifted(s, h, i);
    var u := Inserted(s, h, i);
    forall k | 0 <= k < |s| ensures t[h := s[i]][k] == u[k] {
      if k < h {
        assert t[k] == s[k] && u[k] == s[k];
      } else if h < k <= i {
        assert t[k] == s[k - 1] && u[k] == s[k - 1];
      } else if i < k {
        assert t[k] == s[k] && u[k] == s[k];
      }
    }
  }

  /** An ascending sequence has ascending slices. */
  lemma SortedSlice(s: seq<int>, a: nat, b: nat)
    requires a <= b <= |s| && IsSorted(s)
    ensures IsSorted(s[a..b])
  {
    forall x, y | 0 <= x < y < b - a ensures s[a..b][x] <= s[a..b][y] {
      assert s[a..b][x] == s[a + x] && s[a..b][y] == s[a + y];
    }
  }

  /** Inserting the key after the last prefix value not above it and before
      the values above it keeps the prefix ascending. */
  lemma InsertedSorted(s: seq<int>, h: nat, i: nat)
    requires h <= i < |s| && IsSorted(s[..i])
    requires h > 0 ==> s[h - 1] <= s[i]
    requires forall k :: h <= k < i ==> s[k] > s[i]
    ensures IsSorted(Inserted(s, h, i)[..i + 1])
  {
    var x := s[i];
    var below, above := s[..h], s[h..i];
    assert Inserted(s, h, i)[..i + 1] == below + [x] + above;
    assert below == s[..i][..h] && above == s[..i][h..];
    SortedSlice(s[..i], 0, h);
    SortedSlice(s[..i], h, i);
    assert AllAtMost(below, x) by {
      forall k | 0 <= k < h ensures below[k] <= x {
        assert s[..i][k] <= s[..i][h - 1];
      }
    }
    assert AllAtLeast(x, above);
    SortedAround(below, x, above);
  }

  /** The inserted prefix is a rearrangement of the old one and the rest is
      untouched. */
  lemma InsertedPermutes(s: seq<int>, h: nat, i: nat)
    requires h <= i < |s|
    ensures multiset(Inserted(s, h, i)[..i + 1]) == multiset(s[..i + 1])
    ensures Inserted(s, h, i)[i + 1..] == s[i + 1..]
  {
    var below, above := s[..h], s[h..i];
    assert Inserted(s, h, i)[..i + 1] == below + [s[i]] + above;
    assert Inserted(s, h, i)[i + 1..] == s[i + 1..];
    assert s[..i + 1] == below + above + [s[i]];
  }

  /** The values shifted are exactly the prefix values above the key. */
  lemma InsertedCount(s: seq<int>, h: nat, i: nat)
    requires h <= i < |s|
    requires h > 0 ==> s[h - 1] <= s[i]
    requires IsSorted(s[..i])
    requires forall k :: h <= k < i ==> s[k] > s[i]
    ensures CountAbove(s[i], s[..i]) == i - h
  {
    var x := s[i];
    var below, above := s[..h], s[h..i];
    assert s[..i] == below + above;
    assert AllAtMost(below, x) by {
      forall k | 0 <= k < h ensures below[k] <= x {
        assert s[..i][k] <= s[..i][h - 1];
      }
    }
    CountAboveConcat(x, below, above);
    CountAboveZero(x, below);
    CountAboveAll(x, above);
  }

  /** What the insertion sort trace guarantees beyond the common shape: one
      comparison and one shift for every inversion of the input, and a fixed
      number of steps per pass (key and insertion) plus two per shift. */
  predicate InsertionTrace(input: seq<int>, steps: seq<AnimationStep>) {
    IsTrace(input, steps) &&
    Last(steps).metrics == Metrics(Inversions(input), Inversions(input)) &&
    |steps| == (if |input| == 0 then 2 else 2 * |input| + 2 * Inversions(input))
  }

  method InsertionSort(input: seq<int>) returns (steps: seq<AnimationStep>)
    ensures InsertionTrace(input, steps)
  {
    var arr := CopyOf(input);
    var comparisons: nat, swaps: nat := 0, 0;
    var n := arr.Length;
    var bars := Uniform(n, Default);

    steps := [CreateStep(arr, bars, comparisons, swaps, InitialArray)];
    if n > 0 {
      bars := bars[0 := Sorted];
    }
    steps, bars, comparisons, swaps := InsertionPasses(arr, bars, steps, input);
    bars := Uniform(n, Sorted);
    steps := PushFinal(arr, bars, steps, comparisons, swaps, input);
  }

  /** The outer loop: after pass i the first i + 1 values are an ascending
      rearrangement of the input's first i + 1 values, the rest untouched,
      and every inversion among the first i + 1 values has cost one
      comparison and one shift. */
  method InsertionPasses(arr: array<int>, bars0: seq<BarState>, steps0: seq<AnimationStep>, ghost input: seq<int>)
    returns (steps: seq<AnimationStep>, bars: seq<BarState>, comparisons: nat, swaps: nat)
    requires arr[..] == input && |bars0| == |input| && (|input| > 0 ==> bars0[0] == Sorted)
    requires Recording(input, steps0, 0, 0) && |steps0| == 1
    modifies arr
    ensures multiset(arr[..]) == multiset(input) && IsSorted(arr[..])
    ensures |bars| == |input| && forall k :: 0 <= k < |bars| ==> bars[k] == Sorted
    ensures comparisons == swaps == Inversions(input)
    ensures |steps| == (if |input| == 0 then 1 else 2 * |input| - 1 + 2 * swaps)
    ensures Recording(input, steps, comparisons, swaps)
  {
    var n := arr.Length;
    steps, bars, comparisons, swaps := steps0, bars0, 0, 0;
    if n == 0 {
      return;
    }
    assert arr[..1] == input[..1] == [input[0]];
    var i := 1;
    while i < n
      invariant 1 <= i <= n
      invariant PrefixInserted(input, arr[..], i)
      invariant |bars| == n && forall k :: 0 <= k < i ==> bars[k] == Sorted
      invariant comparisons == swaps == Inversions(input[..i])
      invariant |steps| == 2 * i - 1 + 2 * swaps
      invariant Recording(input, steps, comparisons, swaps)
    {
      var shifts: nat;
      steps, bars, shifts := CountedPass(arr, bars, i, steps, comparisons, swaps, input);
      comparisons, swaps := comparisons + shifts, swaps + shifts;
      i := i + 1;
    }
    assert arr[..n] == arr[..] && input[..n] == input;
  }

  /** Pass i seen from the outer loop: it extends the ascending prefix by
      the input's i-th value and makes one shift per inversion that value
      forms with the values before it. */
  method CountedPass(arr: array<int>, bars0: seq<BarState>, i: nat,
                     steps0: seq<AnimationStep>, comparisons0: nat, swaps0: nat, ghost input: seq<int>)
    returns (steps: seq<AnimationStep>, bars: seq<BarState>, shifts: nat)
    requires |bars0| == arr.Length == |input| && 0 < i < arr.Length
    requires PrefixInserted(input, arr[..], i)
    requires Recording(input, steps0, comparisons0, swaps0)
    modifies arr
    ensures PrefixInserted(input, arr[..], i + 1)
    ensures Inversions(input[..i + 1]) == Inversions(input[..i]) + shifts
    ensures |bars| == |bars0| && forall k :: 0 <= k <= i ==> bars[k] == Sorted
    ensures bars[i + 1..] == bars0[i + 1..]
    ensures |steps| == |steps0| + 2 + 2 * shifts
    ensures Recording(input, steps, comparisons0 + shifts, swaps0 + shifts)
  {
    ghost var before := arr[..];
    steps, bars, shifts := InsertionPass(arr, bars0, i, steps0, comparisons0, swaps0, input);
    PassCounted(input, before, arr[..], i, i - shifts);
  }

  /** After pass i - 1 (i >= 1): the first i values are an ascending
      rearrangement of the input's first i values and the rest is untouched. */
  ghost predicate PrefixInserted(input: seq<int>, s: seq<int>, i: nat)
    requires i <= |input| == |s|
  {
    IsSorted(s[..i]) && multiset(s[..i]) == multiset(input[..i]) && s[i..] == input[i..]
  }

  /** h is where the key s[i] belongs in the ascending prefix s[..i]: right
      after the last value not above it, before the values above it. */
  ghost predicate KeyPlace(s: seq<int>, h: nat, i: nat)
    requires h <= i < |s|
  {
    (h > 0 ==> s[h - 1] <= s[i]) && forall k :: h <= k < i ==> s[k] > s[i]
  }

  /** The bookkeeping of one pass: inserting the input's i-th value into the
      ascending prefix moves the prefix invariant from i to i + 1, and the
      shifts of the pass are the inversions that value forms with the values
      before it. */
  lemma PassCounted(input: seq<int>, before: seq<int>, after: seq<int>, i: nat, h: nat)
    requires h <= i < |input| == |before|
    requires PrefixInserted(input, before, i)
    requires after == Inserted(before, h, i) && KeyPlace(before, h, i)
    ensures PrefixInserted(input, after, i + 1)
    ensures Inversions(input[..i + 1]) == Inversions(input[..i]) + (i - h)
  {
    InsertedSorted(before, h, i);
    InsertedPermutes(before, h, i);
    InsertedCount(before, h, i);
    assert before[i] == input[i];
    assert before[..i + 1] == before[..i] + [input[i]];
    assert input[..i + 1] == input[..i] + [input[i]];
    CountAbovePermutation(input[i], before[..i], input[..i]);
    InversionsSnoc(input[..i], input[i]);
  }

  /** Pass i: the key arr[i] is announced, the larger values before it are
      shifted right one by one (two steps each), the key is written into the
      hole (one step) and positions 0..i are marked Sorted. The key lands at
      i - shifts, right after the last value before it that does not exceed
      it, and every value it passes exceeds it; each shift costs one
      comparison. */
  method InsertionPass(arr: array<int>, bars0: seq<BarState>, i: nat,
                       steps0: seq<AnimationStep>, comparisons0: nat, swaps0: nat, ghost input: seq<int>)
    returns (steps: seq<AnimationStep>, bars: seq<BarState>, shifts: nat)
    requires |bars0| == arr.Length == |input| && 0 < i < arr.Length
    requires Recording(input, steps0, comparisons0, swaps0)
    modifies arr
    ensures shifts <= i && arr[..] == Inserted(old(arr[..]), i - shifts, i)
    ensures KeyPlace(old(arr[..]), i - shifts, i)
    ensures |bars| == |bars0| && forall k :: 0 <= k <= i ==> bars[k] == Sorted
    ensures bars[i + 1..] == bars0[i + 1..]
    ensures |steps| == |steps0| + 2 + 2 * shifts
    ensures Recording(input, steps, comparisons0 + shifts, swaps0 + shifts)
  {
    ghost var start := arr[..];
    var key := arr[i];
    var j: int;
    bars := bars0[i := Pivot];
    steps := Push(arr, bars, steps0, comparisons0, swaps0, SelectKey(key), input);

    var comparisons, swaps;
    ghost var keyBars := bars;
    steps, bars, j, comparisons, swaps := ShiftLarger(arr, bars, i, key, steps, comparisons0, swaps0, input);
    assert bars[i + 1..] == keyBars[i + 1..] == bars0[i + 1..];
    arr[j + 1] := key;
    ShiftedFilled(start, j + 1, i);
    shifts := i - 1 - j;

    ghost var shifted := bars;
    bars := bars[i := Default];
    bars := bars[j + 1 := Swapping];
    assert bars[i + 1..] == shifted[i + 1..];
    steps := Push(arr, bars, steps, comparisons, swaps, InsertKey(key), input);
    var tail := bars[i + 1..];
    bars := Uniform(i + 1, Sorted) + tail;
    assert bars[i + 1..] == tail;
  }

  /** The marker of index k once the values from j + 1 to i - 1 have moved
      right: every index a value moved into (j + 2 to i) is Sorted, the last
      one left (j + 1) is Default, and the others keep their markers. */
  function ShiftMarker(bars0: seq<BarState>, j: int, i: nat, k: nat): BarState
    requires k < |bars0|
  {
    if j + 1 < k <= i then Sorted
    else if k == j + 1 && j + 1 < i then Default
    else bars0[k]
  }

  /** The inner loop: while the value left of the hole exceeds the key it is
      compared (one step) and moved into the hole (one step). It returns the
      index j left of the final hole: arr[..j + 1] is untouched, every value
      moved exceeds the key, and arr[j] (if any) does not. */
  method ShiftLarger(arr: array<int>, bars0: seq<BarState>, i: nat, key: int,
                     steps0: seq<AnimationStep>, comparisons0: nat, swaps0: nat, ghost input: seq<int>)
    returns (steps: seq<AnimationStep>, bars: seq<BarState>, j: int, comparisons: nat, swaps: nat)
    requires |bars0| == arr.Length == |input| && 0 < i < arr.Length && arr[i] == key
    requires Recording(input, steps0, comparisons0, swaps0)
    modifies arr
    ensures -1 <= j < i && arr[..] == Shifted(old(arr[..]), j + 1, i)
    ensures j >= 0 ==> old(arr[j]) <= key
    ensures forall k :: j < k < i ==> old(arr[k]) > key
    ensures comparisons == comparisons0 + (i - 1 - j) && swaps == swaps0 + (i - 1 - j)
    ensures |bars| == |bars0|
    ensures forall k :: 0 <= k < |bars| ==> bars[k] == ShiftMarker(bars0, j, i, k)
    ensures bars[i + 1..] == bars0[i + 1..]
    ensures |steps| == |steps0| + 2 * (i - 1 - j)
    ensures Recording(input, steps, comparisons, swaps)
  {
    ghost var start := arr[..];
    steps, bars, comparisons, swaps := steps0, bars0, comparisons0, swaps0;
    j := i - 1;
    ShiftedNone(start, i);
    while j >= 0 && arr[j] > key
      invariant -1 <= j < i && arr[..] == Shifted(start, j + 1, i)
      invariant forall k :: j < k < i ==> start[k] > key
      invariant comparisons == comparisons0 + (i - 1 - j) && swaps == swaps0 + (i - 1 - j)
      invariant |bars| == |bars0|
      invariant forall k :: 0 <= k < |bars| ==> bars[k] == ShiftMarker(bars0, j, i, k)
      invariant |steps| == |steps0| + 2 * (i - 1 - j)
      invariant Recording(input, steps, comparisons, swaps)
    {
      ShiftedMore(start, j + 1, i);
      steps, bars, comparisons, swaps := ShiftStep(arr, bars, j, key, steps, comparisons, swaps, input);
      j := j - 1;
    }
    if j >= 0 {
      ShiftedMore(start, j + 1, i);
    }
    assert forall k :: i < k < |bars| ==> bars[k] == bars0[k];
  }

  /** One iteration of the inner loop: arr[j] is compared with the key (one
      step, one comparison) and copied one place right (one step, one
      shift, counted as a swap). */
  method ShiftStep(arr: array<int>, bars0: seq<BarState>, j: nat, key: int,
                   steps0: seq<AnimationStep>, comparisons0: nat, swaps0: nat, ghost input: seq<int>)
    returns (steps: seq<AnimationStep>, bars: seq<BarState>, comparisons: nat, swaps: nat)
    requires |bars0| == arr.Length == |input| && j + 1 < arr.Length
    requires Recording(input, steps0, comparisons0, swaps0)
    modifies arr
    ensures arr[..] == old(arr[..])[j + 1 := old(arr[j])]
    ensures comparisons == comparisons0 + 1 && swaps == swaps0 + 1
    ensures |bars| == |bars0| && bars[j] == Default && bars[j + 1] == Sorted
    ensures forall k :: 0 <= k < |bars| && k != j && k != j + 1 ==> bars[k] == bars0[k]
    ensures |steps| == |steps0| + 2
    ensures Recording(input, steps, comparisons, swaps)
  {
    bars := bars0[j := Comparing];
    comparisons := comparisons0 + 1;
    steps := Push(arr, bars, steps0, comparisons, swaps0, ShiftRight(arr[j], key), input);
    arr[j + 1] := arr[j];
    swaps := swaps0 + 1;
    bars := bars[j + 1 := Swapping];
    steps := Push(arr, bars, steps, comparisons, swaps, Shift(arr[j]), input);
    bars := bars[j + 1 := Sorted];
    bars := bars[j := Default];
  }
}

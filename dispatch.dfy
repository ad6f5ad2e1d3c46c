/** The entry point (generateAnimationSteps): the algorithm tag selects one
    of the five producers, and any other tag yields no steps. */
module SortingAlgorithms {
  import opened Types
  import opened SortSpec
  import opened Steps
  import Bubble
  import Selection
  import Insertion
  import Merge
  import Quick

  /** Each of the five tags runs its own producer, whose trace carries that
      producer's guarantees; any other tag gives the empty trace, and every
      recognised tag gives a trace. */
  method GenerateAnimationSteps(input: seq<int>, algorithm: Algorithm) returns (steps: seq<AnimationStep>)
    ensures algorithm == BubbleSort ==> Bubble.BubbleTrace(input, steps)
    ensures algorithm == SelectionSort ==> Selection.SelectionTrace(input, steps)
    ensures algorithm == InsertionSort ==> Insertion.InsertionTrace(input, steps)
    ensures algorithm == MergeSort ==> Merge.MergeTrace(input, steps)
    ensures algorithm == QuickSort ==> Quick.QuickTrace(input, steps)
    ensures algorithm.Unrecognized? <==> steps == []
    ensures !algorithm.Unrecognized? ==> IsTrace(input, steps)
  {
    match algorithm
    case BubbleSort =>
      steps := Bubble.BubbleSort(input);
    case SelectionSort =>
      steps := Selection.SelectionSort(input);
    case InsertionSort =>
      steps := Insertion.InsertionSort(input);
    case MergeSort =>
      steps := Merge.MergeSort(input);
    case QuickSort =>
      steps := Quick.QuickSort(input);
    case Unrecognized(_) =>
      steps := [];
  }

  /** Whatever the algorithm, the closing step shows the same array: the
      ascending rearrangement of the input. */
  lemma TracesAgree(input: seq<int>, steps1: seq<AnimationStep>, steps2: seq<AnimationStep>)
    requires IsTrace(input, steps1) && IsTrace(input, steps2)
    ensures Last(steps1).arrayState == Last(steps2).arrayState
  {
    SortedUnique(Last(steps1).arrayState, Last(steps2).arrayState);
  }

  /** [3, 1, 2] has three pairs, two of them inversions, and [1, 2, 3] is
      its only ascending rearrangement. */
  lemma ThreeOneTwo(s: seq<int>)
    requires IsSorted(s) && multiset(s) == multiset([3, 1, 2])
    ensures Pairs(3) == 3 && Inversions([3, 1, 2]) == 2 && s == [1, 2, 3]
  {
    InversionsOfThreeOneTwo();
    assert multiset([1, 2, 3]) == multiset([3, 1, 2]);
    SortedUnique(s, [1, 2, 3]);
  }

  /** The inversions of [3, 1, 2] are (3, 1) and (3, 2). */
  lemma InversionsOfThreeOneTwo()
    ensures Inversions([3, 1, 2]) == 2
  {
    assert [3, 1, 2][..2] == [3, 1] && [3, 1][..1] == [3] && [3][..0] == [];
    assert [3, 1][1..] == [1] && [1][1..] == [] && [3][1..] == [];
    assert CountAbove(2, [3, 1]) == 1 && CountAbove(1, [3]) == 1 && CountAbove(3, []) == 0;
    assert Inversions([3]) == 0 && Inversions([3, 1]) == 1;
  }

  /** Bubble sort of [3, 1, 2]: three comparisons, two swaps, seven steps,
      and the closing array [1, 2, 3]. */
  lemma BubbleOfThreeOneTwo(steps: seq<AnimationStep>)
    requires Bubble.BubbleTrace([3, 1, 2], steps)
    ensures Last(steps).metrics == Metrics(3, 2) && |steps| == 7
    ensures Last(steps).arrayState == [1, 2, 3]
  {
    ThreeOneTwo(Last(steps).arrayState);
  }

  /** Quick sort of [5]: the initial step, the single-element step and the
      closing step, with zero metrics. */
  lemma QuickOfFive(steps: seq<AnimationStep>)
    requires Quick.QuickTrace([5], steps)
    ensures |steps| == 3 && Last(steps).metrics == Metrics(0, 0)
    ensures steps[0].description == InitialArray && steps[1].description == SingleElement(0)
    ensures Last(steps).description == ArraySorted && Last(steps).arrayState == [5]
  {
    Quick.QuickTraceShort([5], steps);
    SortedUnique(Last(steps).arrayState, [5]);
  }

  /** Insertion sort of ascending input makes no comparison and no shift:
      it counts a comparison only when the value left of the hole exceeds
      the key, so its comparison counter need not rise even for two or more
      values. */
  lemma InsertionOfSorted(input: seq<int>, steps: seq<AnimationStep>)
    requires Insertion.InsertionTrace(input, steps) && IsSorted(input)
    ensures Last(steps).metrics == Metrics(0, 0)
    ensures |steps| == (if |input| == 0 then 2 else 2 * |input|)
  {
    InversionsZeroIffSorted(input);
  }

  /** Merge sort of the empty input: the initial and the closing step, both
      showing no values, with zero metrics. */
  lemma MergeOfEmpty(steps: seq<AnimationStep>)
    requires Merge.MergeTrace([], steps)
    ensures |steps| == 2 && steps[0].arrayState == [] && steps[1].arrayState == []
    ensures steps[0].metrics == Metrics(0, 0) && steps[1].metrics == Metrics(0, 0)
  {
    Merge.MergeTraceShort([], steps);
  }
}

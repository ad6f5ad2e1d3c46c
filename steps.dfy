/** The snapshot helper shared by all producers and the shape every trace has:
    the bracketing initial and final steps, one length for every step and
    metrics that never go down. */
module Steps {
  import opened Types
  import opened SortSpec

  /** A marker array of length n holding b everywhere. */
  function Uniform(n: nat, b: BarState): seq<BarState> {
    seq(n, _ => b)
  }

  /** The snapshot helper: the step holds the contents of both live arrays as
      sequence values taken at the call. */
  function CreateStep(arrayState: array<int>, barStates: seq<BarState>,
                      comparisons: nat, swaps: nat, description: Description): AnimationStep
    reads arrayState
  {
    AnimationStep(arrayState[..], barStates, Metrics(comparisons, swaps), description)
  }

  /** A step keeps the values it was created with: a later write to the
      live array changes the array but not the step already emitted. */
  method SnapshotKept(arr: array<int>, bars: seq<BarState>, comparisons: nat, swaps: nat,
                      description: Description, k: int, v: int)
    returns (step: AnimationStep)
    requires 0 <= k < arr.Length
    modifies arr
    ensures arr[..] == old(arr[..])[k := v]
    ensures step.arrayState == old(arr[..]) && step.barStates == bars
    ensures step.metrics == Metrics(comparisons, swaps) && step.description == description
  {
    step := CreateStep(arr, bars, comparisons, swaps, description);
    arr[k] := v;
  }

  function Last(steps: seq<AnimationStep>): AnimationStep
    requires steps != []
  {
    steps[|steps| - 1]
  }

  /** Every step shows n values and n markers. */
  predicate Shaped(steps: seq<AnimationStep>, n: nat) {
    forall k :: 0 <= k < |steps| ==> |steps[k].arrayState| == n && |steps[k].barStates| == n
  }

  /** Neither counter goes down from one step to the next. */
  predicate MetricsMonotone(steps: seq<AnimationStep>) {
    forall k :: 0 < k < |steps| ==>
      steps[k - 1].metrics.comparisons <= steps[k].metrics.comparisons &&
      steps[k - 1].metrics.swaps <= steps[k].metrics.swaps
  }

  /** No step recorded so far shows more than the live counters. */
  predicate MetricsBelow(steps: seq<AnimationStep>, comparisons: nat, swaps: nat) {
    forall k :: 0 <= k < |steps| ==>
      steps[k].metrics.comparisons <= comparisons && steps[k].metrics.swaps <= swaps
  }

  /** The state a producer keeps while it records, stated step by step from
      the most recent one: that step has the input's length, shows at most the
      live counters, and is either the initial step of input or preceded by
      steps recorded against its own counters. */
  predicate Recording(input: seq<int>, steps: seq<AnimationStep>, comparisons: nat, swaps: nat)
    decreases |steps|
  {
    |steps| > 0 &&
    var last := steps[|steps| - 1];
    |last.arrayState| == |input| && |last.barStates| == |input| &&
    last.metrics.comparisons <= comparisons && last.metrics.swaps <= swaps &&
    if |steps| == 1 then last == InitialStep(input)
    else Recording(input, steps[..|steps| - 1], last.metrics.comparisons, last.metrics.swaps)
  }

  /** Every step shows a rearrangement of the input values (stated step by
      step from the most recent one). */
  predicate AllPermutations(steps: seq<AnimationStep>, input: seq<int>)
    decreases |steps|
  {
    steps == [] ||
    (multiset(steps[|steps| - 1].arrayState) == multiset(input) &&
     AllPermutations(steps[..|steps| - 1], input))
  }

  /** The step every producer emits first. */
  function InitialStep(input: seq<int>): AnimationStep {
    AnimationStep(input, Uniform(|input|, Default), Metrics(0, 0), InitialArray)
  }

  /** What every producer's trace satisfies: it opens with the untouched input,
      all markers Default and zero metrics; it closes with every marker Sorted,
      the fixed closing description and an ascending rearrangement of the
      input; all steps have the input's length and the metrics never drop. */
  predicate IsTrace(input: seq<int>, steps: seq<AnimationStep>) {
    |steps| >= 2 &&
    steps[0] == InitialStep(input) &&
    Last(steps).barStates == Uniform(|input|, Sorted) &&
    Last(steps).description == ArraySorted &&
    IsSorted(Last(steps).arrayState) &&
    multiset(Last(steps).arrayState) == multiset(input) &&
    Shaped(steps, |input|) &&
    MetricsMonotone(steps)
  }

  /** Step-to-step monotonicity gives monotonicity between any two steps. */
  lemma {:induction false} MetricsMonotoneBetween(steps: seq<AnimationStep>, i: nat, j: nat)
    requires MetricsMonotone(steps) && i <= j < |steps|
    ensures steps[i].metrics.comparisons <= steps[j].metrics.comparisons
    ensures steps[i].metrics.swaps <= steps[j].metrics.swaps
    decreases j - i
  {
    if i < j {
      MetricsMonotoneBetween(steps, i, j - 1);
    }
  }

  /** Appending a step of the right shape that shows the live counters keeps
      the recording state. */
  lemma RecordingExtended(input: seq<int>, steps: seq<AnimationStep>, step: AnimationStep, comparisons: nat, swaps: nat)
    requires Recording(input, steps, comparisons, swaps)
    requires |step.arrayState| == |input| && |step.barStates| == |input|
    requires step.metrics == Metrics(comparisons, swaps)
    ensures Recording(input, steps + [step], comparisons, swaps)
  {
    assert (steps + [step])[..|steps|] == steps;
  }

  lemma PermutationsExtended(steps: seq<AnimationStep>, step: AnimationStep, input: seq<int>)
    requires AllPermutations(steps, input)
    requires multiset(step.arrayState) == multiset(input)
    ensures AllPermutations(steps + [step], input)
  {
    assert (steps + [step])[..|steps|] == steps;
  }

  /** A recording opens with the initial step and has the shape and the
      metrics order of a trace. */
  lemma {:induction false} RecordingShaped(input: seq<int>, steps: seq<AnimationStep>, comparisons: nat, swaps: nat)
    requires Recording(input, steps, comparisons, swaps)
    ensures steps[0] == InitialStep(input)
    ensures Shaped(steps, |input|) && MetricsMonotone(steps) && MetricsBelow(steps, comparisons, swaps)
    decreases |steps|
  {
    var last := steps[|steps| - 1];
    if |steps| > 1 {
      var front := steps[..|steps| - 1];
      RecordingShaped(input, front, last.metrics.comparisons, last.metrics.swaps);
      assert steps == front + [last];
    }
  }

  /** The step-by-step statement of AllPermutations reaches every step. */
  lemma {:induction false} PermutationsEverywhere(steps: seq<AnimationStep>, input: seq<int>, k: nat)
    requires AllPermutations(steps, input) && k < |steps|
    ensures multiset(steps[k].arrayState) == multiset(input)
    decreases |steps|
  {
    if k < |steps| - 1 {
      PermutationsEverywhere(steps[..|steps| - 1], input, k);
    }
  }

  /** Pushing the closing step (an ascending rearrangement of the input, every
      marker Sorted, the live counters) onto a recording gives a trace. */
  lemma TraceFinished(input: seq<int>, steps: seq<AnimationStep>, last: AnimationStep, comparisons: nat, swaps: nat)
    requires Recording(input, steps, comparisons, swaps)
    requires last.barStates == Uniform(|input|, Sorted) && last.description == ArraySorted
    requires last.metrics == Metrics(comparisons, swaps)
    requires IsSorted(last.arrayState) && multiset(last.arrayState) == multiset(input)
    ensures IsTrace(input, steps + [last])
  {
    assert |last.arrayState| == |input| by {
      assert |multiset(last.arrayState)| == |multiset(input)|;
    }
    RecordingExtended(input, steps, last, comparisons, swaps);
    RecordingShaped(input, steps + [last], comparisons, swaps);
  }

  /** steps.push(createStep(...)): appends a snapshot of the live arrays
      under the live counters. The recording state is kept, and so is "every
      step is a rearrangement of the input" when the array still is one. */
  method Push(arr: array<int>, bars: seq<BarState>, steps0: seq<AnimationStep>,
              comparisons: nat, swaps: nat, description: Description, ghost input: seq<int>)
    returns (steps: seq<AnimationStep>)
    requires arr.Length == |bars| == |input|
    requires Recording(input, steps0, comparisons, swaps)
    ensures steps == steps0 + [AnimationStep(arr[..], bars, Metrics(comparisons, swaps), description)]
    ensures Recording(input, steps, comparisons, swaps)
    ensures AllPermutations(steps0, input) && multiset(arr[..]) == multiset(input) ==>
              AllPermutations(steps, input)
  {
    var step := CreateStep(arr, bars, comparisons, swaps, description);
    RecordingExtended(input, steps0, step, comparisons, swaps);
    if AllPermutations(steps0, input) && multiset(arr[..]) == multiset(input) {
      PermutationsExtended(steps0, step, input);
    }
    steps := steps0 + [step];
  }

  /** The closing push every producer ends with: a snapshot of the ascending
      array under all-Sorted markers with the fixed closing description and
      the final counters. It turns a recording into a trace. */
  method PushFinal(arr: array<int>, bars: seq<BarState>, steps0: seq<AnimationStep>,
                   comparisons: nat, swaps: nat, ghost input: seq<int>)
    returns (steps: seq<AnimationStep>)
    requires arr.Length == |input| && bars == Uniform(|input|, Sorted)
    requires IsSorted(arr[..]) && multiset(arr[..]) == multiset(input)
    requires Recording(input, steps0, comparisons, swaps)
    ensures IsTrace(input, steps)
    ensures |steps| == |steps0| + 1 && steps[..|steps0|] == steps0
    ensures Last(steps).arrayState == arr[..] && Last(steps).metrics == Metrics(comparisons, swaps)
    ensures AllPermutations(steps0, input) ==> AllPermutations(steps, input)
  {
    var last := CreateStep(arr, bars, comparisons, swaps, ArraySorted);
    TraceFinished(input, steps0, last, comparisons, swaps);
    if AllPermutations(steps0, input) {
      PermutationsExtended(steps0, last, input);
    }
    steps := steps0 + [last];
  }
}

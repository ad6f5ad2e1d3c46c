/** The values the trace generator works with: the algorithm tag, the per-index
    marker, the metrics pair and one animation step (types.ts). */
module Types {

  /** The string values of the five enum members. */
  const AlgorithmNames: set<string> :=
    {"Bubble Sort", "Selection Sort", "Insertion Sort", "Merge Sort", "Quick Sort"}

  /** A tag that is none of the five enum values. */
  type OtherTag = s: string | s !in AlgorithmNames witness ""

  /** The string enum of algorithms, plus any other tag a caller may pass. */
  datatype Algorithm =
    | BubbleSort
    | SelectionSort
    | InsertionSort
    | MergeSort
    | QuickSort
    | Unrecognized(tag: OtherTag)

  /** The string value an algorithm tag carries. */
  function Name(a: Algorithm): string {
    match a
    case BubbleSort => "Bubble Sort"
    case SelectionSort => "Selection Sort"
    case InsertionSort => "Insertion Sort"
    case MergeSort => "Merge Sort"
    case QuickSort => "Quick Sort"
    case Unrecognized(tag) => tag
  }

  /** The algorithm a tag string denotes: one of the five enum members when
      it is one of their values, an unrecognised tag otherwise. */
  function FromTag(s: string): (a: Algorithm)
    ensures Name(a) == s
    ensures a.Unrecognized? <==> s !in AlgorithmNames
  {
    if s == "Bubble Sort" then BubbleSort
    else if s == "Selection Sort" then SelectionSort
    else if s == "Insertion Sort" then InsertionSort
    else if s == "Merge Sort" then MergeSort
    else if s == "Quick Sort" then QuickSort
    else Unrecognized(s)
  }

  /** Every tag is denoted by its own string value, so the five enum values
      and the unrecognised tags never overlap. */
  lemma TagRoundTrip(a: Algorithm)
    ensures FromTag(Name(a)) == a
  {
  }

  /** The role of one index at one instant, as the renderer colours it. */
  datatype BarState = Default | Comparing | Swapping | Sorted | Pivot

  /** Cumulative counters of one run. */
  datatype Metrics = Metrics(comparisons: nat, swaps: nat)

  /** The description attached to a step. The two fixed texts are kept
      verbatim; every other description is a template whose interpolated
      numbers are kept as values (their decimal rendering is not modelled). */
  datatype Description =
    | Text(text: string)
    /** two values being compared (bubble and merge sort) */
    | ComparePair(first: int, second: int)
    /** two values just exchanged (bubble and quick sort) */
    | SwapPair(first: int, second: int)
    /** the current minimum compared with a candidate (selection sort) */
    | CompareMinimum(minimum: int, candidate: int)
    /** a smaller minimum was found (selection sort) */
    | NewMinimum(minimum: int)
    /** the minimum exchanged into its slot (selection sort) */
    | SwapWith(first: int, second: int)
    /** the key picked for insertion (insertion sort) */
    | SelectKey(key: int)
    /** a larger neighbour about to move right (insertion sort) */
    | ShiftRight(value: int, key: int)
    /** a neighbour was moved right (insertion sort) */
    | Shift(value: int)
    /** the key written into its slot (insertion sort) */
    | InsertKey(key: int)
    /** a value written by the main merge loop (merge sort) */
    | Place(value: int)
    /** a value written while draining a run (merge sort) */
    | PlaceRemaining(value: int)
    /** a partition of [low, high] begins with the given pivot (quick sort) */
    | PartitionRange(low: int, high: int, pivot: int)
    /** a value compared with the pivot (quick sort) */
    | CompareWithPivot(value: int, pivot: int)
    /** the pivot moved to its final index (quick sort) */
    | PlacePivot(pivot: int)
    /** a pivot is final, recursion follows (quick sort) */
    | PivotSorted(pivot: int)
    /** a one-element partition at the given index (quick sort) */
    | SingleElement(index: int)

  const InitialArray: Description := Text("Initial array")
  const ArraySorted: Description := Text("Array is sorted!")

  /** One immutable snapshot of a run. */
  datatype AnimationStep = AnimationStep(
    arrayState: seq<int>,
    barStates: seq<BarState>,
    metrics: Metrics,
    description: Description)
}

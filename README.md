# Sorting animation trace generator — Dafny model

This project models the trace generator of a sorting visualiser,
`services/sortingAlgorithms.ts`. The entry point, `generateAnimationSteps`,
takes an array of numbers and an algorithm tag. It runs bubble, selection,
insertion, merge or quick sort on a copy of the array. While sorting it
records an animation step for every visible event. A step holds:

- a snapshot of the values;
- a snapshot of the per-index markers (Default, Comparing, Swapping, Sorted,
  Pivot);
- the running comparison and swap counters;
- a description.

An unknown tag yields no steps.

The model keeps the source's imperative form. Each producer copies the input
into an `array<int>` and sorts it in place with the source's loops and
recursion. The markers and the list of steps are threaded through as values
(`seq<BarState>`, `seq<AnimationStep>`), and so are the two counters.
`Steps.CreateStep` takes a value snapshot of the array, so a later write
does not reach a step already emitted (`Steps.SnapshotKept`). `Steps.Push` is
`steps.push(createStep(..))`. Descriptions are a datatype whose variants
carry the interpolated numbers.

Every method is proved against pure specifications in `SortSpec`:

- `IsSorted`, and the multiset of the values;
- `Pairs(n) = n(n-1)/2`;
- `Inversions`, and `Merged` (the stable merge of two runs).

Every producer's result is proved to satisfy `Steps.IsTrace`:

- the trace has at least two steps;
- the first step is the untouched input with Default markers and zero
  metrics;
- the last step is an ascending rearrangement of the input, with all
  markers Sorted and the closing description;
- every step has the input's length;
- the metrics never go down.

Each producer also has its own trace predicate:

- **Bubble sort:** `n(n-1)/2` comparisons, exactly one swap per inversion of
  the input, one step per comparison and per swap, and every step a
  rearrangement of the input.
- **Selection sort:** `n(n-1)/2` comparisons, at most one swap per pass and
  none for ascending input, bounds on the step count, and every step a
  rearrangement of the input.
- **Insertion sort:** one comparison and one shift per inversion, and
  `2n + 2·inversions` steps.
- **Merge sort:** every merge writes its whole range once. The comparisons
  lie between a per-length lower and upper bound. There is one step per
  comparison and per write.
- **Quick sort** (Lomuto partition): the array is sorted, and every
  partition leaves the pivot between smaller and not-smaller values. There
  are `n-1 ≤ comparisons ≤ n(n-1)/2` comparisons and at least one swap for
  `n ≥ 2`, plus step-count bounds. For a single value the middle step marks
  it as a one-element partition. Every step is a rearrangement of the input.

Because an ascending sequence is determined by its multiset
(`SortSpec.SortedUnique`), all five algorithms end on the same array.

Two behaviours of the code are worth spelling out:

- **Rearrangements:** every step of bubble, selection and quick sort shows a
  rearrangement of the input, and this is proved. Insertion sort shows the
  array mid-shift, and merge sort writes run values back one at a time.
  Both show intermediate arrays in which a value appears twice, so their
  traces do not state that every step is a rearrangement.
- **Comparisons:** insertion sort counts a comparison only when the value
  left of the hole is larger than the key. An ascending input makes none,
  even with two or more values (`SortingAlgorithms.InsertionOfSorted`).

Files:

| file | contents |
|---|---|
| `types.dfy` | algorithm tags, markers, metrics, descriptions, steps (`types.ts`) |
| `sort_spec.dfy` | sortedness, pairs, inversions, stable merge, and their lemmas |
| `steps.dfy` | `createStep`, pushing steps, and the trace shape every producer guarantees |
| `arrays.dfy` | the in-place exchange and the initial copy |
| `bubble.dfy`, `selection.dfy`, `insertion.dfy`, `merge.dfy`, `quick.dfy` | the five producers |
| `dispatch.dfy` | `generateAnimationSteps` and lemmas about whole traces |

## Model

| member | source | states |
|---|---|---|
| SortingAlgorithms.GenerateAnimationSteps | services/sortingAlgorithms.ts:4-19 | each of the five tags gives that producer's trace guarantees; a tag outside the five enum values, and only such a tag, gives the empty trace; every recognised tag gives a well-formed trace |
| Types.FromTag | types.ts:2-8 | a tag string denotes the enum member whose value it is, and an unrecognised tag exactly when it is none of the five values; the tag's value is the string itself |
| Types.TagRoundTrip | types.ts:2-8 | reading back the value of any tag gives that tag, so the five enum values and the unrecognised tags never overlap |
| SortingAlgorithms.TracesAgree | services/sortingAlgorithms.ts:4-19 | any two traces of the same input end on the same array, so every algorithm produces the same sorted result |
| SortingAlgorithms.ThreeOneTwo | services/sortingAlgorithms.ts:36-67 | [3, 1, 2] has three pairs and two inversions, and its only ascending rearrangement is [1, 2, 3] |
| SortingAlgorithms.InversionsOfThreeOneTwo | services/sortingAlgorithms.ts:36-67 | [3, 1, 2] has exactly two inversions, so bubble sort swaps twice on it |
| SortingAlgorithms.BubbleOfThreeOneTwo | services/sortingAlgorithms.ts:36-67 | bubble sort of [3, 1, 2] ends on [1, 2, 3] with 3 comparisons, 2 swaps and 7 steps |
| SortingAlgorithms.QuickOfFive | services/sortingAlgorithms.ts:290-299 | quick sort of [5] has exactly the initial, the single-element and the closing step, with zero metrics, ending on [5] |
| SortingAlgorithms.InsertionOfSorted | services/sortingAlgorithms.ts:135-148 | insertion sort of ascending input counts no comparison and no shift and has 2n steps (2 when empty) |
| SortingAlgorithms.MergeOfEmpty | services/sortingAlgorithms.ts:227-232 | merge sort of the empty input has exactly two steps, both empty with zero metrics |
| Steps.SnapshotKept | services/sortingAlgorithms.ts:22-33 | a step created from the live array keeps the values of the moment it was created: after a later write to the array, the array has changed and the step has not |
| Steps.Push | services/sortingAlgorithms.ts:22-33 | steps.push(createStep(..)) appends exactly a snapshot of the live values and markers with the live counters; keeps the recording state (shape, counters bounded by the live ones) and, when the array is still a rearrangement of the input, the all-permutations property |
| Steps.PushFinal | services/sortingAlgorithms.ts:64-65 | the closing push of ascending values under all-Sorted markers turns a recording into a trace that starts with the initial step, keeps its earlier steps and shows the final counters |
| Steps.MetricsMonotoneBetween | services/sortingAlgorithms.ts:50-54 | counters that only ever increase (++comparisons, swaps++) make the steps' metrics non-decreasing between any two steps, not only adjacent ones |
| Steps.RecordingShaped | services/sortingAlgorithms.ts:44 | a recording starts with the initial step, every step has the input's length and counters never decrease |
| Steps.PermutationsEverywhere | services/sortingAlgorithms.ts:52-57 | the step-by-step all-permutations property (kept because the producers change the array only by exchanges, as at this bubble sort swap) reaches every single step |
| Steps.TraceFinished | services/sortingAlgorithms.ts:65 | a recording plus a sorted, all-Sorted closing step with the live counters is a trace |
| Arrays.Swap | services/sortingAlgorithms.ts:53 | the destructuring exchange: the two cells trade values, nothing else changes, the multiset is kept |
| Arrays.CopyOf | services/sortingAlgorithms.ts:38 | the spread copy: a fresh array with the input's contents |
| Bubble.BubbleSort | services/sortingAlgorithms.ts:36-67 | the trace is well formed, every step is a rearrangement of the input, n(n-1)/2 comparisons, one swap per inversion, 2 + comparisons + swaps steps |
| Bubble.BubblePasses | services/sortingAlgorithms.ts:46-63 | after the outer loop the array is an ascending rearrangement of the input, all but index 0 marked Sorted, n(n-1)/2 comparisons, swaps = inversions of the input, one step per comparison and swap |
| Bubble.SettlePass | services/sortingAlgorithms.ts:47-62 | one outer iteration: the pass settles the largest unsettled value at n-1-i, which is marked Sorted, with markers 0..n-2-i Default and the settled markers untouched; n-1-i comparisons; swaps plus remaining inversions unchanged |
| Bubble.BubblePass | services/sortingAlgorithms.ts:47-61 | pass i leaves the array as the functional pass PassFrom over 0..n-1-i, counts exactly the exchanges that pass makes, settles one more largest value at n-1-i, compares n-1-i pairs, resets markers 0..n-1-i to Default and leaves the settled markers untouched |
| Bubble.CompareExchange | services/sortingAlgorithms.ts:48-60 | one inner iteration performs the compare-exchange of j and j+1, counts one comparison and a swap exactly when out of order, one or two steps, markers reset to Default |
| Bubble.ExchangeStep | services/sortingAlgorithms.ts:52-57 | the out-of-order pair is exchanged and marked Swapping, one swap and one step |
| Bubble.PassFromInversions | services/sortingAlgorithms.ts:47-61 | the exchanges of a pass plus the inversions left equal the inversions before it |
| Bubble.PassFromFrame | services/sortingAlgorithms.ts:47 | a pass leaves the cells after its last index unchanged |
| Bubble.PassFromBounded | services/sortingAlgorithms.ts:47-61 | an upper bound on the scanned cells survives the pass |
| Bubble.PassFromCarriesMaximum | services/sortingAlgorithms.ts:47-61 | a pass carries the running maximum to its last index |
| Bubble.PassSettles | services/sortingAlgorithms.ts:46-63 | a pass after i passes extends the settled ascending suffix to i + 1 values |
| Bubble.PassDone | services/sortingAlgorithms.ts:47-61 | a whole pass after i passes settles one more value, and the exchanges it makes are exactly the inversions it removes |
| Bubble.SettledSorted | services/sortingAlgorithms.ts:46-64 | once n-1 values are settled the whole array is ascending |
| Selection.SelectionSort | services/sortingAlgorithms.ts:70-114 | the trace is well formed, every step a rearrangement of the input, n(n-1)/2 comparisons, fewer than n swaps and none for ascending input, step count between 2 + comparisons + swaps and 2 + 2·comparisons + swaps |
| Selection.SelectionPasses | services/sortingAlgorithms.ts:80-110 | after the outer loop the array is an ascending rearrangement of the input with positions 0..n-2 Sorted and the counts above |
| Selection.SelectionPass | services/sortingAlgorithms.ts:81-109 | pass i exchanges position i with the leftmost smallest value m of arr[i..] (the array is the old one with i and m exchanged), swapping and counting a swap exactly when m is not i; the prefix stays in order with everything after it; n-1-i comparisons; markers after i reset, i marked Sorted, the markers before i untouched |
| Selection.ScanForMinimum | services/sortingAlgorithms.ts:82-96 | starting from Pivot at i and Default after it, the inner loop returns the index of the leftmost smallest value of arr[i..], which alone is marked Pivot from i on (Default elsewhere, so i loses Pivot once a smaller value is found); markers before i untouched; n-1-i comparisons and one or two steps each |
| Selection.CompareWithMinimum | services/sortingAlgorithms.ts:85-95 | one comparison; the running minimum moves to j exactly when arr[j] is strictly smaller, with a second step; the old minimum's marker becomes Default and j's Pivot, or j's marker returns to Default; no other marker changes |
| Selection.SwapMinimum | services/sortingAlgorithms.ts:98-104 | the minimum and position i trade values, both marked Swapping, one swap and one step |
| Selection.SelectSettles | services/sortingAlgorithms.ts:98-109 | exchanging the leftmost minimum into i extends the ordered prefix by one |
| Selection.SelectedSorted | services/sortingAlgorithms.ts:80-111 | with n-1 values placed the array is ascending |
| Selection.SortedLeftmostMinimum | services/sortingAlgorithms.ts:98 | on ascending data the minimum is already at i, so no swap happens |
| Insertion.InsertionSort | services/sortingAlgorithms.ts:117-163 | the trace is well formed, comparisons = swaps = inversions of the input, 2n + 2·inversions steps (2 when empty) |
| Insertion.InsertionPasses | services/sortingAlgorithms.ts:126-158 | starting with index 0 marked Sorted, after the outer loop the array is an ascending rearrangement of the input with every marker Sorted, with one comparison and one shift per inversion |
| Insertion.CountedPass | services/sortingAlgorithms.ts:129-157 | pass i extends the ascending prefix by the input's i-th value, with one shift per inversion that value forms with earlier values, and 2 + 2·shifts steps; markers 0..i Sorted, those after i untouched |
| Insertion.InsertionPass | services/sortingAlgorithms.ts:129-157 | the key lands right after the last earlier value not above it, every value it passes exceeds it, positions 0..i are marked Sorted and those after i keep their markers, 2 + 2·shifts steps |
| Insertion.ShiftLarger | services/sortingAlgorithms.ts:135-148 | the while loop moves every value above the key one place right and stops at the first value not above it (or the start), one comparison, one swap and two steps per shift; every index a value moved into is marked Sorted, the last one vacated Default, all other markers (those after i included) untouched |
| Insertion.ShiftStep | services/sortingAlgorithms.ts:136-147 | one shift: arr[j] copied to j+1, one comparison, one swap, two steps; marker j+1 Sorted, j Default, no other marker changed |
| Insertion.ShiftedMore | services/sortingAlgorithms.ts:139 | copying the value left of the hole moves the hole one place left |
| Insertion.ShiftedFilled | services/sortingAlgorithms.ts:149 | writing the key into the hole gives the inserted array |
| Insertion.InsertedSorted | services/sortingAlgorithms.ts:135-149 | inserting the key at its place in an ascending prefix keeps the prefix ascending |
| Insertion.InsertedPermutes | services/sortingAlgorithms.ts:135-149 | the inserted prefix is a rearrangement of the old prefix and the rest is unchanged |
| Insertion.InsertedCount | services/sortingAlgorithms.ts:135-148 | the number of shifts is the number of prefix values above the key |
| Insertion.PassCounted | services/sortingAlgorithms.ts:128-158 | one pass moves the prefix invariant from i to i + 1 and adds the inversions of the i-th input value |
| Merge.MergeSort | services/sortingAlgorithms.ts:166-233 | the trace is well formed, swaps = values written by all merges, comparisons between the fewest and the most the merges can make, one step per comparison and per write |
| Merge.Sort | services/sortingAlgorithms.ts:219-225 | sort(l, r) sorts l..r in place, leaves other cells alone, with the counts of a merge sort of r-l+1 values |
| Merge.MergeRuns | services/sortingAlgorithms.ts:171-217 | merge(l, m, r) replaces l..r by the stable merge of l..m and m+1..r and leaves the rest alone; one comparison per head comparison, one swap per value, one step for each |
| Merge.MergeHeads | services/sortingAlgorithms.ts:183-199 | the main loop takes the smaller head (the left one on ties) until a run is used up, writing the merge so far |
| Merge.MergeStep | services/sortingAlgorithms.ts:184-198 | one iteration writes the next merge value, one comparison, one swap, two steps |
| Merge.Drain | services/sortingAlgorithms.ts:201-216 | a draining loop writes the rest of its run in order, one swap and one step per value |
| Merge.Highlight | services/sortingAlgorithms.ts:184-185 | the fill and the marking loop leave Comparing exactly on l..r and Default everywhere else |
| Merge.Middle | services/sortingAlgorithms.ts:221 | the split point l + floor((r - l) / 2) leaves Half(r - l + 1) values on the left |
| Merge.HalfIsMiddle | services/sortingAlgorithms.ts:221 | Half(n) is (n - 1) / 2 + 1 |
| Merge.HalfLonger | services/sortingAlgorithms.ts:221 | the right half is never longer than the left |
| Merge.MergeComparisonsBounds | services/sortingAlgorithms.ts:183-199 | a merge compares at least as often as the shorter run is long, at most once per value but the last, never when a run is empty |
| Merge.MergeCountBounds | services/sortingAlgorithms.ts:183-199 | the merge of adjacent runs makes between r-m and r-l comparisons |
| Merge.SortedIntoComposed | services/sortingAlgorithms.ts:219-225 | sorting both halves and merging sorts the range and leaves the rest alone |
| Merge.SortCountsComposed | services/sortingAlgorithms.ts:219-225 | the counts of both halves plus those of the merge are the counts of the whole |
| Merge.SortCounted | services/sortingAlgorithms.ts:219-225 | the per-length count bounds compose over a split |
| Merge.PlacedGrow | services/sortingAlgorithms.ts:189-192 | writing the next merge value extends the written prefix and keeps the rest unchanged |
| Merge.PlacedAll | services/sortingAlgorithms.ts:171-217 | once the whole range is written, it holds the merge and nothing else changed |
| Merge.HeadsStep | services/sortingAlgorithms.ts:188-194 | taking the smaller head keeps the loop invariant and uses one comparison |
| Merge.HeadsRest | services/sortingAlgorithms.ts:201-216 | when the main loop stops, the rest of the merge is the rest of the left run then the rest of the right run |
| Merge.MergedStep | services/sortingAlgorithms.ts:188-194 | the merge starts with the smaller head, the left one on ties |
| Merge.MergedRest | services/sortingAlgorithms.ts:201-216 | with one run empty the merge is the other run, with no comparison |
| Merge.MergeTraceShort | services/sortingAlgorithms.ts:220 | an input of at most one value gives two steps and zero metrics |
| Quick.QuickSort | services/sortingAlgorithms.ts:237-302 | the trace is well formed, every step a rearrangement of the input, the quick sort counts hold, and a single value gets its single-element step |
| Quick.Sort | services/sortingAlgorithms.ts:277-295 | sort(low, high) sorts low..high in place and leaves the rest alone; a single value is marked Sorted with one step; counts bounded as in QuickCounts |
| Quick.PartitionMarked | services/sortingAlgorithms.ts:279-286 | partitions low..high around the returned index and marks it Sorted, every other marker Sorted stays and the rest becomes Default |
| Quick.Partition | services/sortingAlgorithms.ts:243-275 | returns p with the old arr[high] at p, smaller values before it, not-smaller after it, the rest unchanged; high-low comparisons, p-low+1 swaps |
| Quick.OpenPartition | services/sortingAlgorithms.ts:247-250 | markers Default except Pivot at high, one step |
| Quick.ClearRange | services/sortingAlgorithms.ts:248 | the loop writes Default over low..high-1 and changes nothing else |
| Quick.ScanRange | services/sortingAlgorithms.ts:252-266 | the scan leaves low..i below the pivot and i+1..high-1 not below it, the rest unchanged, high-low comparisons, i+1-low swaps |
| Quick.PartitionStep | services/sortingAlgorithms.ts:253-265 | one scan step swaps arr[j] into i+1 exactly when it is below the pivot, one comparison, markers back to Pivot at high only |
| Quick.ExchangeBelow | services/sortingAlgorithms.ts:257-263 | the exchange of i and j, one swap and one step, markers Swapping at j and Default at i |
| Quick.PivotExchange | services/sortingAlgorithms.ts:268-272 | the pivot and i+1 trade values, one swap and one step |
| Quick.KeepSorted | services/sortingAlgorithms.ts:283-285 | every marker stays Sorted if it was, otherwise becomes Default |
| Quick.ScannedNext | services/sortingAlgorithms.ts:256-263 | one scan step keeps the scan invariant, advancing i exactly when the value is below the pivot |
| Quick.PivotPlaced | services/sortingAlgorithms.ts:268 | moving the pivot to i+1 after the scan partitions the range around it |
| Quick.RangeMultiset | services/sortingAlgorithms.ts:258 | rearranging only inside a range keeps the range's multiset |
| Quick.RangeBelowKept | services/sortingAlgorithms.ts:288 | sorting a range below a bound keeps it below the bound |
| Quick.RangeAtLeastKept | services/sortingAlgorithms.ts:289 | sorting a range at or above a bound keeps it at or above the bound |
| Quick.SortedAroundPivot | services/sortingAlgorithms.ts:279-289 | partitioning then sorting both sides sorts the whole range |
| Quick.QuickCountsComposed | services/sortingAlgorithms.ts:279-289 | the counts of a partition and of both recursive sorts compose to the counts of the range |
| Quick.PairsSplit | services/sortingAlgorithms.ts:279-289 | the comparison bounds of the two sides plus those of the partition stay within n(n-1)/2 |
| Quick.QuickCountsShort | services/sortingAlgorithms.ts:290-294 | an empty range costs nothing and a single value costs one step |
| Quick.QuickTraceShort | services/sortingAlgorithms.ts:290-299 | an input of at most one value gives 2 + n steps with zero metrics, the middle one a single-element step |
| Quick.QuickTraceLong | services/sortingAlgorithms.ts:243-289 | for two or more values, n-1 ≤ comparisons ≤ n(n-1)/2 and at least one swap |
| SortSpec.SortedUnique | services/sortingAlgorithms.ts:65 | two ascending rearrangements of the same values are equal, so every producer's closing "Array is sorted!" step shows the same array |
| SortSpec.PairsClosedForm | services/sortingAlgorithms.ts:46-47 | Pairs(k) is k(k-1)/2 |
| SortSpec.InversionsSwapAdjacent | services/sortingAlgorithms.ts:52-53 | exchanging an adjacent out-of-order pair removes exactly one inversion |
| SortSpec.InversionsZeroIffSorted | services/sortingAlgorithms.ts:65 | a sequence is ascending exactly when it has no inversion |
| SortSpec.InversionsBound | services/sortingAlgorithms.ts:46-63 | there are at most as many inversions as pairs |
| SortSpec.InversionsSnoc | services/sortingAlgorithms.ts:128-158 | appending a value adds the number of earlier values above it |
| SortSpec.CountAbovePermutation | services/sortingAlgorithms.ts:128-158 | the number of values above x depends only on the multiset |
| SortSpec.CountAboveZero | services/sortingAlgorithms.ts:135 | no value exceeds x exactly when the count is zero |
| SortSpec.CountAboveAll | services/sortingAlgorithms.ts:135 | every value exceeds x exactly when the count is the length |
| SortSpec.MergedPermutation | services/sortingAlgorithms.ts:183-216 | the merge holds exactly the values of both runs |
| SortSpec.MergedSorted | services/sortingAlgorithms.ts:183-216 | merging two ascending runs gives an ascending sequence |
| SortSpec.MergedAtLeast | services/sortingAlgorithms.ts:183-216 | a lower bound on both runs bounds their merge |
| SortSpec.SortedAround | services/sortingAlgorithms.ts:288-289 | an ascending run of values at most x, then x, then an ascending run of values at least x, is ascending |
| SortSpec.SortedRunSlice | services/sortingAlgorithms.ts:229 | the pointwise sortedness of a range is sortedness of its slice, both ways |
| SortSpec.SortedIntoShort | services/sortingAlgorithms.ts:220 | a range of at most one value is sorted by doing nothing |

## Left out

- The source's numbers are JavaScript doubles; the model uses unbounded integers (no fractions, NaN or infinities).
- Descriptions keep their interpolated numbers as values; their decimal rendering into text is not modelled.
- The UI (`App.tsx`, `components/`, `constants.ts`) is not part of this model; `types.ts` is modelled as datatypes.
- The marker arrays are modelled as sequence values reassigned on each write. The source mutates them in place, but each step copies them, and quick sort's `sort` copies them before writing. So no aliasing is lost.
- merge: the `L` and `R` copies are modelled as slices of the array taken before the merge, and not as separate arrays.
- The counters and the step list, shared by the nested functions of merge and quick sort, are threaded as parameters and results.
- Idempotence is not stated as a lemma, because Dafny cannot compare the results of two method calls. Every method of the model is deterministic.
- The trace predicates state the shape, the metrics order and the counts of the intermediate steps, and say which steps are rearrangements. They do not state each intermediate step's description or markers. The model produces those as the source does.
- SortingAlgorithms.BubbleOfThreeOneTwo: states the metrics, step count and closing array of bubble sort on [3, 1, 2], but not the intermediate [1, 3, 2] snapshot.
- Merge.MergeSort: states comparisons only between a per-length lower and upper bound. The exact count depends on the values, and `Merge.MergeRuns` states it exactly for each merge.
- Quick.QuickSort: states comparisons, swaps and steps only as bounds (`QuickCounts`). They depend on the pivots chosen.
- Quick.Sort: states its counts only as the bounds of `QuickCounts`, for the same reason.
- Selection.SelectionSort: bounds the step count rather than stating it, because the number of new-minimum steps depends on the values.
- Bubble.SettlePass: gives the array after the pass only as a rearrangement of the input with one more settled value; the exact array (the pass function `PassFrom` over 0..n-1-i) is stated by `Bubble.BubblePass`, which it calls. Passing that recursive function on to the outer loop makes the loop's proof too expensive.
- The algorithm tag is a closed string enum in the source; the model's `Unrecognized` variant carries any other string (`Types.OtherTag`), which the source's type does not admit but its `default` branch handles.
- Insertion.InsertionSort and Merge.MergeSort: do not state that every step is a rearrangement of the input. Mid-shift and mid-merge arrays show one value twice, so the code does not keep that property.

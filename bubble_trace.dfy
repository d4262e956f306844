/** What the `bubble_sort` generator promises of its trace, stated once over
    the whole trace and once record by record, with the lemmas joining the two. */
module BubbleTrace {
  import opened Wrappers
  import opened StepModel
  import opened Text

  predicate AdjacentComparison(s: Step) {
    s.state.Some? && s.comparing.Some? && |s.comparing.value| == 2 &&
    0 <= s.comparing.value[0] && s.comparing.value[1] == s.comparing.value[0] + 1 &&
    s.comparing.value[1] < |s.state.value|
  }

  /** The compared pair of an adjacent comparison is out of order. */
  predicate OutOfOrder(s: Step)
    requires AdjacentComparison(s)
  {
    var j := s.comparing.value[0];
    s.state.value[j] > s.state.value[j + 1]
  }

  /** Each comparison compares neighbours in range. */
  predicate ComparisonsAdjacent(steps: seq<Step>) {
    forall k :: 0 <= k < |steps| && steps[k].kind == Comparison ==> AdjacentComparison(steps[k])
  }

  /** A comparison of an out-of-order pair, which must be answered by a swap. */
  predicate PendingSwap(s: Step) {
    s.kind == Comparison && AdjacentComparison(s) && OutOfOrder(s)
  }

  /** `x` exchanges the pair that the comparison `prev` found out of order,
      leaving that pair in order. */
  predicate SwapAnswers(prev: Step, x: Step) {
    PendingSwap(prev) && x.swapped == prev.comparing &&
    var j := prev.comparing.value[0];
    x.state == Some(Exchanged(prev.state.value, j, j + 1)) &&
    x.state.value[j] < x.state.value[j + 1]
  }

  /** Every swap step comes right after the comparison it answers. */
  predicate SwapStepsJustified(steps: seq<Step>) {
    forall k :: 0 <= k < |steps| && steps[k].kind == Swap ==> 0 < k && SwapAnswers(steps[k - 1], steps[k])
  }

  /** Every comparison of an out-of-order pair among the first `upto` steps is followed by a swap. */
  predicate OutOfOrderAnswered(steps: seq<Step>, upto: int) {
    forall k :: 0 <= k < upto && k < |steps| && PendingSwap(steps[k]) ==>
      k + 1 < |steps| && steps[k + 1].kind == Swap
  }

  /** A swap step follows exactly the comparisons whose pair was out of order. */
  predicate SwapsExactlyWhenOutOfOrder(steps: seq<Step>) {
    SwapStepsJustified(steps) && OutOfOrderAnswered(steps, |steps|)
  }

  /** Positions `m..` hold their final values: no element exceeds a later
      one that sits at or after `m` (so `s[m..]` is ascending and nothing
      before `m` exceeds it). */
  predicate SuffixSettled(s: seq<int>, m: int) {
    0 <= m <= |s| && forall a, b :: 0 <= a < b < |s| && m <= b ==> s[a] <= s[b]
  }

  /** Each `sorted` step marks a non-empty suffix `range(m, n)` that really is settled. */
  predicate SortedMarksSettledSuffix(steps: seq<Step>, n: int) {
    forall k :: 0 <= k < |steps| && steps[k].kind == Sorted ==>
      steps[k].state.Some? && steps[k].sortedIndices.Some? &&
      var m := n - |steps[k].sortedIndices.value|;
      m < n && steps[k].sortedIndices.value == Range(m, n) &&
      SuffixSettled(steps[k].state.value, m)
  }

  /** Whether the current pass (the steps since the last `sorted` or `initial`) swapped. */
  predicate PassSwapped(steps: seq<Step>)
    decreases |steps|
  {
    |steps| > 0 && Last(steps).kind != Sorted && Last(steps).kind != Initial &&
    (Last(steps).kind == Swap || PassSwapped(steps[..|steps| - 1]))
  }

  /** A pass without a swap is the last one; a pass with a swap never is. */
  predicate StopsAfterQuietPass(steps: seq<Step>) {
    forall k :: 0 <= k < |steps| && steps[k].kind == Sorted ==>
      k + 1 < |steps| && (steps[k + 1].kind == Final <==> !PassSwapped(steps[..k]))
  }

  /** Everything `bubble_sort` promises about its trace of `data`. */
  predicate IsBubbleTrace(data: seq<int>, steps: seq<Step>) {
    |steps| >= 2 && steps[0] == InitialStep(data) &&
    SnapshotsOf(data, steps) && ComparisonsAdjacent(steps) &&
    SwapsExactlyWhenOutOfOrder(steps) && SortedMarksSettledSuffix(steps, |data|) &&
    StopsAfterQuietPass(steps) && EndsSorted(steps, |data|)
  }

  // ---------------------------------------------------------------------------
  // Building a bubble trace one record at a time

  /** The comparison record `bubble_sort` appends for positions `j`, `j+1` of `s`. */
  function ComparisonStep(s: seq<int>, j: int): Step
    requires 0 <= j && j + 1 < |s|
  {
    Blank(Comparison, "Comparing " + Show(s[j]) + " and " + Show(s[j + 1]))
      .(state := Some(s), comparing := Some([j, j + 1]))
  }

  /** The swap record, carrying the snapshot taken after the exchange. */
  function SwapStep(s: seq<int>, j: int): Step
    requires 0 <= j && j + 1 < |s|
  {
    Blank(Swap, "Swapped " + Show(s[j]) + " and " + Show(s[j + 1]))
      .(state := Some(s), swapped := Some([j, j + 1]))
  }

  function SortedSuffixStep(s: seq<int>, m: int): Step {
    Blank(Sorted, "Element at index " + Show(m) + " is now in its sorted position")
      .(state := Some(s), sortedIndices := Some(Range(m, |s|)))
  }

  /** `x` marks a non-empty suffix `range(m, n)` of its snapshot that is settled. */
  predicate MarksSettled(x: Step, n: int) {
    x.state.Some? && x.sortedIndices.Some? &&
    var m := n - |x.sortedIndices.value|;
    m < n && x.sortedIndices.value == Range(m, n) && SuffixSettled(x.state.value, m)
  }

  /** What `bubble_sort` guarantees of a record `x` appended after `prev`. */
  predicate BubbleNext(data: seq<int>, prev: seq<Step>, x: Step)
    requires |prev| > 0
  {
    SnapshotOf(data, x) &&
    (x.kind == Comparison ==> AdjacentComparison(x)) &&
    (x.kind == Swap ==> SwapAnswers(Last(prev), x)) &&
    (PendingSwap(Last(prev)) ==> x.kind == Swap) &&
    (x.kind == Sorted ==> MarksSettled(x, |data|)) &&
    (Last(prev).kind == Sorted ==> (x.kind == Final <==> !PassSwapped(prev[..|prev| - 1])))
  }

  /** The trace so far opens with the initial record and every later record fits its predecessors. */
  predicate BubbleSoFar(data: seq<int>, steps: seq<Step>) {
    |steps| > 0 && steps[0] == InitialStep(data) &&
    forall k {:trigger steps[..k]} :: 0 < k < |steps| ==> BubbleNext(data, steps[..k], steps[k])
  }

  lemma Extend(data: seq<int>, steps: seq<Step>, x: Step)
    requires BubbleSoFar(data, steps) && BubbleNext(data, steps, x)
    ensures BubbleSoFar(data, steps + [x])
  {
    var t := steps + [x];
    forall k | 0 < k < |t| ensures BubbleNext(data, t[..k], t[k]) {
      if k < |steps| {
        assert t[..k] == steps[..k];
      } else {
        assert t[..k] == steps;
      }
    }
  }

  lemma RangeBelow(lo: int, hi: int)
    requires 0 <= lo
    ensures AllBelow(Range(lo, hi), hi)
  {
  }

  /** Record `k > 0` of a trace built so far, read against its predecessors. */
  lemma SoFarAt(data: seq<int>, steps: seq<Step>, k: int)
    requires BubbleSoFar(data, steps) && 0 < k < |steps|
    ensures BubbleNext(data, steps[..k], steps[k]) && Last(steps[..k]) == steps[k - 1]
  {
  }

  // From the record-by-record definition to the properties of the whole trace.

  lemma SoFarSnapshots(data: seq<int>, steps: seq<Step>)
    requires BubbleSoFar(data, steps)
    ensures SnapshotsOf(data, steps) && ComparisonsAdjacent(steps)
  {
    forall k | 0 <= k < |steps|
      ensures SnapshotOf(data, steps[k]) && (steps[k].kind == Comparison ==> AdjacentComparison(steps[k]))
    {
      if k > 0 {
        SoFarAt(data, steps, k);
      }
    }
  }

  lemma SoFarJustified(data: seq<int>, steps: seq<Step>)
    requires BubbleSoFar(data, steps)
    ensures SwapStepsJustified(steps)
  {
    forall k | 0 <= k < |steps| && steps[k].kind == Swap
      ensures 0 < k && SwapAnswers(steps[k - 1], steps[k])
    {
      SoFarAt(data, steps, k);
    }
  }

  lemma SoFarAnswered(data: seq<int>, steps: seq<Step>)
    requires BubbleSoFar(data, steps)
    ensures OutOfOrderAnswered(steps, |steps| - 1)
  {
    forall k | 0 <= k < |steps| - 1 && PendingSwap(steps[k])
      ensures steps[k + 1].kind == Swap
    {
      SoFarAt(data, steps, k + 1);
    }
  }

  lemma SoFarMarks(data: seq<int>, steps: seq<Step>)
    requires BubbleSoFar(data, steps)
    ensures SortedMarksSettledSuffix(steps, |data|)
  {
    forall k | 0 <= k < |steps| && steps[k].kind == Sorted
      ensures MarksSettled(steps[k], |data|)
    {
      SoFarAt(data, steps, k);
    }
  }

  /** Every pass but the last is followed by another: the `sorted` marks the trace
      has already moved past were followed by `final` exactly when their pass was quiet. */
  predicate StopsSoFar(steps: seq<Step>) {
    forall k :: 0 <= k < |steps| - 1 && steps[k].kind == Sorted ==>
      (steps[k + 1].kind == Final <==> !PassSwapped(steps[..k]))
  }

  lemma SoFarStops(data: seq<int>, steps: seq<Step>)
    requires BubbleSoFar(data, steps)
    ensures StopsSoFar(steps)
  {
    forall k | 0 <= k < |steps| - 1 && steps[k].kind == Sorted
      ensures steps[k + 1].kind == Final <==> !PassSwapped(steps[..k])
    {
      SoFarAt(data, steps, k + 1);
      assert steps[..k + 1][..k] == steps[..k];
    }
  }

  /** A complete trace: it ends with the sorted `final` record. */
  lemma BubbleTraceComplete(data: seq<int>, steps: seq<Step>)
    requires BubbleSoFar(data, steps) && EndsSorted(steps, |data|) && |steps| >= 2
    ensures IsBubbleTrace(data, steps)
  {
    SoFarJustified(data, steps);
    SoFarAnswered(data, steps);
    SoFarMarks(data, steps);
    SoFarStops(data, steps);
    SoFarSnapshots(data, steps);
  }

  lemma PassSwappedAppend(steps: seq<Step>, s: Step)
    ensures PassSwapped(steps + [s]) <==>
      s.kind != Sorted && s.kind != Initial && (s.kind == Swap || PassSwapped(steps))
  {
    assert (steps + [s])[..|steps|] == steps;
  }

  /** The array facts the inner loop keeps: `s[j]` is the largest of `s[..j+1]`,
      the suffix from `top` is settled, and a pass without swaps so far left
      `s[..j+1]` ascending. */
  predicate InnerFacts(s: seq<int>, j: int, top: int, quiet: bool) {
    0 <= j < top <= |s| && SuffixSettled(s, top) &&
    (forall a :: 0 <= a <= j ==> s[a] <= s[j]) &&
    (quiet ==> forall a, b :: 0 <= a < b <= j ==> s[a] <= s[b])
  }

  /** One inner iteration: after exchanging an out-of-order pair (or not), the facts hold one further. */
  lemma InnerStep(s: seq<int>, j: int, top: int, quiet: bool)
    requires InnerFacts(s, j, top, quiet) && j + 1 < top
    ensures s[j] > s[j + 1] ==> InnerFacts(Exchanged(s, j, j + 1), j + 1, top, false)
    ensures s[j] <= s[j + 1] ==> InnerFacts(s, j + 1, top, quiet)
  {
    if s[j] > s[j + 1] {
      var t := Exchanged(s, j, j + 1);
      assert forall a :: 0 <= a <= j ==> t[a] <= s[j];
    }
  }

  /** At the end of a pass the largest unsettled element sits at `top-1`,
      settling it; a pass without swaps leaves the whole snapshot ascending. */
  lemma PassEnd(s: seq<int>, top: int, quiet: bool)
    requires InnerFacts(s, top - 1, top, quiet)
    ensures SuffixSettled(s, top - 1)
    ensures quiet ==> Ascending(s)
  {
  }

  /** No swap is owed and, after a `sorted` mark, its pass swapped: anything but
      `final` or `swap` may come next. */
  predicate Open(steps: seq<Step>) {
    |steps| > 0 && !PendingSwap(Last(steps)) &&
    (Last(steps).kind == Sorted ==> |steps| > 1 && PassSwapped(steps[..|steps| - 1]))
  }

  /** The trace so far and its current snapshot `s`. */
  predicate Building(data: seq<int>, steps: seq<Step>, s: seq<int>) {
    |steps| > 0 && BubbleSoFar(data, steps) && Last(steps).state == Some(s)
  }

  /** The newest record is, like every record, a snapshot of `data`. */
  lemma SoFarLast(data: seq<int>, steps: seq<Step>)
    requires BubbleSoFar(data, steps)
    ensures |steps| > 0 && SnapshotOf(data, Last(steps))
  {
    if |steps| > 1 {
      SoFarAt(data, steps, |steps| - 1);
    }
  }

  // Each record `bubble_sort` appends fits the trace before it.

  lemma NextComparison(data: seq<int>, prev: seq<Step>, s: seq<int>, j: int)
    requires |prev| > 0 && SnapshotOf(data, Last(prev)) && Last(prev).state == Some(s) && Open(prev)
    requires 0 <= j && j + 1 < |s|
    ensures BubbleNext(data, prev, ComparisonStep(s, j))
  {
  }

  lemma NextSwap(data: seq<int>, prev: seq<Step>, s: seq<int>, j: int)
    requires 0 <= j && j + 1 < |s| && s[j] > s[j + 1]
    requires |prev| > 0 && SnapshotOf(data, Last(prev)) && Last(prev) == ComparisonStep(s, j)
    ensures BubbleNext(data, prev, SwapStep(Exchanged(s, j, j + 1), j))
  {
    var w := SwapStep(Exchanged(s, j, j + 1), j);
    assert SnapshotOf(data, w);
    assert SwapAnswers(Last(prev), w);
  }

  lemma NextMark(data: seq<int>, prev: seq<Step>, s: seq<int>, m: int)
    requires |prev| > 0 && SnapshotOf(data, Last(prev)) && Last(prev).state == Some(s) && Open(prev)
    requires 0 <= m < |s| && SuffixSettled(s, m)
    ensures BubbleNext(data, prev, SortedSuffixStep(s, m))
  {
    RangeBelow(m, |s|);
  }

  lemma NextFinal(data: seq<int>, prev: seq<Step>, s: seq<int>)
    requires |prev| > 0 && SnapshotOf(data, Last(prev)) && Last(prev).state == Some(s) && Ascending(s)
    requires !PendingSwap(Last(prev))
    requires Last(prev).kind == Sorted ==> |prev| > 1 && !PassSwapped(prev[..|prev| - 1])
    ensures BubbleNext(data, prev, FinalStep(s))
  {
    RangeBelow(0, |s|);
  }

  lemma FitComparison(data: seq<int>, steps: seq<Step>, s: seq<int>, j: int)
    requires Building(data, steps, s) && Open(steps) && 0 <= j && j + 1 < |s|
    ensures var c := ComparisonStep(s, j);
      Building(data, steps + [c], s) && PassSwapped(steps + [c]) == PassSwapped(steps) &&
      (s[j] <= s[j + 1] ==> Open(steps + [c])) && (s[j] > s[j + 1] ==> PendingSwap(c))
  {
    SoFarLast(data, steps);
    NextComparison(data, steps, s, j);
    Extend(data, steps, ComparisonStep(s, j));
    PassSwappedAppend(steps, ComparisonStep(s, j));
  }

  lemma FitSwap(data: seq<int>, steps: seq<Step>, s: seq<int>, j: int)
    requires Building(data, steps, s) && 0 <= j && j + 1 < |s| && Last(steps) == ComparisonStep(s, j)
    requires s[j] > s[j + 1]
    ensures var w := SwapStep(Exchanged(s, j, j + 1), j);
      Building(data, steps + [w], Exchanged(s, j, j + 1)) && Open(steps + [w]) && PassSwapped(steps + [w])
  {
    SoFarLast(data, steps);
    var w := SwapStep(Exchanged(s, j, j + 1), j);
    NextSwap(data, steps, s, j);
    Extend(data, steps, w);
    PassSwappedAppend(steps, w);
  }

  lemma FitMark(data: seq<int>, steps: seq<Step>, s: seq<int>, m: int)
    requires Building(data, steps, s) && Open(steps) && 0 <= m < |s| && SuffixSettled(s, m)
    ensures var x := SortedSuffixStep(s, m);
      Building(data, steps + [x], s) && (PassSwapped(steps) ==> Open(steps + [x]))
  {
    SoFarLast(data, steps);
    var x := SortedSuffixStep(s, m);
    NextMark(data, steps, s, m);
    Extend(data, steps, x);
    assert (steps + [x])[..|steps|] == steps;
  }

  lemma FitFinal(data: seq<int>, steps: seq<Step>, s: seq<int>)
    requires Building(data, steps, s) && !PendingSwap(Last(steps)) && Ascending(s)
    requires Last(steps).kind == Sorted ==> |steps| > 1 && !PassSwapped(steps[..|steps| - 1])
    ensures IsBubbleTrace(data, steps + [FinalStep(s)])
  {
    SoFarLast(data, steps);
    NextFinal(data, steps, s);
    Extend(data, steps, FinalStep(s));
    BubbleTraceComplete(data, steps + [FinalStep(s)]);
  }

  /** What the inner loop of `bubble_sort` keeps after `j` comparisons of a pass over `s[..top]`. */
  predicate InPass(data: seq<int>, steps: seq<Step>, s: seq<int>, j: int, top: int, swapped: bool) {
    Building(data, steps, s) && Open(steps) && InnerFacts(s, j, top, !swapped) &&
    swapped == PassSwapped(steps) && (swapped ==> j > 0)
  }

  /** An inner iteration on an ordered pair logs only the comparison. */
  lemma IterationKeeps(data: seq<int>, steps: seq<Step>, s: seq<int>, j: int, top: int, swapped: bool)
    requires InPass(data, steps, s, j, top, swapped) == true && j + 1 < top && s[j] <= s[j + 1]
    ensures InPass(data, steps + [ComparisonStep(s, j)], s, j + 1, top, swapped)
  {
    InnerStep(s, j, top, !swapped);
    FitComparison(data, steps, s, j);
  }

  /** An inner iteration on an out-of-order pair logs the comparison, then the
      swap with the exchanged snapshot. */
  lemma IterationSwaps(data: seq<int>, steps: seq<Step>, s: seq<int>, j: int, top: int, swapped: bool)
    requires InPass(data, steps, s, j, top, swapped) == true && j + 1 < top && s[j] > s[j + 1]
    ensures InPass(data, steps + [ComparisonStep(s, j)] + [SwapStep(Exchanged(s, j, j + 1), j)],
                   Exchanged(s, j, j + 1), j + 1, top, true)
  {
    InnerStep(s, j, top, !swapped);
    FitComparison(data, steps, s, j);
    FitSwap(data, steps + [ComparisonStep(s, j)], s, j);
  }

  lemma PassStart(data: seq<int>, steps: seq<Step>, s: seq<int>, i: int)
    requires BeforePass(data, steps, s, i) == true && i < |s|
    ensures InPass(data, steps, s, 0, |s| - i, false) == true
  {
    assert s[..1] == [s[0]];
  }

  /** What a pass over `s[..top]` leaves: the log still builds a bubble trace,
      the swap flag tells whether the pass swapped, and `s[top - 1..]` is
      settled; after a pass without swaps the whole snapshot is ascending. */
  predicate PassDone(data: seq<int>, steps: seq<Step>, s: seq<int>, top: int, swapped: bool) {
    0 < top <= |s| && Building(data, steps, s) && Open(steps) &&
    swapped == PassSwapped(steps) && (swapped ==> top > 1) &&
    SuffixSettled(s, top - 1) && (!swapped ==> Ascending(s))
  }

  lemma PassFinish(data: seq<int>, steps: seq<Step>, s: seq<int>, top: int, swapped: bool)
    requires InPass(data, steps, s, top - 1, top, swapped) == true
    ensures PassDone(data, steps, s, top, swapped) == true
  {
    PassEnd(s, top, !swapped);
  }

  /** What the outer loop of `bubble_sort` keeps before pass `i` over the snapshot `s`. */
  predicate BeforePass(data: seq<int>, steps: seq<Step>, s: seq<int>, i: int) {
    0 <= i <= |s| && (i > 0 ==> i < |s|) && (i == 0 ==> steps == [InitialStep(data)]) &&
    Building(data, steps, s) && Open(steps) && !PassSwapped(steps) && SuffixSettled(s, |s| - i)
  }

  lemma FirstPass(data: seq<int>)
    ensures BeforePass(data, [InitialStep(data)], data, 0)
  {
  }

  /** After a pass that swapped, the `sorted` mark `m` is logged and the next pass begins. */
  lemma AfterBusyPass(data: seq<int>, steps: seq<Step>, s: seq<int>, i: int, m: int)
    requires 0 <= i < |s| - 1 && m == |s| - i - 1
    requires Building(data, steps, s) && Open(steps) && PassSwapped(steps) && SuffixSettled(s, m)
    ensures BeforePass(data, steps + [SortedSuffixStep(s, m)], s, i + 1)
  {
    FitMark(data, steps, s, m);
    assert (steps + [SortedSuffixStep(s, m)])[..|steps|] == steps;
  }

  /** After a pass without swaps, the `sorted` mark `m` and the `final` record complete the trace. */
  lemma AfterQuietPass(data: seq<int>, steps: seq<Step>, s: seq<int>, i: int, m: int)
    requires 0 <= i < |s| && m == |s| - i - 1
    requires Building(data, steps, s) && Open(steps) && !PassSwapped(steps) && SuffixSettled(s, m) && Ascending(s)
    ensures IsBubbleTrace(data, steps + [SortedSuffixStep(s, m)] + [FinalStep(s)])
  {
    var mark := SortedSuffixStep(s, m);
    FitMark(data, steps, s, m);
    assert (steps + [mark])[..|steps|] == steps;
    FitFinal(data, steps + [mark], s);
  }

  /** An empty array: the trace is the initial and the final record. */
  lemma NoPass(data: seq<int>, steps: seq<Step>, s: seq<int>)
    requires BeforePass(data, steps, s, |s|) == true
    ensures IsBubbleTrace(data, steps + [FinalStep(s)])
  {
    FitFinal(data, steps, s);
  }

  /** The `sorted` mark after pass `i`, followed by `final` when the pass did not swap. */
  lemma AfterPass(data: seq<int>, steps: seq<Step>, s: seq<int>, i: int, m: int, swapped: bool)
    requires 0 <= i < |s| && m == |s| - i - 1
    requires PassDone(data, steps, s, |s| - i, swapped) == true
    ensures !swapped ==> IsBubbleTrace(data, steps + [SortedSuffixStep(s, m)] + [FinalStep(s)])
    ensures swapped ==> BeforePass(data, steps + [SortedSuffixStep(s, m)], s, i + 1)
  {
    if !swapped {
      AfterQuietPass(data, steps, s, i, m);
    } else {
      AfterBusyPass(data, steps, s, i, m);
    }
  }

  // ---------------------------------------------------------------------------
  // The comparison schedule of a bubble sort without early exit

  /** The neighbour pairs `[j, j + 1]` for `j` from `j` up to `top - 2`: the
      comparisons of one pass over `s[..top]` from position `j` on. */
  function PairsFrom(j: int, top: int): (r: seq<seq<int>>)
    ensures |r| == if j + 1 < top then top - 1 - j else 0
    ensures forall k :: 0 <= k < |r| ==> r[k] == [j + k, j + k + 1]
    decreases top - j
  {
    if j + 1 >= top then [] else [[j, j + 1]] + PairsFrom(j + 1, top)
  }

  /** The comparisons of every pass of a bubble sort over `top` elements that
      never stops early: passes over `s[..top]`, `s[..top - 1]`, …, `s[..2]`. */
  function FullSchedule(top: int): seq<seq<int>>
    decreases top
  {
    if top <= 1 then [] else PairsFrom(0, top) + FullSchedule(top - 1)
  }

  /** Such a sort of `n` elements makes `n (n - 1) / 2` comparisons. */
  lemma {:induction false} FullScheduleLength(n: int)
    ensures |FullSchedule(n)| == if n <= 1 then 0 else n * (n - 1) / 2
    decreases n
  {
    if n > 1 {
      FullScheduleLength(n - 1);
    }
  }
}

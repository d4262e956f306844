/** `selection_sort` of the backend: for each position `i` the minimum of the
    unsorted rest is searched for, logged, and exchanged into place. */
module SelectionSort {
  import opened Wrappers
  import opened StepModel
  import opened Text

  // ---------------------------------------------------------------------------
  // The records `selection_sort` appends

  function MinSelectedStep(s: seq<int>, i: int): Step
    requires 0 <= i < |s|
  {
    Blank(MinSelected, "Assuming " + Show(s[i]) + " at index " + Show(i) + " is the minimum")
      .(state := Some(s), minIdx := Some(i))
  }

  /** The comparison of `s[j]` with the minimum so far, `s[m]`. */
  function ScanStep(s: seq<int>, j: int, m: int): Step
    requires 0 <= j < |s| && 0 <= m < |s|
  {
    Blank(Comparison, "Comparing " + Show(s[j]) + " with current minimum " + Show(s[m]))
      .(state := Some(s), comparing := Some([j, m]))
  }

  function NewMinStep(s: seq<int>, m: int): Step
    requires 0 <= m < |s|
  {
    Blank(NewMin, "New minimum " + Show(s[m]) + " found at index " + Show(m))
      .(state := Some(s), minIdx := Some(m))
  }

  function BeforeSwapStep(s: seq<int>, i: int, m: int): Step
    requires 0 <= i < |s| && 0 <= m < |s|
  {
    Blank(BeforeSwap, "Swapping " + Show(s[i]) + " with " + Show(s[m]))
      .(state := Some(s), swapping := Some([i, m]))
  }

  /** The record after the exchange; `t` is the exchanged snapshot. */
  function AfterSwapStep(t: seq<int>, i: int, m: int): Step
    requires 0 <= i < |t| && 0 <= m < |t|
  {
    Blank(AfterSwap, "Swapped " + Show(t[i]) + " with " + Show(t[m]))
      .(state := Some(t), swapped := Some([i, m]))
  }

  /** The `sorted` record after pass `i`: the prefix `range(i + 1)`. */
  function PrefixSortedStep(s: seq<int>, i: int): Step
    requires 0 <= i < |s|
  {
    Blank(Sorted, "Element " + Show(s[i]) + " is now in its sorted position")
      .(state := Some(s), sortedIndices := Some(Range(0, i + 1)))
  }

  // ---------------------------------------------------------------------------
  // What `selection_sort` promises of its trace

  /** No element of `s[..c]` exceeds any later element: the prefix is
      ascending and holds the `c` smallest values. */
  predicate PrefixSettled(s: seq<int>, c: int) {
    0 <= c <= |s| && forall a, b :: 0 <= a < b < |s| && a < c ==> s[a] <= s[b]
  }

  /** `s[m]` is a minimum of `s[i..]`. */
  predicate MinOf(s: seq<int>, i: int, m: int) {
    0 <= i <= m < |s| && forall x :: i <= x < |s| ==> s[m] <= s[x]
  }

  /** The conditions on a single record, given that it is a snapshot. */
  predicate SelectionRecord(x: Step)
    requires x.state.Some?
  {
    (x.kind == Comparison ==>
      x.comparing.Some? && |x.comparing.value| == 2 && x.comparing.value[1] < x.comparing.value[0]) &&
    (x.kind == MinSelected || x.kind == NewMin ==> x.minIdx.Some?) &&
    (x.kind == BeforeSwap ==>
      x.swapping.Some? && |x.swapping.value| == 2 && x.swapping.value[0] < x.swapping.value[1] &&
      MinOf(x.state.value, x.swapping.value[0], x.swapping.value[1])) &&
    (x.kind == Sorted ==>
      x.sortedIndices.Some? && 1 <= |x.sortedIndices.value| &&
      x.sortedIndices.value == Range(0, |x.sortedIndices.value|) &&
      PrefixSettled(x.state.value, |x.sortedIndices.value|))
  }

  /** `y` is the `after_swap` record answering the `before_swap` record `x`. */
  predicate SwapFollows(x: Step, y: Step)
    requires x.state.Some? && x.swapping.Some? && |x.swapping.value| == 2
    requires 0 <= x.swapping.value[0] < |x.state.value| && 0 <= x.swapping.value[1] < |x.state.value|
  {
    y.kind == AfterSwap && y.swapped == x.swapping &&
    y.state == Some(Exchanged(x.state.value, x.swapping.value[0], x.swapping.value[1]))
  }

  /** Every record is a snapshot of `data` meeting the conditions of its kind,
      every `before_swap` is answered by its `after_swap`, and every
      `after_swap` answers a `before_swap`. */
  predicate SelectionSoFar(data: seq<int>, steps: seq<Step>) {
    |steps| > 0 && steps[0] == InitialStep(data) && SnapshotsOf(data, steps) &&
    (forall k :: 0 <= k < |steps| ==> SelectionRecord(steps[k])) &&
    (forall k :: 0 <= k < |steps| && steps[k].kind == BeforeSwap ==>
      k + 1 < |steps| && SwapFollows(steps[k], steps[k + 1])) &&
    (forall k :: 0 <= k < |steps| && steps[k].kind == AfterSwap ==>
      0 < k && steps[k - 1].kind == BeforeSwap)
  }

  /** Everything `selection_sort` promises about its trace of `data`. */
  predicate IsSelectionTrace(data: seq<int>, steps: seq<Step>) {
    |steps| >= 2 && SelectionSoFar(data, steps) && EndsSorted(steps, |data|)
  }

  // ---------------------------------------------------------------------------
  // The trace as a function of the input

  /** The index of the minimum the scan from index `j` on ends with, `s[m]`
      being the minimum so far. */
  function ScanEnd(s: seq<int>, m: int, j: int): (r: int)
    requires 0 <= m < |s| && 0 <= j
    ensures 0 <= r < |s|
    decreases |s| - j
  {
    if j >= |s| then m
    else if s[j] < s[m] then ScanEnd(s, j, j + 1)
    else ScanEnd(s, m, j + 1)
  }

  /** The records of the scan from index `j` on, `s[m]` being the minimum so far. */
  function ScanRecords(s: seq<int>, m: int, j: int): seq<Step>
    requires 0 <= m < |s| && 0 <= j
    decreases |s| - j
  {
    if j >= |s| then []
    else if s[j] < s[m] then [ScanStep(s, j, m), NewMinStep(s, j)] + ScanRecords(s, j, j + 1)
    else [ScanStep(s, j, m)] + ScanRecords(s, m, j + 1)
  }

  /** The records pass `i` over `s` opens with: `min_selected`, then the scan. */
  function Opening(s: seq<int>, i: int): seq<Step>
    requires 0 <= i < |s|
  {
    [MinSelectedStep(s, i)] + ScanRecords(s, i, i + 1)
  }

  /** The records pass `i` closes with, `m` being the minimum found: the two
      swap records when `m` is not `i`, then the `sorted` record. */
  function Closing(s: seq<int>, i: int, m: int): seq<Step>
    requires 0 <= i < |s| && 0 <= m < |s|
  {
    if m != i then
      var t := Exchanged(s, i, m);
      [BeforeSwapStep(s, i, m), AfterSwapStep(t, i, m), PrefixSortedStep(t, i)]
    else
      [PrefixSortedStep(s, i)]
  }

  /** The array after pass `i`: the minimum of `s[i..]` exchanged into place. */
  function AfterPass(s: seq<int>, i: int): (r: seq<int>)
    requires 0 <= i < |s|
    ensures |r| == |s|
  {
    Exchanged(s, i, ScanEnd(s, i, i + 1))
  }

  /** The records of passes `i, i + 1, …` over `s`, then the `final` record. */
  function Passes(s: seq<int>, i: int): seq<Step>
    requires 0 <= i
    decreases |s| - i
  {
    if i >= |s| then [FinalStep(s)]
    else Opening(s, i) + Closing(s, i, ScanEnd(s, i, i + 1)) + Passes(AfterPass(s, i), i + 1)
  }

  /** The log `selection_sort(data)` returns. */
  function SelectionSortTrace(data: seq<int>): seq<Step> {
    [InitialStep(data)] + Passes(data, 0)
  }

  /** `s[m]` is the leftmost minimum of `s[i..j]`: no element of that slice is
      smaller and every element before `m` is larger. */
  predicate LeftmostMin(s: seq<int>, i: int, m: int, j: int) {
    0 <= i <= m < j <= |s| &&
    (forall x :: i <= x < j ==> s[m] <= s[x]) &&
    (forall x :: i <= x < m ==> s[m] < s[x])
  }

  /** The scan from `j` on, started with the leftmost minimum `m` of
      `s[i..j]`, ends with the leftmost minimum of `s[i..]`. */
  lemma {:induction false} ScanMinimum(s: seq<int>, i: int, m: int, j: int)
    requires LeftmostMin(s, i, m, j)
    ensures LeftmostMin(s, i, ScanEnd(s, m, j), |s|)
    decreases |s| - j
  {
    if j < |s| {
      ScanMinimum(s, i, if s[j] < s[m] then j else m, j + 1);
    }
  }

  /** The records of index `j`: one comparison of `j` with `m`, no mark. */
  lemma ScanHead(s: seq<int>, m: int, j: int)
    requires 0 <= m < |s| && 0 <= j < |s|
    ensures var c := ScanStep(s, j, m);
      ComparedPairs([c]) == [[j, m]] && SortedMarks([c]) == [] &&
      ComparedPairs([c, NewMinStep(s, j)]) == [[j, m]] && SortedMarks([c, NewMinStep(s, j)]) == []
  {
    var c := ScanStep(s, j, m);
    assert [c, NewMinStep(s, j)] == [c] + [NewMinStep(s, j)];
    PlainHead(NewMinStep(s, j), []);
    ComparedAppend([c], [NewMinStep(s, j)]);
    MarksAppend([c], [NewMinStep(s, j)]);
  }

  /** `pair` is the comparison of index `j` with the leftmost minimum of `s[i..j]`. */
  predicate ScanPair(s: seq<int>, i: int, pair: seq<int>, j: int) {
    |pair| == 2 && pair[0] == j && LeftmostMin(s, i, pair[1], j)
  }

  /** The comparisons of a scan from `j`: the pair `[j, m]` before those from `j + 1`. */
  lemma ComparisonsStep(s: seq<int>, i: int, m: int, j: int, all: seq<seq<int>>, later: seq<seq<int>>)
    requires LeftmostMin(s, i, m, j) && all == [[j, m]] + later
    requires forall k :: 0 <= k < |later| ==> ScanPair(s, i, later[k], j + 1 + k)
    ensures forall k :: 0 <= k < |all| ==> ScanPair(s, i, all[k], j + k)
  {
    forall k | 0 <= k < |all|
      ensures ScanPair(s, i, all[k], j + k)
    {
      if k > 0 {
        assert all[k] == later[k - 1];
      }
    }
  }

  /** The scan from `j` on, started with the leftmost minimum `m` of
      `s[i..j]`, compares every index from `j` to the end, in order, each
      against the leftmost minimum of the part scanned before it. */
  lemma {:induction false} ScanComparisons(s: seq<int>, i: int, m: int, j: int)
    requires LeftmostMin(s, i, m, j)
    ensures |ComparedPairs(ScanRecords(s, m, j))| == |s| - j
    ensures forall k :: 0 <= k < |ComparedPairs(ScanRecords(s, m, j))| ==>
      ScanPair(s, i, ComparedPairs(ScanRecords(s, m, j))[k], j + k)
    decreases |s| - j
  {
    if j < |s| {
      var c := ScanStep(s, j, m);
      var m', head;
      if s[j] < s[m] {
        m', head := j, [c, NewMinStep(s, j)];
      } else {
        m', head := m, [c];
      }
      var rest := ScanRecords(s, m', j + 1);
      assert ScanRecords(s, m, j) == head + rest;
      ScanComparisons(s, i, m', j + 1);
      ComparedAppend(head, rest);
      ScanHead(s, m, j);
      ComparisonsStep(s, i, m, j, ComparedPairs(ScanRecords(s, m, j)), ComparedPairs(rest));
    }
  }

  /** Every `new_min` record of the scan names the leftmost minimum of the
      part scanned up to it. */
  lemma {:induction false} ScanNewMinimums(s: seq<int>, i: int, m: int, j: int)
    requires LeftmostMin(s, i, m, j)
    ensures forall x :: x in ScanRecords(s, m, j) && x.kind == NewMin ==>
      x.minIdx.Some? && LeftmostMin(s, i, x.minIdx.value, x.minIdx.value + 1)
    decreases |s| - j
  {
    if j < |s| {
      var c := ScanStep(s, j, m);
      var m', head;
      if s[j] < s[m] {
        m', head := j, [c, NewMinStep(s, j)];
      } else {
        m', head := m, [c];
      }
      var rest := ScanRecords(s, m', j + 1);
      assert ScanRecords(s, m, j) == head + rest;
      ScanNewMinimums(s, i, m', j + 1);
      forall x: Step | x in head + rest && x.kind == NewMin
        ensures x.minIdx.Some? && LeftmostMin(s, i, x.minIdx.value, x.minIdx.value + 1)
      {
        if x !in rest {
          assert x == NewMinStep(s, j);
        }
      }
    }
  }

  /** The scan marks nothing sorted. */
  lemma {:induction false} ScanUnmarked(s: seq<int>, m: int, j: int)
    requires 0 <= m < |s| && 0 <= j
    ensures SortedMarks(ScanRecords(s, m, j)) == []
    decreases |s| - j
  {
    if j < |s| {
      var c := ScanStep(s, j, m);
      ScanHead(s, m, j);
      if s[j] < s[m] {
        var rest := ScanRecords(s, j, j + 1);
        assert ScanRecords(s, m, j) == [c, NewMinStep(s, j)] + rest;
        ScanUnmarked(s, j, j + 1);
        MarksAppend([c, NewMinStep(s, j)], rest);
      } else {
        var rest := ScanRecords(s, m, j + 1);
        assert ScanRecords(s, m, j) == [c] + rest;
        ScanUnmarked(s, m, j + 1);
        MarksAppend([c], rest);
      }
    }
  }

  /** The `sorted` marks of passes `i, …, n - 1`: `range(k + 1)` after pass `k`. */
  function PrefixMarks(i: int, n: int): (r: seq<seq<int>>)
    requires 0 <= i
    ensures |r| == if i < n then n - i else 0
    ensures forall k :: 0 <= k < |r| ==> r[k] == Range(0, i + k + 1)
    decreases n - i
  {
    if i >= n then [] else [Range(0, i + 1)] + PrefixMarks(i + 1, n)
  }

  /** Pass `i` marks exactly the prefix `range(i + 1)` sorted. */
  lemma ClosingMarks(s: seq<int>, i: int, m: int)
    requires 0 <= i < |s| && 0 <= m < |s|
    ensures SortedMarks(Closing(s, i, m)) == [Range(0, i + 1)]
  {
    if m != i {
      var t := Exchanged(s, i, m);
      MarksOfLast(BeforeSwapStep(s, i, m), AfterSwapStep(t, i, m), PrefixSortedStep(t, i));
    } else {
      assert [PrefixSortedStep(s, i)][1..] == [];
    }
  }

  /** The opening of a pass marks nothing sorted. */
  lemma OpeningUnmarked(s: seq<int>, i: int)
    requires 0 <= i < |s|
    ensures SortedMarks(Opening(s, i)) == []
  {
    ScanUnmarked(s, i, i + 1);
    PlainHead(MinSelectedStep(s, i), ScanRecords(s, i, i + 1));
  }

  /** Gluing the marks of one pass to the marks of the passes after it. */
  lemma MarksGlue(whole: seq<Step>, o: seq<Step>, c: seq<Step>, rest: seq<Step>, i: nat, n: int)
    requires i < n && whole == o + c + rest
    requires SortedMarks(o) == [] && SortedMarks(c) == [Range(0, i + 1)]
    requires SortedMarks(rest) == PrefixMarks(i + 1, n)
    ensures SortedMarks(whole) == PrefixMarks(i, n)
  {
    MarksOfThree(o, c, rest);
    assert [] + [Range(0, i + 1)] + PrefixMarks(i + 1, n) == PrefixMarks(i, n);
  }

  /** Passes `i, …, n - 1` mark the prefixes `range(i + 1), …, range(n)` in turn. */
  lemma {:induction false} PassesMarks(s: seq<int>, i: int)
    requires 0 <= i
    ensures SortedMarks(Passes(s, i)) == PrefixMarks(i, |s|)
    decreases |s| - i
  {
    if i < |s| {
      var m := ScanEnd(s, i, i + 1);
      OpeningUnmarked(s, i);
      ClosingMarks(s, i, m);
      PassesMarks(AfterPass(s, i), i + 1);
      MarksGlue(Passes(s, i), Opening(s, i), Closing(s, i, m), Passes(AfterPass(s, i), i + 1), i, |s|);
    } else {
      assert [FinalStep(s)][1..] == [];
    }
  }


  /** The trace of `n` values makes `n` `sorted` marks, the `k`-th being the
      prefix `range(k + 1)`: one per outer iteration, no early exit. */
  lemma SelectionMarks(data: seq<int>)
    ensures SortedMarks(SelectionSortTrace(data)) == PrefixMarks(0, |data|)
  {
    PassesMarks(data, 0);
    PlainHead(InitialStep(data), Passes(data, 0));
  }

  // ---------------------------------------------------------------------------
  // Building the trace record by record

  /** A record other than a swap keeps the trace well formed. */
  lemma AppendRecord(data: seq<int>, steps: seq<Step>, x: Step)
    requires SelectionSoFar(data, steps) && SnapshotOf(data, x) && SelectionRecord(x)
    requires x.kind != BeforeSwap && x.kind != AfterSwap
    ensures SelectionSoFar(data, steps + [x])
  {
    var t := steps + [x];
    assert forall k :: 0 <= k < |steps| ==> t[k] == steps[k];
  }

  /** A `before_swap` record together with its `after_swap` keeps the trace well formed. */
  lemma AppendSwap(data: seq<int>, steps: seq<Step>, x: Step, y: Step)
    requires SelectionSoFar(data, steps) && SnapshotOf(data, x) && SnapshotOf(data, y)
    requires SelectionRecord(x) && SelectionRecord(y)
    requires x.kind == BeforeSwap && SwapFollows(x, y)
    ensures SelectionSoFar(data, steps + [x] + [y])
  {
    var t := steps + [x] + [y];
    assert forall k :: 0 <= k < |steps| ==> t[k] == steps[k];
    assert t[|steps|] == x && t[|steps| + 1] == y;
  }

  /** What the outer loop keeps before pass `i` over the array `s`. */
  predicate BeforeSelection(data: seq<int>, steps: seq<Step>, s: seq<int>, i: int) {
    SelectionSoFar(data, steps) && Last(steps).state == Some(s) &&
    |s| == |data| && multiset(s) == multiset(data) && 0 <= i <= |s| && PrefixSettled(s, i)
  }

  /** What the inner loop keeps: `s[m]` is a minimum of `s[i..j]`. */
  predicate Scanning(data: seq<int>, steps: seq<Step>, s: seq<int>, i: int, m: int, j: int) {
    SelectionSoFar(data, steps) && Last(steps).state == Some(s) &&
    |s| == |data| && multiset(s) == multiset(data) && PrefixSettled(s, i) &&
    0 <= i <= m < j <= |s| && forall x :: i <= x < j ==> s[m] <= s[x]
  }

  lemma FirstSelection(data: seq<int>)
    ensures BeforeSelection(data, [InitialStep(data)], data, 0)
  {
  }

  lemma ScanStart(data: seq<int>, steps: seq<Step>, s: seq<int>, i: int)
    requires BeforeSelection(data, steps, s, i) == true && i < |s|
    ensures Scanning(data, steps + [MinSelectedStep(s, i)], s, i, i, i + 1) == true
  {
    AppendRecord(data, steps, MinSelectedStep(s, i));
  }

  /** An inner iteration where `s[j]` is not smaller: only the comparison is logged. */
  lemma ScanKeeps(data: seq<int>, steps: seq<Step>, s: seq<int>, i: int, m: int, j: int)
    requires Scanning(data, steps, s, i, m, j) == true && j < |s| && s[j] >= s[m]
    ensures Scanning(data, steps + [ScanStep(s, j, m)], s, i, m, j + 1) == true
  {
    AppendRecord(data, steps, ScanStep(s, j, m));
  }

  /** An inner iteration where `s[j]` is smaller: the comparison, then the `new_min` record. */
  lemma ScanFindsSmaller(data: seq<int>, steps: seq<Step>, s: seq<int>, i: int, m: int, j: int)
    requires Scanning(data, steps, s, i, m, j) == true && j < |s| && s[j] < s[m]
    ensures Scanning(data, steps + [ScanStep(s, j, m)] + [NewMinStep(s, j)], s, i, j, j + 1) == true
  {
    var c := ScanStep(s, j, m);
    AppendRecord(data, steps, c);
    AppendRecord(data, steps + [c], NewMinStep(s, j));
  }

  /** Exchanging the minimum of `s[i..]` into position `i` grows the settled prefix. */
  lemma MinimumIntoPlace(s: seq<int>, i: int, m: int)
    requires PrefixSettled(s, i) && MinOf(s, i, m)
    ensures PrefixSettled(Exchanged(s, i, m), i + 1)
    ensures multiset(Exchanged(s, i, m)) == multiset(s)
  {
    ExchangedFacts(s, i, m);
  }

  /** The `sorted` record for a settled prefix `s[..i + 1]` is well formed. */
  lemma SortedRecordFits(data: seq<int>, s: seq<int>, i: int)
    requires 0 <= i < |s| && |s| == |data| && multiset(s) == multiset(data)
    requires PrefixSettled(s, i + 1)
    ensures SnapshotOf(data, PrefixSortedStep(s, i)) && SelectionRecord(PrefixSortedStep(s, i))
  {
  }

  /** `s[i]` being a minimum of `s[i..]` grows the settled prefix by one. */
  lemma PrefixGrows(s: seq<int>, i: int)
    requires PrefixSettled(s, i) && 0 <= i < |s| && forall x :: i <= x < |s| ==> s[i] <= s[x]
    ensures PrefixSettled(s, i + 1)
  {
  }

  /** The end of pass `i` when the minimum sits at `m != i`: the `before_swap`
      and `after_swap` records around the exchange, then the `sorted` record
      for the grown prefix. */
  lemma SwapIntoPlace(data: seq<int>, prev: seq<Step>, steps: seq<Step>, s: seq<int>, i: int, m: int, t: seq<int>)
    requires BeforeSelection(data, prev, s, i) == true && i < |s|
    requires steps == prev + Opening(s, i) && m == ScanEnd(s, i, i + 1)
    requires m != i && t == Exchanged(s, i, m)
    ensures BeforeSelection(data, steps + [BeforeSwapStep(s, i, m)] + [AfterSwapStep(t, i, m)] + [PrefixSortedStep(t, i)], t, i + 1) == true
  {
    OpeningShape(data, prev, steps, s, i, m);
    MinimumIntoPlace(s, i, m);
    var x, y := BeforeSwapStep(s, i, m), AfterSwapStep(t, i, m);
    AppendSwap(data, steps, x, y);
    SortedRecordFits(data, t, i);
    AppendRecord(data, steps + [x] + [y], PrefixSortedStep(t, i));
  }

  /** Pass `i` that finds the minimum already at `i` only marks the prefix. */
  lemma KeepInPlace(data: seq<int>, prev: seq<Step>, steps: seq<Step>, s: seq<int>, i: int)
    requires BeforeSelection(data, prev, s, i) == true && i < |s|
    requires steps == prev + Opening(s, i) && i == ScanEnd(s, i, i + 1)
    ensures BeforeSelection(data, steps + [PrefixSortedStep(s, i)], s, i + 1) == true
  {
    OpeningShape(data, prev, steps, s, i, i);
    PrefixGrows(s, i);
    SortedRecordFits(data, s, i);
    AppendRecord(data, steps, PrefixSortedStep(s, i));
  }

  lemma SelectionEnd(data: seq<int>, steps: seq<Step>, s: seq<int>)
    requires BeforeSelection(data, steps, s, |s|) == true
    ensures IsSelectionTrace(data, steps + [FinalStep(s)])
  {
    AppendRecord(data, steps, FinalStep(s));
  }

  /** What the scan from `j` on still appends: `steps` followed by those
      records is `target`, and the scan ends with the minimum `last`. */
  predicate ScanRemains(steps: seq<Step>, s: seq<int>, m: int, j: int, target: seq<Step>, last: int) {
    0 <= m < |s| && 0 <= j && steps + ScanRecords(s, m, j) == target && ScanEnd(s, m, j) == last
  }

  lemma ScanBegins(steps0: seq<Step>, s: seq<int>, i: int)
    requires 0 <= i < |s|
    ensures ScanRemains(steps0 + [MinSelectedStep(s, i)], s, i, i + 1, steps0 + Opening(s, i), ScanEnd(s, i, i + 1)) == true
  {
    assert steps0 + [MinSelectedStep(s, i)] + ScanRecords(s, i, i + 1) == steps0 + ([MinSelectedStep(s, i)] + ScanRecords(s, i, i + 1));
  }

  /** At the end of the array the scan has nothing left to log. */
  lemma ScanDone(steps: seq<Step>, s: seq<int>, m: int, target: seq<Step>, last: int)
    requires ScanRemains(steps, s, m, |s|, target, last) == true
    ensures steps == target && m == last
  {
    assert steps + [] == steps;
  }

  /** One step of the scan that finds a smaller value at `j`. */
  lemma ScanAdvanceSmaller(steps: seq<Step>, next: seq<Step>, s: seq<int>, m: int, j: int, target: seq<Step>, last: int)
    requires ScanRemains(steps, s, m, j, target, last) == true && j < |s| && s[j] < s[m]
    requires next == steps + [ScanStep(s, j, m)] + [NewMinStep(s, j)]
    ensures ScanRemains(next, s, j, j + 1, target, last) == true
  {
    AppendTwo(steps, ScanStep(s, j, m), NewMinStep(s, j), ScanRecords(s, j, j + 1));
  }

  /** One step of the scan that keeps the minimum `m`. */
  lemma ScanAdvanceKeep(steps: seq<Step>, next: seq<Step>, s: seq<int>, m: int, j: int, target: seq<Step>, last: int)
    requires ScanRemains(steps, s, m, j, target, last) == true && j < |s| && s[j] >= s[m]
    requires next == steps + [ScanStep(s, j, m)]
    ensures ScanRemains(next, s, m, j + 1, target, last) == true
  {
    AppendOne(steps, ScanStep(s, j, m), ScanRecords(s, m, j + 1));
  }

  /** Logging the rest of the scan keeps the trace well formed and ends with
      the minimum the scan finds. */
  lemma {:induction false} ScanShape(data: seq<int>, steps: seq<Step>, s: seq<int>, i: int, m: int, j: int, whole: seq<Step>, e: int)
    requires Scanning(data, steps, s, i, m, j) == true
    requires whole == steps + ScanRecords(s, m, j) && e == ScanEnd(s, m, j)
    ensures Scanning(data, whole, s, i, e, |s|) == true
    decreases |s| - j
  {
    if j < |s| {
      var c := ScanStep(s, j, m);
      if s[j] < s[m] {
        var next := steps + [c] + [NewMinStep(s, j)];
        assert whole == next + ScanRecords(s, j, j + 1) by {
          AppendTwo(steps, c, NewMinStep(s, j), ScanRecords(s, j, j + 1));
        }
        assert Scanning(data, next, s, i, j, j + 1) == true by {
          ScanFindsSmaller(data, steps, s, i, m, j);
        }
        ScanShape(data, next, s, i, j, j + 1, whole, e);
      } else {
        var next := steps + [c];
        assert whole == next + ScanRecords(s, m, j + 1) by {
          AppendOne(steps, c, ScanRecords(s, m, j + 1));
        }
        assert Scanning(data, next, s, i, m, j + 1) == true by {
          ScanKeeps(data, steps, s, i, m, j);
        }
        ScanShape(data, next, s, i, m, j + 1, whole, e);
      }
    } else {
      assert whole == steps by {
        assert steps + [] == steps;
      }
    }
  }

  /** The records of pass `i` up to the swap keep the trace well formed. */
  lemma OpeningShape(data: seq<int>, prev: seq<Step>, steps: seq<Step>, s: seq<int>, i: int, m: int)
    requires BeforeSelection(data, prev, s, i) == true && i < |s|
    requires steps == prev + Opening(s, i) && m == ScanEnd(s, i, i + 1)
    ensures Scanning(data, steps, s, i, m, |s|) == true
  {
    var first := prev + [MinSelectedStep(s, i)];
    AppendOne(prev, MinSelectedStep(s, i), ScanRecords(s, i, i + 1));
    ScanStart(data, prev, s, i);
    ScanShape(data, first, s, i, i, i + 1, steps, m);
  }

  /** The inner loop of pass `i`: the index of the leftmost minimum of
      `arr[i..]`, found by scanning left to right and logging each comparison
      and new minimum after the `min_selected` record. */
  method ScanForMinimum(arr: array<int>, i: int, steps0: seq<Step>) returns (m: int, steps: seq<Step>)
    requires 0 <= i < arr.Length
    ensures LeftmostMin(arr[..], i, m, arr.Length)
    ensures m == ScanEnd(arr[..], i, i + 1)
    ensures steps == steps0 + Opening(arr[..], i)
  {
    var s := arr[..];  // the snapshot every record of this pass carries
    ghost var target := steps0 + Opening(s, i);
    ghost var last := ScanEnd(s, i, i + 1);
    ScanBegins(steps0, s, i);
    ScanMinimum(s, i, i, i + 1);
    m := i;
    steps := steps0 + [MinSelectedStep(arr[..], i)];
    for j := i + 1 to arr.Length
      invariant ScanRemains(steps, s, m, j, target, last) == true
    {
      ghost var prev := steps;
      if s[j] < s[m] {
        steps := steps + [ScanStep(s, j, m)] + [NewMinStep(s, j)];
        ScanAdvanceSmaller(prev, steps, s, m, j, target, last);
        m := j;
      } else {
        steps := steps + [ScanStep(s, j, m)];
        ScanAdvanceKeep(prev, steps, s, m, j, target, last);
      }
    }
    ScanDone(steps, s, m, target, last);
  }

  /** What passes `i, …` still append: `steps` followed by them is `target`. */
  predicate PassesRemain(steps: seq<Step>, s: seq<int>, i: int, target: seq<Step>) {
    0 <= i && steps + Passes(s, i) == target
  }

  /** Pass `i` when the minimum `m` is not at `i`: the `min_selected` record,
      the scan, the two swap records, then the `sorted` record. */
  lemma PassSwaps(prev: seq<Step>, s: seq<int>, i: int, target: seq<Step>, steps: seq<Step>, m: int)
    requires PassesRemain(prev, s, i, target) == true && i < |s|
    requires m == ScanEnd(s, i, i + 1) && m != i
    requires steps == prev + Opening(s, i)
    ensures var t := Exchanged(s, i, m);
      PassesRemain(steps + [BeforeSwapStep(s, i, m)] + [AfterSwapStep(t, i, m)] + [PrefixSortedStep(t, i)], t, i + 1, target) == true
  {
    var t := Exchanged(s, i, m);
    Regroup(prev, Opening(s, i), Closing(s, i, m), Passes(t, i + 1));
    AppendThree(steps, BeforeSwapStep(s, i, m), AfterSwapStep(t, i, m), PrefixSortedStep(t, i));
  }

  /** Pass `i` when `s[i]` is already the minimum: the `min_selected` record,
      the scan, then the `sorted` record. */
  lemma PassKeeps(prev: seq<Step>, s: seq<int>, i: int, target: seq<Step>, steps: seq<Step>)
    requires PassesRemain(prev, s, i, target) == true && i < |s|
    requires ScanEnd(s, i, i + 1) == i
    requires steps == prev + Opening(s, i)
    ensures PassesRemain(steps + [PrefixSortedStep(s, i)], s, i + 1, target) == true
  {
    ExchangedFacts(s, i, i);
    assert AfterPass(s, i) == s;
    Regroup(prev, Opening(s, i), Closing(s, i, i), Passes(s, i + 1));
  }

  /** `selection_sort(data)`: the input is copied and never changed; the log
      is the selection trace of it, record for record. */
  method SelectionSortSteps(data: seq<int>) returns (steps: seq<Step>)
    ensures steps == SelectionSortTrace(data)
    ensures IsSelectionTrace(data, steps)
  {
    var n := |data|;
    var arr := new int[n](k requires 0 <= k < n => data[k]);
    assert arr[..] == data;
    steps := [InitialStep(arr[..])];
    FirstSelection(data);
    for i := 0 to n
      invariant BeforeSelection(data, steps, arr[..], i) == true
      invariant PassesRemain(steps, arr[..], i, SelectionSortTrace(data)) == true
    {
      ghost var s, prev := arr[..], steps;
      var m;
      m, steps := ScanForMinimum(arr, i, steps);
      if m != i {
        PassSwaps(prev, s, i, SelectionSortTrace(data), steps, m);
        SwapIntoPlace(data, prev, steps, s, i, m, Exchanged(s, i, m));
        steps := steps + [BeforeSwapStep(arr[..], i, m)];
        arr[i], arr[m] := arr[m], arr[i];
        steps := steps + [AfterSwapStep(arr[..], i, m)];
      } else {
        PassKeeps(prev, s, i, SelectionSortTrace(data), steps);
        KeepInPlace(data, prev, steps, s, i);
      }
      steps := steps + [PrefixSortedStep(arr[..], i)];
    }
    SelectionEnd(data, steps, arr[..]);
    steps := steps + [FinalStep(arr[..])];
  }
}

/** The demo traces the two enhanced players fall back on when the backend
    cannot be reached: a bubble sort without early exit, written twice.
    `EnhancedVisualizationPlayer` sorts its argument in place; the
    `EnhancedVisualizationPlayerComponent` copy sorts a copy and logs a
    `sorted` mark after every pass. */
module FallbackTraces {
  import opened Wrappers
  import opened StepModel
  import opened Text
  import opened BubbleTrace

  // ---------------------------------------------------------------------------
  // The records

  function FakeComparison(s: seq<int>, j: int): Step
    requires 0 <= j && j + 1 < |s|
  {
    Blank(Comparison, "Comparing elements at positions " + Show(j) + " and " + Show(j + 1))
      .(state := Some(s), comparing := Some([j, j + 1]))
  }

  /** The swap record, carrying the snapshot taken after the exchange. */
  function FakeSwap(t: seq<int>, j: int): Step
    requires 0 <= j && j + 1 < |t|
  {
    Blank(Swap, "Swapping elements at positions " + Show(j) + " and " + Show(j + 1))
      .(state := Some(t), swapped := Some([j, j + 1]))
  }

  /** The last `c` indices of an array of length `n`, from the end backwards:
      the indices `n - 1` down to `n - c`. */
  function Tail(n: int, c: nat): (r: seq<int>)
    ensures |r| == c && forall idx :: 0 <= idx < c ==> r[idx] == n - idx - 1
  {
    seq(c, idx requires 0 <= idx < c => n - idx - 1)
  }

  lemma TailMembership(n: int, c: nat, x: int)
    ensures x in Tail(n, c) <==> n - c <= x < n
  {
    if n - c <= x < n {
      assert Tail(n, c)[n - x - 1] == x;
    }
  }

  /** The `sorted` record logged after pass `i`: the last `i + 1` indices. */
  function PassMark(s: seq<int>, i: int): Step
    requires 0 <= i < |s|
  {
    Blank(Sorted, "Element at position " + Show(|s| - i - 1) + " is now in its final position")
      .(state := Some(s), sortedIndices := Some(Tail(|s|, i + 1)))
  }

  function FakeFinal(s: seq<int>): Step {
    Blank(Final, "Array is now sorted").(state := Some(s), sortedIndices := Some(Range(0, |s|)))
  }

  // ---------------------------------------------------------------------------
  // What a demo trace promises

  /** `x` marks the last `c` indices of its snapshot, and they are settled. */
  predicate TailMarked(x: Step, n: int) {
    x.state.Some? && x.sortedIndices.Some? &&
    var c := |x.sortedIndices.value|;
    0 < c <= n && x.sortedIndices.value == Tail(n, c) && SuffixSettled(x.state.value, n - c)
  }

  predicate MarksSettledTails(steps: seq<Step>, n: int) {
    forall k :: 0 <= k < |steps| && steps[k].kind == Sorted ==> TailMarked(steps[k], n)
  }

  /** A demo trace of `data` built so far: it opens with the input, every
      record is a snapshot of it, comparisons compare neighbours, swaps answer
      exactly the out-of-order comparisons before them, and `sorted` marks
      name settled tails. */
  predicate FakeSoFar(data: seq<int>, steps: seq<Step>) {
    |steps| > 0 && steps[0].kind == Initial && steps[0].state == Some(data) &&
    SnapshotsOf(data, steps) && ComparisonsAdjacent(steps) && SwapStepsJustified(steps) &&
    OutOfOrderAnswered(steps, |steps| - 1) && MarksSettledTails(steps, |data|)
  }

  /** A complete demo trace: nothing owed and it ends with the ascending `final` record. */
  predicate IsFakeTrace(data: seq<int>, steps: seq<Step>) {
    |steps| >= 2 && FakeSoFar(data, steps) && SwapsExactlyWhenOutOfOrder(steps) &&
    EndsSorted(steps, |data|)
  }

  /** What a record must satisfy to extend a demo trace. */
  predicate FakeNext(data: seq<int>, steps: seq<Step>, x: Step)
    requires |steps| > 0
  {
    SnapshotOf(data, x) && (x.kind == Comparison ==> AdjacentComparison(x)) &&
    (x.kind == Swap ==> SwapAnswers(Last(steps), x)) &&
    (PendingSwap(Last(steps)) ==> x.kind == Swap) &&
    (x.kind == Sorted ==> TailMarked(x, |data|))
  }

  lemma FakeAppend(data: seq<int>, steps: seq<Step>, x: Step)
    requires FakeSoFar(data, steps) == true && FakeNext(data, steps, x) == true
    ensures FakeSoFar(data, steps + [x]) == true
  {
    var t := steps + [x];
    assert forall k :: 0 <= k < |steps| ==> t[k] == steps[k];
  }

  /** The trace so far, its current snapshot `s`, and no swap owed. */
  predicate Building(data: seq<int>, steps: seq<Step>, s: seq<int>) {
    FakeSoFar(data, steps) && Last(steps).state == Some(s) && !PendingSwap(Last(steps))
  }

  /** The newest record is a snapshot of `data`. */
  lemma BuildingSnapshot(data: seq<int>, steps: seq<Step>, s: seq<int>)
    requires Building(data, steps, s) == true
    ensures |s| == |data| && multiset(s) == multiset(data)
  {
    assert SnapshotOf(data, steps[|steps| - 1]);
  }

  // ---------------------------------------------------------------------------
  // One inner iteration, one pass, the end

  /** What the shared inner loop keeps after `j` comparisons of a pass over `s[..top]`. */
  predicate Comparing(data: seq<int>, steps: seq<Step>, s: seq<int>, j: int, top: int) {
    Building(data, steps, s) && InnerFacts(s, j, top, false)
  }

  /** Comparing an ordered pair logs only the comparison. */
  lemma CompareOrdered(data: seq<int>, steps: seq<Step>, s: seq<int>, j: int, top: int)
    requires Comparing(data, steps, s, j, top) == true && j + 1 < top && s[j] <= s[j + 1]
    ensures Comparing(data, steps + [FakeComparison(s, j)], s, j + 1, top) == true
  {
    BuildingSnapshot(data, steps, s);
    FakeAppend(data, steps, FakeComparison(s, j));
    InnerStep(s, j, top, false);
  }

  /** Comparing an out-of-order pair logs the comparison, then the swap with the exchanged snapshot. */
  lemma CompareAndSwap(data: seq<int>, steps: seq<Step>, s: seq<int>, j: int, top: int, t: seq<int>)
    requires Comparing(data, steps, s, j, top) == true && j + 1 < top
    requires s[j] > s[j + 1] && t == Exchanged(s, j, j + 1)
    ensures Comparing(data, steps + [FakeComparison(s, j)] + [FakeSwap(t, j)], t, j + 1, top) == true
  {
    BuildingSnapshot(data, steps, s);
    ExchangedFacts(s, j, j + 1);
    var c := FakeComparison(s, j);
    FakeAppend(data, steps, c);
    FakeAppend(data, steps + [c], FakeSwap(t, j));
    InnerStep(s, j, top, false);
  }

  /** After pass `i` of the copying generator the `sorted` mark names the settled tail. */
  lemma MarkPass(data: seq<int>, steps: seq<Step>, s: seq<int>, i: int)
    requires Building(data, steps, s) == true && 0 <= i < |s| && SuffixSettled(s, |s| - i - 1)
    ensures Building(data, steps + [PassMark(s, i)], s) == true
  {
    BuildingSnapshot(data, steps, s);
    var x := PassMark(s, i);
    FakeAppend(data, steps, x);
  }

  /** The `final` record on an ascending snapshot completes the trace. */
  lemma FinishFake(data: seq<int>, steps: seq<Step>, s: seq<int>)
    requires Building(data, steps, s) == true && Ascending(s)
    ensures IsFakeTrace(data, steps + [FakeFinal(s)])
  {
    BuildingSnapshot(data, steps, s);
    RangeBelow(0, |s|);
    FakeAppend(data, steps, FakeFinal(s));
    assert Last(steps + [FakeFinal(s)]) == FakeFinal(s);
  }

  // ---------------------------------------------------------------------------
  // The traces as functions of the input

  /** The records of the comparisons of positions `j, j + 1`, `j + 1, j + 2`,
      … below `top`, and the array after them. */
  function FakePass(s: seq<int>, j: int, top: int): (r: (seq<Step>, seq<int>))
    requires 0 <= j && top <= |s|
    ensures |r.1| == |s|
    decreases top - j
  {
    if j + 1 >= top then ([], s)
    else if s[j] > s[j + 1] then
      var t := Exchanged(s, j, j + 1);
      var rest := FakePass(t, j + 1, top);
      ([FakeComparison(s, j), FakeSwap(t, j)] + rest.0, rest.1)
    else
      var rest := FakePass(s, j + 1, top);
      ([FakeComparison(s, j)] + rest.0, rest.1)
  }

  /** The `sorted` mark after pass `i`, logged only by the copying generator. */
  function MarkAfter(t: seq<int>, i: int, marked: bool): seq<Step>
    requires 0 <= i < |t|
  {
    if marked then [PassMark(t, i)] else []
  }

  /** The records of passes `i, i + 1, …, n - 2` over `s`, then the `final` record. */
  function FakePasses(s: seq<int>, i: int, marked: bool): seq<Step>
    requires 0 <= i
    decreases |s| - i
  {
    if i >= |s| - 1 then [FakeFinal(s)]
    else
      var p := FakePass(s, 0, |s| - i);
      p.0 + MarkAfter(p.1, i, marked) + FakePasses(p.1, i + 1, marked)
  }

  /** The log the in-place generator returns for `data`. */
  function FakeTraceInPlace(data: seq<int>): seq<Step> {
    [Blank(Initial, "Initial unsorted array").(state := Some(data))] + FakePasses(data, 0, false)
  }

  /** The log the copying generator returns for `data`. */
  function FakeTraceCopy(data: seq<int>): seq<Step> {
    [Blank(Initial, "Initial array").(state := Some(data), comparing := Some([]))] + FakePasses(data, 0, true)
  }

  lemma FakePassSwaps(s: seq<int>, j: int, top: int)
    requires 0 <= j && j + 1 < top <= |s| && s[j] > s[j + 1]
    ensures var t := Exchanged(s, j, j + 1);
      FakePass(s, j, top) == ([FakeComparison(s, j), FakeSwap(t, j)] + FakePass(t, j + 1, top).0, FakePass(t, j + 1, top).1)
  {
  }

  lemma FakePassKeeps(s: seq<int>, j: int, top: int)
    requires 0 <= j && j + 1 < top <= |s| && s[j] <= s[j + 1]
    ensures FakePass(s, j, top) == ([FakeComparison(s, j)] + FakePass(s, j + 1, top).0, FakePass(s, j + 1, top).1)
  {
  }

  /** The records of positions `j, j + 1`: the comparison, and the swap when out of order. */
  lemma CompareViews(s: seq<int>, j: int)
    requires 0 <= j && j + 1 < |s|
    ensures var c := FakeComparison(s, j);
      ComparedPairs([c]) == [[j, j + 1]] && SortedMarks([c]) == [] &&
      ComparedPairs([c, FakeSwap(Exchanged(s, j, j + 1), j)]) == [[j, j + 1]] &&
      SortedMarks([c, FakeSwap(Exchanged(s, j, j + 1), j)]) == []
  {
    var c := FakeComparison(s, j);
    var w := FakeSwap(Exchanged(s, j, j + 1), j);
    assert [c, w] == [c] + [w];
    ComparedAppend([c], [w]);
    MarksAppend([c], [w]);
  }

  /** A pass from `j` compares the pairs `[j, j + 1]`, … below `top` in
      order, whatever it swaps. */
  lemma {:induction false} FakePassCompared(s: seq<int>, j: int, top: int)
    requires 0 <= j && top <= |s|
    ensures ComparedPairs(FakePass(s, j, top).0) == PairsFrom(j, top)
    decreases top - j
  {
    if j + 1 < top {
      var t, head;
      if s[j] > s[j + 1] {
        t := Exchanged(s, j, j + 1);
        head := [FakeComparison(s, j), FakeSwap(t, j)];
        FakePassSwaps(s, j, top);
      } else {
        t := s;
        head := [FakeComparison(s, j)];
        FakePassKeeps(s, j, top);
      }
      CompareViews(s, j);
      FakePassCompared(t, j + 1, top);
      ComparedAppend(head, FakePass(t, j + 1, top).0);
    }
  }

  /** A pass marks nothing sorted. */
  lemma {:induction false} FakePassUnmarked(s: seq<int>, j: int, top: int)
    requires 0 <= j && top <= |s|
    ensures SortedMarks(FakePass(s, j, top).0) == []
    decreases top - j
  {
    if j + 1 < top {
      var t, head;
      if s[j] > s[j + 1] {
        t := Exchanged(s, j, j + 1);
        head := [FakeComparison(s, j), FakeSwap(t, j)];
        FakePassSwaps(s, j, top);
      } else {
        t := s;
        head := [FakeComparison(s, j)];
        FakePassKeeps(s, j, top);
      }
      CompareViews(s, j);
      FakePassUnmarked(t, j + 1, top);
      MarksAppend(head, FakePass(t, j + 1, top).0);
    }
  }

  /** The `sorted` marks of the copying generator from pass `i` on: the last
      `i + 1`, `i + 2`, …, `n - 1` indices. */
  function TailMarks(n: int, i: int): (r: seq<seq<int>>)
    requires 0 <= i
    ensures |r| == if i < n - 1 then n - 1 - i else 0
    ensures forall k :: 0 <= k < |r| ==> r[k] == Tail(n, i + k + 1)
    decreases n - i
  {
    if i >= n - 1 then [] else [Tail(n, i + 1)] + TailMarks(n, i + 1)
  }

  lemma FakePassesUnfold(s: seq<int>, i: int, marked: bool)
    requires 0 <= i < |s| - 1
    ensures var p := FakePass(s, 0, |s| - i);
      FakePasses(s, i, marked) == p.0 + MarkAfter(p.1, i, marked) + FakePasses(p.1, i + 1, marked)
  {
  }

  /** The mark after a pass compares nothing and, in the copying
      generator, names the last `i + 1` indices. */
  lemma MarkViews(t: seq<int>, i: int, marked: bool)
    requires 0 <= i < |t|
    ensures ComparedPairs(MarkAfter(t, i, marked)) == []
    ensures SortedMarks(MarkAfter(t, i, marked)) == if marked then [Tail(|t|, i + 1)] else []
  {
  }

  /** A pass over `s[..top]`, a record comparing nothing, then the later
      passes: the comparisons of the full schedule over `s[..top]`. */
  lemma ScheduleStep(whole: seq<Step>, pass: seq<Step>, mark: seq<Step>, rest: seq<Step>, top: int)
    requires whole == pass + mark + rest && 2 <= top
    requires ComparedPairs(pass) == PairsFrom(0, top) && ComparedPairs(mark) == []
    requires ComparedPairs(rest) == FullSchedule(top - 1)
    ensures ComparedPairs(whole) == FullSchedule(top)
  {
    ComparedOfThree(pass, mark, rest);
    var x := PairsFrom(0, top);
    assert x + [] == x;
    assert FullSchedule(top) == x + FullSchedule(top - 1);
  }

  /** A pass, its mark, then the later passes: the marks from pass `i` on. */
  lemma MarksStep(whole: seq<Step>, pass: seq<Step>, mark: seq<Step>, rest: seq<Step>, n: int, i: int, marked: bool)
    requires whole == pass + mark + rest && 0 <= i < n - 1
    requires SortedMarks(pass) == [] && SortedMarks(mark) == (if marked then [Tail(n, i + 1)] else [])
    requires SortedMarks(rest) == if marked then TailMarks(n, i + 1) else []
    ensures SortedMarks(whole) == if marked then TailMarks(n, i) else []
  {
    MarksOfThree(pass, mark, rest);
  }

  /** Passes `i, …, n - 2` make every comparison of the full schedule over
      `s[..n - i]`: no pass is cut short and none is skipped. */
  lemma {:induction false} FakePassesCompared(s: seq<int>, i: int, marked: bool)
    requires 0 <= i
    ensures ComparedPairs(FakePasses(s, i, marked)) == FullSchedule(|s| - i)
    decreases |s| - i
  {
    if i < |s| - 1 {
      var t := FakePass(s, 0, |s| - i).1;
      FakePassesCompared(t, i + 1, marked);
      PassesComparedStep(s, i, marked);
    } else {
      PassesEnd(s, i, marked);
    }
  }

  /** The passes from `i >= n - 1` on are the closing record alone. */
  lemma PassesEnd(s: seq<int>, i: int, marked: bool)
    requires 0 <= i && |s| - 1 <= i
    ensures ComparedPairs(FakePasses(s, i, marked)) == FullSchedule(|s| - i)
    ensures SortedMarks(FakePasses(s, i, marked)) == if marked then TailMarks(|s|, i) else []
  {
    assert FakePasses(s, i, marked) == [FakeFinal(s)];
  }

  /** One pass in front of the later passes adds its pairs to the schedule. */
  lemma PassesComparedStep(s: seq<int>, i: int, marked: bool)
    requires 0 <= i < |s| - 1
    requires var t := FakePass(s, 0, |s| - i).1;
      ComparedPairs(FakePasses(t, i + 1, marked)) == FullSchedule(|t| - (i + 1))
    ensures ComparedPairs(FakePasses(s, i, marked)) == FullSchedule(|s| - i)
  {
    FakePassesUnfold(s, i, marked);
    FakePassCompared(s, 0, |s| - i);
    MarkViews(FakePass(s, 0, |s| - i).1, i, marked);
    assert FakePasses(s, i, marked) == FakePass(s, 0, |s| - i).0 + MarkAfter(FakePass(s, 0, |s| - i).1, i, marked) + FakePasses(FakePass(s, 0, |s| - i).1, i + 1, marked);
    assert ComparedPairs(FakePass(s, 0, |s| - i).0) == PairsFrom(0, |s| - i);
    assert ComparedPairs(MarkAfter(FakePass(s, 0, |s| - i).1, i, marked)) == [];
    assert ComparedPairs(FakePasses(FakePass(s, 0, |s| - i).1, i + 1, marked)) == FullSchedule(|s| - i - 1);
    ScheduleStep(FakePasses(s, i, marked), FakePass(s, 0, |s| - i).0, MarkAfter(FakePass(s, 0, |s| - i).1, i, marked),
      FakePasses(FakePass(s, 0, |s| - i).1, i + 1, marked), |s| - i);
  }

  /** Only the copying generator marks: after pass `k` (from `i` on) the last
      `k + 1` indices. */
  lemma {:induction false} FakePassesMarks(s: seq<int>, i: int, marked: bool)
    requires 0 <= i
    ensures SortedMarks(FakePasses(s, i, marked)) == if marked then TailMarks(|s|, i) else []
    decreases |s| - i
  {
    if i < |s| - 1 {
      var t := FakePass(s, 0, |s| - i).1;
      FakePassesMarks(t, i + 1, marked);
      PassesMarksStep(s, i, marked);
    } else {
      PassesEnd(s, i, marked);
    }
  }

  /** One pass and its mark in front of the later passes add that mark. */
  lemma PassesMarksStep(s: seq<int>, i: int, marked: bool)
    requires 0 <= i < |s| - 1
    requires var t := FakePass(s, 0, |s| - i).1;
      SortedMarks(FakePasses(t, i + 1, marked)) == if marked then TailMarks(|t|, i + 1) else []
    ensures SortedMarks(FakePasses(s, i, marked)) == if marked then TailMarks(|s|, i) else []
  {
    FakePassesUnfold(s, i, marked);
    FakePassUnmarked(s, 0, |s| - i);
    MarkViews(FakePass(s, 0, |s| - i).1, i, marked);
    assert FakePasses(s, i, marked) == FakePass(s, 0, |s| - i).0 + MarkAfter(FakePass(s, 0, |s| - i).1, i, marked) + FakePasses(FakePass(s, 0, |s| - i).1, i + 1, marked);
    assert SortedMarks(FakePass(s, 0, |s| - i).0) == [];
    assert SortedMarks(MarkAfter(FakePass(s, 0, |s| - i).1, i, marked)) == (if marked then [Tail(|s|, i + 1)] else []);
    assert SortedMarks(FakePasses(FakePass(s, 0, |s| - i).1, i + 1, marked)) == if marked then TailMarks(|s|, i + 1) else [];
    MarksStep(FakePasses(s, i, marked), FakePass(s, 0, |s| - i).0, MarkAfter(FakePass(s, 0, |s| - i).1, i, marked),
      FakePasses(FakePass(s, 0, |s| - i).1, i + 1, marked), |s|, i, marked);
  }

  /** A log made of one plain record and the passes: the full schedule, and
      the tail marks when the passes mark. */
  lemma PassesAfterHead(s: seq<int>, x: Step, marked: bool)
    requires x.kind != Comparison && x.kind != Sorted
    ensures ComparedPairs([x] + FakePasses(s, 0, marked)) == FullSchedule(|s|)
    ensures SortedMarks([x] + FakePasses(s, 0, marked)) == if marked then TailMarks(|s|, 0) else []
  {
    FakePassesCompared(s, 0, marked);
    FakePassesMarks(s, 0, marked);
    PlainHead(x, FakePasses(s, 0, marked));
  }

  /** The in-place demo trace of `n` values compares every neighbour pair of
      every pass, `n (n - 1) / 2` comparisons in all, and makes no `sorted` mark. */
  lemma InPlaceSchedule(data: seq<int>)
    ensures ComparedPairs(FakeTraceInPlace(data)) == FullSchedule(|data|)
    ensures SortedMarks(FakeTraceInPlace(data)) == []
  {
    PassesAfterHead(data, Blank(Initial, "Initial unsorted array").(state := Some(data)), false);
  }

  /** The copying demo trace compares the same schedule and marks, after
      pass `i`, the last `i + 1` indices, for each of the `n - 1` passes. */
  lemma CopySchedule(data: seq<int>)
    ensures ComparedPairs(FakeTraceCopy(data)) == FullSchedule(|data|)
    ensures SortedMarks(FakeTraceCopy(data)) == TailMarks(|data|, 0)
  {
    PassesAfterHead(data, Blank(Initial, "Initial array").(state := Some(data), comparing := Some([])), true);
  }

  /** What the comparisons of a pass from `j` on still append. */
  predicate PassRemains(steps: seq<Step>, s: seq<int>, j: int, top: int, target: seq<Step>, after: seq<int>) {
    0 <= j && top <= |s| && steps + FakePass(s, j, top).0 == target && FakePass(s, j, top).1 == after
  }

  lemma PassRemainsSwap(steps: seq<Step>, next: seq<Step>, s: seq<int>, t: seq<int>, j: int, top: int, target: seq<Step>, after: seq<int>)
    requires PassRemains(steps, s, j, top, target, after) == true && j + 1 < top && s[j] > s[j + 1]
    requires t == Exchanged(s, j, j + 1) && next == steps + [FakeComparison(s, j)] + [FakeSwap(t, j)]
    ensures PassRemains(next, t, j + 1, top, target, after) == true
  {
    FakePassSwaps(s, j, top);
    AppendTwo(steps, FakeComparison(s, j), FakeSwap(t, j), FakePass(t, j + 1, top).0);
  }

  lemma PassRemainsKeep(steps: seq<Step>, next: seq<Step>, s: seq<int>, j: int, top: int, target: seq<Step>, after: seq<int>)
    requires PassRemains(steps, s, j, top, target, after) == true && j + 1 < top && s[j] <= s[j + 1]
    requires next == steps + [FakeComparison(s, j)]
    ensures PassRemains(next, s, j + 1, top, target, after) == true
  {
    FakePassKeeps(s, j, top);
    AppendOne(steps, FakeComparison(s, j), FakePass(s, j + 1, top).0);
  }

  /** What passes `i, …` still append. */
  predicate PassesRemain(steps: seq<Step>, s: seq<int>, i: int, marked: bool, target: seq<Step>) {
    0 <= i && steps + FakePasses(s, i, marked) == target
  }

  /** After pass `i` of the in-place generator, passes `i + 1, …` remain. */
  lemma PassesAdvanceQuiet(prev: seq<Step>, s: seq<int>, i: int, target: seq<Step>, steps: seq<Step>, t: seq<int>)
    requires PassesRemain(prev, s, i, false, target) == true && i < |s| - 1
    requires steps == prev + FakePass(s, 0, |s| - i).0 && t == FakePass(s, 0, |s| - i).1
    ensures PassesRemain(steps, t, i + 1, false, target) == true
  {
    FakePassesUnfold(s, i, false);
    Regroup(prev, FakePass(s, 0, |s| - i).0, [], FakePasses(t, i + 1, false));
  }

  /** After pass `i` of the copying generator and its mark, passes `i + 1, …` remain. */
  lemma PassesAdvanceMarked(prev: seq<Step>, s: seq<int>, i: int, target: seq<Step>, steps: seq<Step>, t: seq<int>)
    requires PassesRemain(prev, s, i, true, target) == true && i < |s| - 1
    requires steps == prev + FakePass(s, 0, |s| - i).0 && t == FakePass(s, 0, |s| - i).1
    ensures PassesRemain(steps + [PassMark(t, i)], t, i + 1, true, target) == true
  {
    FakePassesUnfold(s, i, true);
    Regroup(prev, FakePass(s, 0, |s| - i).0, [PassMark(t, i)], FakePasses(t, i + 1, true));
  }

  /** The in-place generator's opening record starts a demo trace with every pass ahead. */
  lemma InPlaceStart(data: seq<int>)
    ensures var init := Blank(Initial, "Initial unsorted array").(state := Some(data));
      BeforePass(data, [init], data, 0, false, FakeTraceInPlace(data)) == true
  {
    var init := Blank(Initial, "Initial unsorted array").(state := Some(data));
    assert SnapshotOf(data, init);
  }

  /** The copying generator's opening record starts a demo trace with every pass ahead. */
  lemma CopyStart(data: seq<int>)
    ensures var init := Blank(Initial, "Initial array").(state := Some(data), comparing := Some([]));
      BeforePass(data, [init], data, 0, true, FakeTraceCopy(data)) == true
  {
    var init := Blank(Initial, "Initial array").(state := Some(data), comparing := Some([]));
    assert SnapshotOf(data, init);
  }

  /** What the outer loop of a generator keeps before pass `i`: the trace so
      far over the snapshot `s`, whose tail from `n - i` is settled, with
      passes `i, …` still to come. */
  predicate BeforePass(data: seq<int>, steps: seq<Step>, s: seq<int>, i: int, marked: bool, target: seq<Step>) {
    Building(data, steps, s) && SuffixSettled(s, |s| - i) && PassesRemain(steps, s, i, marked, target)
  }

  /** Pass `i` of the copying generator, then its mark. */
  lemma AfterMarkedPass(data: seq<int>, prev: seq<Step>, s: seq<int>, i: int, target: seq<Step>, steps: seq<Step>, t: seq<int>)
    requires PassesRemain(prev, s, i, true, target) == true && i < |s| - 1
    requires steps == prev + FakePass(s, 0, |s| - i).0 && t == FakePass(s, 0, |s| - i).1
    requires Building(data, steps, t) == true && SuffixSettled(t, |s| - i - 1)
    ensures BeforePass(data, steps + [PassMark(t, i)], t, i + 1, true, target) == true
  {
    PassesAdvanceMarked(prev, s, i, target, steps, t);
    MarkPass(data, steps, t, i);
  }

  /** Pass `i` of the in-place generator. */
  lemma AfterQuietPass(data: seq<int>, prev: seq<Step>, s: seq<int>, i: int, target: seq<Step>, steps: seq<Step>, t: seq<int>)
    requires PassesRemain(prev, s, i, false, target) == true && i < |s| - 1
    requires steps == prev + FakePass(s, 0, |s| - i).0 && t == FakePass(s, 0, |s| - i).1
    requires Building(data, steps, t) == true && SuffixSettled(t, |s| - i - 1)
    ensures BeforePass(data, steps, t, i + 1, false, target) == true
  {
    PassesAdvanceQuiet(prev, s, i, target, steps, t);
  }

  /** With no pass left only the `final` record remains. */
  lemma PassesDone(steps: seq<Step>, s: seq<int>, i: int, marked: bool, target: seq<Step>)
    requires PassesRemain(steps, s, i, marked, target) == true && i >= |s| - 1
    ensures steps + [FakeFinal(s)] == target
  {
  }

  // ---------------------------------------------------------------------------
  // The generators

  /** The inner loop both copies share: compare `j, j+1` for `j` below
      `top - 1`, exchanging and logging the swap when out of order. */
  method ComparePass(ghost data: seq<int>, arr: array<int>, top: int, steps0: seq<Step>) returns (steps: seq<Step>)
    requires 2 <= top <= arr.Length
    requires Building(data, steps0, arr[..]) == true && SuffixSettled(arr[..], top)
    modifies arr
    ensures Building(data, steps, arr[..]) == true && SuffixSettled(arr[..], top - 1)
    ensures steps == steps0 + FakePass(old(arr[..]), 0, top).0
    ensures arr[..] == FakePass(old(arr[..]), 0, top).1
  {
    steps := steps0;
    var j := 0;
    ghost var whole := FakePass(arr[..], 0, top);
    ghost var target, after := steps0 + whole.0, whole.1;
    var cur := arr[..];  // the snapshot the next comparison record carries
    while j < top - 1
      invariant 0 <= j <= top - 1 && cur == arr[..]
      invariant Comparing(data, steps, cur, j, top) == true
      invariant PassRemains(steps, cur, j, top, target, after) == true
    {
      ghost var prev := steps;
      if cur[j] > cur[j + 1] {
        Exchange(arr, j, j + 1);
        var t := arr[..];
        steps := steps + [FakeComparison(cur, j)] + [FakeSwap(t, j)];
        PassRemainsSwap(prev, steps, cur, t, j, top, target, after);
        CompareAndSwap(data, prev, cur, j, top, t);
        cur := t;
      } else {
        steps := steps + [FakeComparison(cur, j)];
        PassRemainsKeep(prev, steps, cur, j, top, target, after);
        CompareOrdered(data, prev, cur, j, top);
      }
      j := j + 1;
    }
    PassEnd(cur, top, false);
  }

  /** The in-place copy: `data` is sorted by the call and the trace ends on it. */
  method GenerateFakeStepsInPlace(data: array<int>) returns (steps: seq<Step>)
    modifies data
    ensures steps == FakeTraceInPlace(old(data[..]))
    ensures IsFakeTrace(old(data[..]), steps) == true
    ensures Last(steps).state == Some(data[..]) && Ascending(data[..])
  {
    ghost var d := data[..];
    var n := data.Length;
    steps := [Blank(Initial, "Initial unsorted array").(state := Some(data[..]))];
    InPlaceStart(d);
    ghost var target := FakeTraceInPlace(d);
    var cur := data[..];
    var i := 0;
    while i < n - 1
      invariant 0 <= i && (n > 0 ==> i <= n - 1) && data.Length == n && cur == data[..]
      invariant BeforePass(d, steps, cur, i, false, target) == true
    {
      ghost var prev := steps;
      steps := ComparePass(d, data, n - i, steps);
      var t := data[..];
      AfterQuietPass(d, prev, cur, i, target, steps, t);
      cur := t;
      i := i + 1;
    }
    FinishFake(d, steps, cur);
    PassesDone(steps, cur, i, false, target);
    steps := steps + [FakeFinal(cur)];
  }

  /** A fresh array holding `data`, the copy the copying generator sorts. */
  method NewArrayOf(data: seq<int>) returns (arr: array<int>)
    ensures fresh(arr) && arr[..] == data
  {
    arr := new int[|data|](k requires 0 <= k < |data| => data[k]);
  }

  /** The copying copy: the argument is left alone and each pass ends with its `sorted` mark. */
  method GenerateFakeSteps(data: seq<int>) returns (steps: seq<Step>)
    ensures steps == FakeTraceCopy(data)
    ensures IsFakeTrace(data, steps) == true
  {
    var n := |data|;
    var arr := NewArrayOf(data);
    steps := [Blank(Initial, "Initial array").(state := Some(arr[..]), comparing := Some([]))];
    CopyStart(data);
    ghost var target := FakeTraceCopy(data);
    var cur := arr[..];
    var i := 0;
    while i < n - 1
      invariant 0 <= i && (n > 0 ==> i <= n - 1) && arr.Length == n && cur == arr[..]
      invariant BeforePass(data, steps, cur, i, true, target) == true
    {
      ghost var prev := steps;
      steps := ComparePass(data, arr, n - i, steps);
      var t := arr[..];
      AfterMarkedPass(data, prev, cur, i, target, steps, t);
      steps := steps + [PassMark(t, i)];
      cur := t;
      i := i + 1;
    }
    FinishFake(data, steps, cur);
    PassesDone(steps, cur, i, true, target);
    steps := steps + [FakeFinal(cur)];
  }
}

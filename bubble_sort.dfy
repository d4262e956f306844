/** `bubble_sort` of the backend: the array is copied, sorted in place by
    adjacent exchanges, and every comparison, swap and pass is logged. */
module BubbleSort {
  import opened Wrappers
  import opened StepModel
  import opened BubbleTrace

  /** Where a pass leaves the log, the array and its swap flag. */
  datatype Pass = Pass(steps: seq<Step>, state: seq<int>, swapped: bool)

  /** One iteration of the inner loop at position `j`: log the comparison of
      `s[j]` and `s[j + 1]`, and when they are out of order exchange them and
      log the swap with the new snapshot. */
  function Iterate(steps: seq<Step>, s: seq<int>, j: int, swapped: bool): (n: Pass)
    requires 0 <= j && j + 1 < |s|
    ensures |n.state| == |s|
  {
    var compared := steps + [ComparisonStep(s, j)];
    if s[j] > s[j + 1] then
      var t := Exchanged(s, j, j + 1);
      Pass(compared + [SwapStep(t, j)], t, true)
    else
      Pass(compared, s, swapped)
  }

  /** The inner loop from position `j` on, over `s[..top]`: what it appends to
      `steps`, the array it leaves, and whether it swapped. */
  function RunPass(steps: seq<Step>, s: seq<int>, j: int, top: int, swapped: bool): (r: Pass)
    requires 0 <= j && top <= |s|
    ensures |r.state| == |s|
    decreases top - j
  {
    if j + 1 >= top then Pass(steps, s, swapped)
    else
      var n := Iterate(steps, s, j, swapped);
      RunPass(n.steps, n.state, j + 1, top, n.swapped)
  }

  /** The outer loop from pass `i` on: each pass is followed by its `sorted`
      mark, a pass without swaps ends the loop, and `final` closes the log. */
  function RunPasses(steps: seq<Step>, s: seq<int>, i: nat): seq<Step>
    decreases |s| - i
  {
    if i >= |s| then steps + [FinalStep(s)]
    else
      var p := RunPass(steps, s, 0, |s| - i, false);
      var marked := p.steps + [SortedSuffixStep(p.state, |s| - i - 1)];
      if !p.swapped then marked + [FinalStep(p.state)]
      else RunPasses(marked, p.state, i + 1)
  }

  /** The log `bubble_sort` returns for `data`. */
  function BubbleSortTrace(data: seq<int>): seq<Step> {
    RunPasses([InitialStep(data)], data, 0)
  }

  /** One inner iteration keeps the pass invariant. */
  lemma IterationFits(data: seq<int>, steps: seq<Step>, s: seq<int>, j: int, top: int, swapped: bool, n: Pass)
    requires InPass(data, steps, s, j, top, swapped) == true && j + 1 < top
    requires n == Iterate(steps, s, j, swapped)
    ensures InPass(data, n.steps, n.state, j + 1, top, n.swapped) == true
  {
    if s[j] > s[j + 1] {
      IterationSwaps(data, steps, s, j, top, swapped);
    } else {
      IterationKeeps(data, steps, s, j, top, swapped);
    }
  }

  lemma {:induction false} RunPassFits(data: seq<int>, steps: seq<Step>, s: seq<int>, j: int, top: int, swapped: bool, p: Pass)
    requires InPass(data, steps, s, j, top, swapped) == true && p == RunPass(steps, s, j, top, swapped)
    ensures InPass(data, p.steps, p.state, top - 1, top, p.swapped) == true
    decreases top - j
  {
    if j + 1 < top {
      var n := Iterate(steps, s, j, swapped);
      RunPassUnfold(steps, s, j, top, swapped, n);
      IterationFits(data, steps, s, j, top, swapped, n);
      RunPassFits(data, n.steps, n.state, j + 1, top, n.swapped, p);
    }
  }

  /** A whole pass, from the facts that hold before it to those that hold after it. */
  lemma WholePass(data: seq<int>, steps: seq<Step>, s: seq<int>, i: nat, p: Pass)
    requires BeforePass(data, steps, s, i) == true && i < |s| && p == RunPass(steps, s, 0, |s| - i, false)
    ensures PassDone(data, p.steps, p.state, |s| - i, p.swapped) == true
  {
    PassStart(data, steps, s, i);
    RunPassFits(data, steps, s, 0, |s| - i, false, p);
    PassFinish(data, p.steps, p.state, |s| - i, p.swapped);
  }

  /** One iteration of the outer loop, read off `RunPasses`. */
  lemma RunPassesUnfold(steps: seq<Step>, s: seq<int>, i: nat, p: Pass, m: int)
    requires i < |s| && m == |s| - i - 1 && p == RunPass(steps, s, 0, |s| - i, false)
    ensures !p.swapped ==> RunPasses(steps, s, i) == p.steps + [SortedSuffixStep(p.state, m)] + [FinalStep(p.state)]
    ensures p.swapped ==> RunPasses(steps, s, i) == RunPasses(p.steps + [SortedSuffixStep(p.state, m)], p.state, i + 1)
  {
  }

  /** What one whole pass of the outer loop leaves behind: either the
      finished trace, or the start of the next pass. */
  lemma PassOutcome(data: seq<int>, steps: seq<Step>, s: seq<int>, i: nat, p: Pass, m: int)
    requires BeforePass(data, steps, s, i) == true && i < |s| && m == |s| - i - 1
    requires p == RunPass(steps, s, 0, |s| - i, false)
    ensures (!p.swapped ==> IsBubbleTrace(data, p.steps + [SortedSuffixStep(p.state, m)] + [FinalStep(p.state)])) == true
    ensures (p.swapped ==> BeforePass(data, p.steps + [SortedSuffixStep(p.state, m)], p.state, i + 1)) == true
  {
    WholePass(data, steps, s, i, p);
    AfterPass(data, p.steps, p.state, i, m, p.swapped);
  }

  lemma {:induction false} RunPassesFits(data: seq<int>, steps: seq<Step>, s: seq<int>, i: nat, r: seq<Step>)
    requires BeforePass(data, steps, s, i) == true && r == RunPasses(steps, s, i)
    ensures IsBubbleTrace(data, r) == true
    decreases |s| - i
  {
    if i == |s| {
      assert r == steps + [FinalStep(s)];
      NoPass(data, steps, s);
    } else {
      var p := RunPass(steps, s, 0, |s| - i, false);
      var m := |s| - i - 1;
      RunPassesUnfold(steps, s, i, p, m);
      PassOutcome(data, steps, s, i, p, m);
      if p.swapped {
        RunPassesFits(data, p.steps + [SortedSuffixStep(p.state, m)], p.state, i + 1, r);
      }
    }
  }

  /** Every log `bubble_sort` returns is a bubble trace of its input. */
  lemma BubbleSortTraceIsBubbleTrace(data: seq<int>)
    ensures IsBubbleTrace(data, BubbleSortTrace(data))
  {
    FirstPass(data);
    RunPassesFits(data, [InitialStep(data)], data, 0, BubbleSortTrace(data));
  }

  /** One iteration of the inner loop, read off `RunPass`. */
  lemma RunPassUnfold(steps: seq<Step>, s: seq<int>, j: int, top: int, swapped: bool, n: Pass)
    requires 0 <= j && j + 1 < top <= |s| && n == Iterate(steps, s, j, swapped)
    ensures RunPass(steps, s, j, top, swapped) == RunPass(n.steps, n.state, j + 1, top, n.swapped)
  {
  }

  /** One pass of the inner loop over `arr[..top]`: compare neighbours and
      swap those out of order, logging each comparison and swap. */
  method BubblePass(arr: array<int>, top: int, steps0: seq<Step>) returns (steps: seq<Step>, swapped: bool)
    requires 0 < top <= arr.Length
    modifies arr
    ensures Pass(steps, arr[..], swapped) == RunPass(steps0, old(arr[..]), 0, top, false)
  {
    steps := steps0;
    swapped := false;
    var j := 0;
    while j + 1 < top
      invariant 0 <= j < top
      invariant RunPass(steps, arr[..], j, top, swapped) == RunPass(steps0, old(arr[..]), 0, top, false)
    {
      ghost var n := Iterate(steps, arr[..], j, swapped);
      RunPassUnfold(steps, arr[..], j, top, swapped, n);
      steps := steps + [ComparisonStep(arr[..], j)];
      if arr[j] > arr[j + 1] {
        Exchange(arr, j, j + 1);
        swapped := true;
        steps := steps + [SwapStep(arr[..], j)];
      }
      assert Pass(steps, arr[..], swapped) == n;
      j := j + 1;
    }
  }

  method BubbleSortSteps(data: seq<int>) returns (steps: seq<Step>)
    ensures steps == BubbleSortTrace(data)
    ensures IsBubbleTrace(data, steps)
  {
    var n := |data|;
    var arr := new int[n](k requires 0 <= k < n => data[k]);
    assert arr[..] == data;
    steps := [InitialStep(arr[..])];
    var i := 0;
    while i < n
      invariant 0 <= i <= n && arr.Length == n
      invariant RunPasses(steps, arr[..], i) == BubbleSortTrace(data)
    {
      var swapped;
      steps, swapped := BubblePass(arr, n - i, steps);
      steps := steps + [SortedSuffixStep(arr[..], n - i - 1)];
      if !swapped {
        steps := steps + [FinalStep(arr[..])];
        BubbleSortTraceIsBubbleTrace(data);
        return;
      }
      i := i + 1;
    }
    steps := steps + [FinalStep(arr[..])];
    BubbleSortTraceIsBubbleTrace(data);
  }
}

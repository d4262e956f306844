/** The landing page's decorative scene: a bubble sort replayed in a loop on
    sixteen bars, and a small binary tree numbered like a heap. */
module HomeVisualization {
  import opened Wrappers
  import opened StepModel
  import opened BubbleTrace

  // ---------------------------------------------------------------------------
  // The bar animation's frames

  /** One frame of the bar animation: a snapshot and the pair compared or
      just swapped (empty when none). The frames carry no `type` tag. */
  datatype Frame = Frame(state: seq<int>, comparing: seq<int>, swapped: seq<int>)

  /** `[j, j + 1]` addressing an array of length `n`. */
  predicate NeighbourPair(p: seq<int>, n: int) {
    |p| == 2 && 0 <= p[0] && p[1] == p[0] + 1 && p[1] < n
  }

  /** A frame whose snapshot rearranges `data` and which marks at most one neighbour pair. */
  predicate FrameOf(data: seq<int>, f: Frame) {
    |f.state| == |data| && multiset(f.state) == multiset(data) &&
    (f.comparing == [] || NeighbourPair(f.comparing, |data|)) &&
    (f.swapped == [] || NeighbourPair(f.swapped, |data|)) &&
    (f.comparing == [] || f.swapped == [])
  }

  /** A comparison frame whose pair is out of order. */
  predicate Pending(f: Frame) {
    NeighbourPair(f.comparing, |f.state|) && f.state[f.comparing[0]] > f.state[f.comparing[0] + 1]
  }

  /** `f` exchanges the pair the frame `prev` found out of order. */
  predicate SwapAnswers(prev: Frame, f: Frame) {
    Pending(prev) && f.swapped == prev.comparing &&
    f.state == Exchanged(prev.state, prev.comparing[0], prev.comparing[0] + 1)
  }

  /** The animation built so far: it opens on the input with nothing marked,
      every frame rearranges the input, a swap frame answers the comparison
      before it, and each out-of-order comparison is answered. */
  predicate FramesSoFar(data: seq<int>, frames: seq<Frame>) {
    |frames| > 0 && frames[0] == Frame(data, [], []) &&
    (forall k :: 0 <= k < |frames| ==> FrameOf(data, frames[k])) &&
    (forall k :: 0 < k < |frames| && frames[k].swapped != [] ==> SwapAnswers(frames[k - 1], frames[k])) &&
    (forall k :: 0 <= k < |frames| - 1 && Pending(frames[k]) ==> frames[k + 1].swapped != [])
  }

  /** The whole animation: it ends on an ascending rearrangement of the input with nothing marked. */
  predicate IsHomeTrace(data: seq<int>, frames: seq<Frame>) {
    |frames| >= 2 && FramesSoFar(data, frames) &&
    var last := frames[|frames| - 1];
    last.comparing == [] && last.swapped == [] && Ascending(last.state)
  }

  lemma AppendFrame(data: seq<int>, frames: seq<Frame>, f: Frame)
    requires FramesSoFar(data, frames) == true && FrameOf(data, f)
    requires f.swapped != [] ==> SwapAnswers(frames[|frames| - 1], f)
    requires Pending(frames[|frames| - 1]) ==> f.swapped != []
    ensures FramesSoFar(data, frames + [f]) == true
  {
    var t := frames + [f];
    assert forall k :: 0 <= k < |frames| ==> t[k] == frames[k];
  }

  /** The frames so far end on snapshot `s`, owe no swap, and the inner loop's facts hold. */
  predicate Animating(data: seq<int>, frames: seq<Frame>, s: seq<int>, j: int, top: int) {
    FramesSoFar(data, frames) && frames[|frames| - 1].state == s &&
    !Pending(frames[|frames| - 1]) && InnerFacts(s, j, top, false)
  }

  lemma AnimatingSnapshot(data: seq<int>, frames: seq<Frame>, s: seq<int>, j: int, top: int)
    requires Animating(data, frames, s, j, top) == true
    ensures |s| == |data| && multiset(s) == multiset(data)
  {
    assert FrameOf(data, frames[|frames| - 1]);
  }

  lemma FrameOrdered(data: seq<int>, frames: seq<Frame>, s: seq<int>, j: int, top: int)
    requires Animating(data, frames, s, j, top) == true && j + 1 < top && s[j] <= s[j + 1]
    ensures Animating(data, frames + [Frame(s, [j, j + 1], [])], s, j + 1, top) == true
  {
    AnimatingSnapshot(data, frames, s, j, top);
    AppendFrame(data, frames, Frame(s, [j, j + 1], []));
    InnerStep(s, j, top, false);
  }

  lemma FrameSwaps(data: seq<int>, frames: seq<Frame>, s: seq<int>, j: int, top: int, t: seq<int>)
    requires Animating(data, frames, s, j, top) == true && j + 1 < top && s[j] > s[j + 1]
    requires t == Exchanged(s, j, j + 1)
    ensures Animating(data, frames + [Frame(s, [j, j + 1], [])] + [Frame(t, [], [j, j + 1])], t, j + 1, top) == true
  {
    AnimatingSnapshot(data, frames, s, j, top);
    ExchangedFacts(s, j, j + 1);
    var c := Frame(s, [j, j + 1], []);
    AppendFrame(data, frames, c);
    AppendFrame(data, frames + [c], Frame(t, [], [j, j + 1]));
    InnerStep(s, j, top, false);
  }

  lemma FramesEnd(data: seq<int>, frames: seq<Frame>, s: seq<int>)
    requires FramesSoFar(data, frames) == true && frames[|frames| - 1].state == s
    requires !Pending(frames[|frames| - 1]) && Ascending(s)
    ensures IsHomeTrace(data, frames + [Frame(s, [], [])])
  {
    assert FrameOf(data, frames[|frames| - 1]);
    AppendFrame(data, frames, Frame(s, [], []));
  }

  /** The frames so far end on snapshot `s` with no swap owed, and `s[top..]` is settled. */
  predicate Settling(data: seq<int>, frames: seq<Frame>, s: seq<int>, top: int) {
    FramesSoFar(data, frames) && frames[|frames| - 1].state == s &&
    !Pending(frames[|frames| - 1]) && SuffixSettled(s, top)
  }

  // ---------------------------------------------------------------------------
  // The animation as a function of the input

  /** The frames of one pass over `s[..top]` from index `j` on: a comparison
      frame per neighbour pair, each out-of-order pair followed by the frame
      after its swap. */
  function PassFrames(s: seq<int>, j: nat, top: int): seq<Frame>
    requires top <= |s|
    decreases top - j
  {
    if j + 1 >= top then []
    else if s[j] > s[j + 1] then
      var t := Exchanged(s, j, j + 1);
      [Frame(s, [j, j + 1], []), Frame(t, [], [j, j + 1])] + PassFrames(t, j + 1, top)
    else
      [Frame(s, [j, j + 1], [])] + PassFrames(s, j + 1, top)
  }

  /** The array after that pass. */
  function PassResult(s: seq<int>, j: nat, top: int): (r: seq<int>)
    requires top <= |s|
    ensures |r| == |s|
    decreases top - j
  {
    if j + 1 >= top then s
    else if s[j] > s[j + 1] then PassResult(Exchanged(s, j, j + 1), j + 1, top)
    else PassResult(s, j + 1, top)
  }

  /** The frames of passes `i, …, n - 1`, then the closing frame. */
  function AllPasses(s: seq<int>, i: nat): seq<Frame>
    decreases |s| - i
  {
    if i >= |s| then [Frame(s, [], [])]
    else PassFrames(s, 0, |s| - i) + AllPasses(PassResult(s, 0, |s| - i), i + 1)
  }

  /** The frames `initBubbleSort(data)` builds. */
  function HeroTrace(data: seq<int>): seq<Frame> {
    [Frame(data, [], [])] + AllPasses(data, 0)
  }

  /** The pairs the comparison frames mark, in order. */
  function FrameComparisons(frames: seq<Frame>): seq<seq<int>> {
    if frames == [] then []
    else (if frames[0].comparing != [] then [frames[0].comparing] else []) + FrameComparisons(frames[1..])
  }

  lemma {:induction false} FrameComparisonsAppend(a: seq<Frame>, b: seq<Frame>)
    ensures FrameComparisons(a + b) == FrameComparisons(a) + FrameComparisons(b)
    decreases |a|
  {
    if a != [] {
      assert (a + b)[1..] == a[1..] + b;
      FrameComparisonsAppend(a[1..], b);
    } else {
      assert a + b == b;
    }
  }

  /** A pass from `j` compares the pairs `[j, j + 1]`, … below `top` in
      order, whatever it swaps. */
  lemma {:induction false} PassCompared(s: seq<int>, j: nat, top: int)
    requires top <= |s|
    ensures FrameComparisons(PassFrames(s, j, top)) == PairsFrom(j, top)
    decreases top - j
  {
    if j + 1 < top {
      var c := Frame(s, [j, j + 1], []);
      var t, head;
      if s[j] > s[j + 1] {
        t := Exchanged(s, j, j + 1);
        var w := Frame(t, [], [j, j + 1]);
        head := [c, w];
        assert [w][1..] == [];
        assert FrameComparisons([w]) == [];
        assert [c, w][1..] == [w];
      } else {
        t := s;
        head := [c];
        assert [c][1..] == [];
      }
      assert FrameComparisons(head) == [[j, j + 1]];
      PassCompared(t, j + 1, top);
      FrameComparisonsAppend(head, PassFrames(t, j + 1, top));
    }
  }

  /** A pass over `s[..top]` followed by the later passes: the full
      schedule over `s[..top]`. */
  lemma FramesScheduleStep(whole: seq<Frame>, pass: seq<Frame>, rest: seq<Frame>, top: int)
    requires whole == pass + rest && 1 <= top
    requires FrameComparisons(pass) == PairsFrom(0, top)
    requires FrameComparisons(rest) == FullSchedule(top - 1)
    ensures FrameComparisons(whole) == FullSchedule(top)
  {
    FrameComparisonsAppend(pass, rest);
    if top == 1 {
      assert PairsFrom(0, top) == [];
    }
  }

  /** Passes `i, …, n - 1` make every comparison of the full schedule over
      `s[..n - i]`: `initBubbleSort` never stops a pass or the sort early. */
  lemma {:induction false} AllPassesCompared(s: seq<int>, i: nat)
    ensures FrameComparisons(AllPasses(s, i)) == FullSchedule(|s| - i)
    decreases |s| - i
  {
    if i < |s| {
      var t := PassResult(s, 0, |s| - i);
      PassCompared(s, 0, |s| - i);
      AllPassesCompared(t, i + 1);
      FramesScheduleStep(AllPasses(s, i), PassFrames(s, 0, |s| - i), AllPasses(t, i + 1), |s| - i);
    } else {
      assert [Frame(s, [], [])][1..] == [];
    }
  }

  /** The hero's animation of `n` values compares every neighbour pair of
      every pass, `n (n - 1) / 2` comparisons in all. */
  lemma HeroSchedule(data: seq<int>)
    ensures FrameComparisons(HeroTrace(data)) == FullSchedule(|data|)
    ensures |FrameComparisons(HeroTrace(data))| == if |data| <= 1 then 0 else |data| * (|data| - 1) / 2
  {
    var first := Frame(data, [], []);
    assert ([first] + AllPasses(data, 0))[1..] == AllPasses(data, 0);
    AllPassesCompared(data, 0);
    FullScheduleLength(|data|);
  }

  /** What the rest of a pass from `j` still appends. */
  predicate PassLeft(frames: seq<Frame>, s: seq<int>, j: nat, top: int, target: seq<Frame>, after: seq<int>) {
    top <= |s| && frames + PassFrames(s, j, top) == target && PassResult(s, j, top) == after
  }

  lemma FramesAppendOne(a: seq<Frame>, x: Frame, rest: seq<Frame>)
    ensures a + [x] + rest == a + ([x] + rest)
  {
  }

  lemma FramesAppendTwo(a: seq<Frame>, x: Frame, y: Frame, rest: seq<Frame>)
    ensures a + [x] + [y] + rest == a + ([x, y] + rest)
  {
    assert [x, y] == [x] + [y];
  }

  lemma FramesRegroup(a: seq<Frame>, b: seq<Frame>, c: seq<Frame>)
    ensures a + (b + c) == a + b + c
  {
  }

  lemma PassLeftSwap(prev: seq<Frame>, next: seq<Frame>, s: seq<int>, j: nat, top: int, target: seq<Frame>, after: seq<int>, t: seq<int>)
    requires PassLeft(prev, s, j, top, target, after) == true && j + 1 < top && s[j] > s[j + 1]
    requires t == Exchanged(s, j, j + 1)
    requires next == prev + [Frame(s, [j, j + 1], [])] + [Frame(t, [], [j, j + 1])]
    ensures PassLeft(next, t, j + 1, top, target, after) == true
  {
    var c, w := Frame(s, [j, j + 1], []), Frame(t, [], [j, j + 1]);
    assert PassFrames(s, j, top) == [c, w] + PassFrames(t, j + 1, top);
    FramesAppendTwo(prev, c, w, PassFrames(t, j + 1, top));
  }

  lemma PassLeftKeep(prev: seq<Frame>, next: seq<Frame>, s: seq<int>, j: nat, top: int, target: seq<Frame>, after: seq<int>)
    requires PassLeft(prev, s, j, top, target, after) == true && j + 1 < top && s[j] <= s[j + 1]
    requires next == prev + [Frame(s, [j, j + 1], [])]
    ensures PassLeft(next, s, j + 1, top, target, after) == true
  {
    var c := Frame(s, [j, j + 1], []);
    assert PassFrames(s, j, top) == [c] + PassFrames(s, j + 1, top);
    FramesAppendOne(prev, c, PassFrames(s, j + 1, top));
  }

  lemma PassLeftDone(frames: seq<Frame>, s: seq<int>, j: nat, top: int, target: seq<Frame>, after: seq<int>)
    requires PassLeft(frames, s, j, top, target, after) == true && j + 1 >= top
    ensures frames == target && s == after
  {
    assert frames + [] == frames;
  }

  /** What passes `i, …` still append. */
  predicate PassesLeft(frames: seq<Frame>, s: seq<int>, i: nat, target: seq<Frame>) {
    frames + AllPasses(s, i) == target
  }

  lemma PassesLeftStep(prev: seq<Frame>, next: seq<Frame>, s: seq<int>, i: nat, target: seq<Frame>, t: seq<int>)
    requires PassesLeft(prev, s, i, target) == true && i < |s|
    requires next == prev + PassFrames(s, 0, |s| - i) && t == PassResult(s, 0, |s| - i)
    ensures PassesLeft(next, t, i + 1, target) == true
  {
    assert AllPasses(s, i) == PassFrames(s, 0, |s| - i) + AllPasses(t, i + 1);
    FramesRegroup(prev, PassFrames(s, 0, |s| - i), AllPasses(t, i + 1));
  }

  lemma PassesLeftStart(data: seq<int>)
    ensures PassesLeft([Frame(data, [], [])], data, 0, HeroTrace(data)) == true
  {
  }

  lemma PassesLeftDone(frames: seq<Frame>, s: seq<int>, target: seq<Frame>)
    requires PassesLeft(frames, s, |s|, target) == true
    ensures frames + [Frame(s, [], [])] == target
  {
  }

  /** One pass of `initBubbleSort` over `arr[..top]`: it appends that pass's
      frames and leaves the array as the pass does. */
  method AnimatePass(ghost data: seq<int>, arr: array<int>, top: int, frames0: seq<Frame>) returns (frames: seq<Frame>)
    requires 1 <= top <= arr.Length && Settling(data, frames0, arr[..], top) == true
    modifies arr
    ensures frames == frames0 + PassFrames(old(arr[..]), 0, top)
    ensures arr[..] == PassResult(old(arr[..]), 0, top)
    ensures Settling(data, frames, arr[..], top - 1) == true
  {
    ghost var target, after := frames0 + PassFrames(arr[..], 0, top), PassResult(arr[..], 0, top);
    frames := frames0;
    var j := 0;
    while j < top - 1
      invariant 0 <= j <= top - 1
      invariant Animating(data, frames, arr[..], j, top) == true
      invariant PassLeft(frames, arr[..], j, top, target, after) == true
    {
      ghost var s, prev := arr[..], frames;
      frames := frames + [Frame(arr[..], [j, j + 1], [])];
      if arr[j] > arr[j + 1] {
        Exchange(arr, j, j + 1);
        FrameSwaps(data, prev, s, j, top, arr[..]);
        frames := frames + [Frame(arr[..], [], [j, j + 1])];
        PassLeftSwap(prev, frames, s, j, top, target, after, arr[..]);
      } else {
        FrameOrdered(data, prev, s, j, top);
        PassLeftKeep(prev, frames, s, j, top, target, after);
      }
      j := j + 1;
    }
    PassLeftDone(frames, arr[..], j, top, target, after);
    PassEnd(arr[..], top, false);
  }

  /** `initBubbleSort`'s frames: `n` passes over a copy of the input, none
      cut short, then the closing frame. */
  method BubbleFrames(data: seq<int>) returns (frames: seq<Frame>)
    ensures frames == HeroTrace(data)
    ensures IsHomeTrace(data, frames)
  {
    var n := |data|;
    var arr := new int[n](k requires 0 <= k < n => data[k]);
    assert arr[..] == data;
    frames := [Frame(arr[..], [], [])];
    PassesLeftStart(data);
    for i := 0 to n
      invariant Settling(data, frames, arr[..], n - i) == true
      invariant PassesLeft(frames, arr[..], i, HeroTrace(data)) == true
    {
      ghost var s, prev := arr[..], frames;
      frames := AnimatePass(data, arr, n - i, frames);
      PassesLeftStep(prev, frames, s, i, HeroTrace(data), arr[..]);
    }
    FramesEnd(data, frames, arr[..]);
    PassesLeftDone(frames, arr[..], HeroTrace(data));
    frames := frames + [Frame(arr[..], [], [])];
  }

  // ---------------------------------------------------------------------------
  // Bar colours

  const DefaultBlue := 0x3b82f6
  const ComparedRed := 0xef4444
  const SwappedOrange := 0xf59e0b

  /** `updateArrayVisualization`'s colour for bar `i`: compared before swapped before default. */
  function BarColour(f: Frame, i: int): int {
    if i in f.comparing then ComparedRed
    else if i in f.swapped then SwappedOrange
    else DefaultBlue
  }

  /** The bars a frame draws in a colour other than the default. */
  function Highlighted(f: Frame): set<int> {
    set i | 0 <= i < |f.state| && BarColour(f, i) != DefaultBlue
  }

  /** In a frame of the animation exactly the marked neighbour pair stands out. */
  lemma FrameHighlights(data: seq<int>, f: Frame)
    requires FrameOf(data, f)
    ensures f.comparing != [] ==> Highlighted(f) == {f.comparing[0], f.comparing[0] + 1}
    ensures f.swapped != [] ==> Highlighted(f) == {f.swapped[0], f.swapped[0] + 1}
    ensures f.comparing == [] && f.swapped == [] ==> Highlighted(f) == {}
  {
    if f.comparing != [] {
      assert f.comparing == [f.comparing[0], f.comparing[0] + 1];
    } else if f.swapped != [] {
      assert f.swapped == [f.swapped[0], f.swapped[0] + 1];
    }
  }

  // ---------------------------------------------------------------------------
  // The replay loop

  /** The interval's index update: show the frame and move on, or wrap to the start. */
  function Advance(current: int, len: int): (r: int)
    ensures current < len ==> r == current + 1
    ensures current >= len ==> r == 0
  {
    if current < len then current + 1 else 0
  }

  function AdvanceTimes(current: int, len: int, k: nat): int
    decreases k
  {
    if k == 0 then current else AdvanceTimes(Advance(current, len), len, k - 1)
  }

  lemma {:induction false} AdvanceRun(current: int, len: int, k: nat)
    requires 0 <= current && current + k <= len
    ensures AdvanceTimes(current, len, k) == current + k
    decreases k
  {
    if k > 0 {
      AdvanceRun(current + 1, len, k - 1);
    }
  }

  lemma {:induction false} AdvanceSplit(current: int, len: int, a: nat, b: nat)
    ensures AdvanceTimes(current, len, a + b) == AdvanceTimes(AdvanceTimes(current, len, a), len, b)
    decreases a
  {
    if a > 0 {
      AdvanceSplit(Advance(current, len), len, a - 1, b);
    }
  }

  /** The replay is periodic: `len + 1` ticks (one per frame, one to wrap)
      bring any index in `[0, len]` back to itself. */
  lemma AdvanceCycle(current: int, len: int)
    requires 0 <= current <= len
    ensures AdvanceTimes(current, len, len + 1) == current
  {
    AdvanceSplit(current, len, len - current, 1);
    AdvanceRun(current, len, len - current);
    AdvanceSplit(current, len, len - current + 1, current);
    AdvanceRun(0, len, current);
  }

  /** The page's closure state: the frames, the replay index and the browser's live intervals. */
  class HomeScene {
    var sortingSteps: seq<Frame>
    var currentStep: int
    var sortInterval: Option<int>
    /** Interval ids the browser still fires; browser ids are positive. */
    var timers: set<int>

    /** At most one interval fires, and it is the one `sortInterval` holds. */
    predicate Valid()
      reads this
    {
      0 <= currentStep &&
      (sortInterval.None? ==> timers == {}) &&
      (sortInterval.Some? ==> sortInterval.value > 0 && timers <= {sortInterval.value})
    }

    constructor()
      ensures Valid() && sortingSteps == [] && currentStep == 0 && sortInterval == None
    {
      sortingSteps := [];
      currentStep := 0;
      sortInterval := None;
      timers := {};
    }

    /** `initBubbleSort`: record the frames, clear the old interval, start interval `id`. */
    method InitBubbleSort(data: seq<int>, id: int)
      requires Valid() && id > 0
      modifies this
      ensures Valid() && sortingSteps == HeroTrace(data) && IsHomeTrace(data, sortingSteps)
      ensures currentStep == old(currentStep) && sortInterval == Some(id) && timers == {id}
    {
      var frames := BubbleFrames(data);
      sortingSteps := frames;
      if sortInterval.Some? {
        timers := timers - {sortInterval.value};
      }
      sortInterval := Some(id);
      timers := timers + {id};
    }

    /** One firing of the live interval: the frame drawn, if any. */
    method Tick() returns (shown: Option<Frame>)
      requires Valid() && sortInterval.Some? && sortInterval.value in timers
      modifies this`currentStep
      ensures Valid() && currentStep == Advance(old(currentStep), |sortingSteps|)
      ensures shown == if old(currentStep) < |sortingSteps| then Some(sortingSteps[old(currentStep)]) else None
    {
      if currentStep < |sortingSteps| {
        shown := Some(sortingSteps[currentStep]);
        currentStep := currentStep + 1;
      } else {
        shown := None;
        currentStep := 0;
      }
    }

    /** The `beforeunload` handler: the interval stops; the variable keeps its id. */
    method Unload()
      requires Valid()
      modifies this`timers
      ensures Valid() && timers == {}
    {
      if sortInterval.Some? {
        timers := timers - {sortInterval.value};
      }
    }
  }

  // ---------------------------------------------------------------------------
  // The heap-numbered tree

  datatype Point = Point(x: real, y: real, z: real)

  /** A tree node; `Nil` is JavaScript's `null` child. */
  datatype TreeNode = Nil | Node(value: int, left: TreeNode, right: TreeNode, position: Point)

  function Pow2(d: nat): (p: nat)
    ensures p >= 1
  {
    if d == 0 then 1 else 2 * Pow2(d - 1)
  }

  /** `createBinaryTreeNode(value, depth, index)`: children `2v` and `2v + 1`,
      the position laid out by the breadth-first `index`. */
  function CreateBinaryTreeNode(value: int, depth: int, index: int): (r: TreeNode)
    ensures r.Nil? <==> depth <= 0
    ensures r.Node? ==> r.value == value && r.position == Point(index as real * 3.0, 0.0, 0.0)
    ensures r.Node? ==> (r.left.Node? <==> depth > 1) && (r.right.Node? <==> depth > 1)
    ensures depth > 1 ==> r.left.value == 2 * value && r.right.value == 2 * value + 1
    decreases depth
  {
    if depth <= 0 then Nil
    else Node(value,
              CreateBinaryTreeNode(value * 2, depth - 1, index * 2 + 1),
              CreateBinaryTreeNode(value * 2 + 1, depth - 1, index * 2 + 2),
              Point(index as real * 3.0, 0.0, 0.0))
  }

  function Size(t: TreeNode): nat {
    if t.Nil? then 0 else 1 + Size(t.left) + Size(t.right)
  }

  /** The values at depth `k`, left to right. */
  function Level(t: TreeNode, k: nat): seq<int> {
    if t.Nil? then [] else if k == 0 then [t.value] else Level(t.left, k - 1) + Level(t.right, k - 1)
  }

  /** The values of depths `0..d`, level by level. */
  function Breadth(t: TreeNode, d: nat): seq<int> {
    if d == 0 then [] else Breadth(t, d - 1) + Level(t, d - 1)
  }

  lemma {:induction false} CreatedSize(value: int, depth: nat, index: int)
    ensures Size(CreateBinaryTreeNode(value, depth, index)) == Pow2(depth) - 1
    decreases depth
  {
    if depth > 0 {
      CreatedSize(value * 2, depth - 1, index * 2 + 1);
      CreatedSize(value * 2 + 1, depth - 1, index * 2 + 2);
    }
  }

  lemma RangeConcat(a: int, b: int, c: int)
    requires a <= b <= c
    ensures Range(a, b) + Range(b, c) == Range(a, c)
  {
  }

  /** Level `k` of the tree grown from `value` holds the `2^k` numbers from `value * 2^k` on. */
  lemma {:induction false} CreatedLevel(value: int, depth: nat, index: int, k: nat)
    requires k < depth
    ensures Level(CreateBinaryTreeNode(value, depth, index), k) == Range(value * Pow2(k), (value + 1) * Pow2(k))
    decreases k
  {
    if k > 0 {
      var p := Pow2(k - 1);
      var t := CreateBinaryTreeNode(value, depth, index);
      assert Level(t, k) == Level(t.left, k - 1) + Level(t.right, k - 1);
      CreatedLevel(value * 2, depth - 1, index * 2 + 1, k - 1);
      CreatedLevel(value * 2 + 1, depth - 1, index * 2 + 2, k - 1);
      HalvesOfLevel(value, p);
      RangeConcat(value * 2 * p, (value * 2 + 1) * p, (value * 2 + 2) * p);
    }
  }

  /** The two children's blocks of `p` numbers make up the parent's block of `2p`. */
  lemma HalvesOfLevel(value: int, p: nat)
    ensures value * 2 * p == value * (2 * p) && (value * 2 + 2) * p == (value + 1) * (2 * p)
    ensures value * 2 * p <= (value * 2 + 1) * p <= (value * 2 + 2) * p
  {
  }

  /** The first `d` levels of the tree from 1 of depth `depth >= d` list `1 .. 2^d - 1`. */
  lemma {:induction false} BreadthPrefix(depth: nat, d: nat)
    requires d <= depth
    ensures Breadth(CreateBinaryTreeNode(1, depth, 0), d) == Range(1, Pow2(d))
    decreases d
  {
    if d > 0 {
      var t, p := CreateBinaryTreeNode(1, depth, 0), Pow2(d - 1);
      assert Breadth(t, d) == Breadth(t, d - 1) + Level(t, d - 1);
      BreadthPrefix(depth, d - 1);
      CreatedLevel(1, depth, 0, d - 1);
      assert 1 * p == p && (1 + 1) * p == Pow2(d);
      RangeConcat(1, p, Pow2(d));
    }
  }

  /** The tree the page draws, from 1 with depth `d`, holds `2^d - 1` nodes
      numbered `1, 2, …, 2^d - 1` in breadth-first order, so no two share a number. */
  lemma HeapNumbered(d: nat)
    ensures Breadth(CreateBinaryTreeNode(1, d, 0), d) == Range(1, Pow2(d))
    ensures Size(CreateBinaryTreeNode(1, d, 0)) == Pow2(d) - 1
  {
    CreatedSize(1, d, 0);
    BreadthPrefix(d, d);
  }

  /** `calculateTreePositions(node, x, y, spacing)`: the node at `(x, y)`,
      its children half the spacing to either side and 3 lower. The source
      overwrites the positions of the objects in place; here the result is a
      new tree of the same shape. */
  function CalculateTreePositions(t: TreeNode, x: real, y: real, spacing: real): (r: TreeNode)
    ensures r.Nil? <==> t.Nil?
    ensures r.Node? ==> r.value == t.value && r.position == Point(x, y, 0.0)
  {
    if t.Nil? then Nil
    else Node(t.value,
              CalculateTreePositions(t.left, x - spacing / 2.0, y - 3.0, spacing / 2.0),
              CalculateTreePositions(t.right, x + spacing / 2.0, y - 3.0, spacing / 2.0),
              Point(x, y, 0.0))
  }

  /** The x positions in in-order: left subtree, node, right subtree. */
  function InOrderX(t: TreeNode): seq<real> {
    if t.Nil? then [] else InOrderX(t.left) + [t.position.x] + InOrderX(t.right)
  }

  predicate StrictlyIncreasing(xs: seq<real>) {
    forall i, j :: 0 <= i < j < |xs| ==> xs[i] < xs[j]
  }

  lemma JoinIncreasing(l: seq<real>, x: real, r: seq<real>)
    requires StrictlyIncreasing(l) && StrictlyIncreasing(r)
    requires forall i :: 0 <= i < |l| ==> l[i] < x
    requires forall i :: 0 <= i < |r| ==> x < r[i]
    ensures StrictlyIncreasing(l + [x] + r)
  {
    var s := l + [x] + r;
    forall i, j | 0 <= i < j < |s| ensures s[i] < s[j] {
      if j < |l| {
      } else if i < |l| {
        assert s[i] == l[i];
      } else if i == |l| {
        assert s[j] == r[j - |l| - 1];
      }
    }
  }

  /** With a positive spacing no two nodes share a column: from left to right
      in-order the x positions strictly increase, all within `spacing` of the root. */
  lemma {:induction false} LayoutSpread(t: TreeNode, x: real, y: real, spacing: real)
    requires spacing > 0.0
    ensures var xs := InOrderX(CalculateTreePositions(t, x, y, spacing));
      StrictlyIncreasing(xs) && forall i :: 0 <= i < |xs| ==> x - spacing < xs[i] < x + spacing
  {
    if t.Node? {
      var h := spacing / 2.0;
      LayoutSpread(t.left, x - h, y - 3.0, h);
      LayoutSpread(t.right, x + h, y - 3.0, h);
      var l := InOrderX(CalculateTreePositions(t.left, x - h, y - 3.0, h));
      var r := InOrderX(CalculateTreePositions(t.right, x + h, y - 3.0, h));
      JoinIncreasing(l, x, r);
      assert InOrderX(CalculateTreePositions(t, x, y, spacing)) == l + [x] + r;
    }
  }
}

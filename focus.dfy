/** Which elements a view focuses on for a step, and which it renders.
    The 3D visualizer and `VisualizationPlayer` each have their own
    `determineFocusedElements`, and they disagree. */
module Focus {
  import opened Wrappers
  import opened StepModel

  /** An absent list field read as empty. */
  function OrEmpty(f: Option<seq<int>>): seq<int> {
    if f.Some? then f.value else []
  }

  /** Append `x` unless `acc` already holds it. */
  function AddAbsent(acc: seq<int>, x: int): seq<int> {
    if x in acc then acc else acc + [x]
  }

  /** Append each of `xs` in turn unless already present. */
  function AddAllAbsent(acc: seq<int>, xs: seq<int>): seq<int>
    decreases |xs|
  {
    if |xs| == 0 then acc else AddAllAbsent(AddAbsent(acc, xs[0]), xs[1..])
  }

  /** The same, for a single optional index. */
  function AddOptional(acc: seq<int>, x: Option<int>): seq<int> {
    if x.Some? then AddAbsent(acc, x.value) else acc
  }

  /** `xs[from..]` repeats nothing, neither itself nor what comes before it. */
  predicate FreshFrom(xs: seq<int>, from: int) {
    0 <= from <= |xs| && forall a, b :: 0 <= a < b < |xs| && from <= b ==> xs[a] != xs[b]
  }

  /** `r` begins with `acc`. */
  predicate Extends(r: seq<int>, acc: seq<int>) {
    |r| >= |acc| && forall k :: 0 <= k < |acc| ==> r[k] == acc[k]
  }

  lemma AddAbsentFacts(acc: seq<int>, x: int, from: int)
    requires FreshFrom(acc, from)
    ensures var r := AddAbsent(acc, x);
      Extends(r, acc) && FreshFrom(r, from) && forall y :: y in r <==> y in acc || y == x
  {
  }

  lemma AddOptionalFacts(acc: seq<int>, x: Option<int>, from: int)
    requires FreshFrom(acc, from)
    ensures var r := AddOptional(acc, x);
      Extends(r, acc) && FreshFrom(r, from) && forall y :: y in r <==> y in acc || x == Some(y)
  {
    if x.Some? {
      AddAbsentFacts(acc, x.value, from);
    }
  }

  /** Adding absent elements keeps what was there, adds each of `xs`, and repeats nothing new. */
  lemma {:induction false} AddAllAbsentFacts(acc: seq<int>, xs: seq<int>, from: int)
    requires FreshFrom(acc, from)
    ensures var r := AddAllAbsent(acc, xs);
      Extends(r, acc) && FreshFrom(r, from) && forall y :: y in r <==> y in acc || y in xs
    decreases |xs|
  {
    if |xs| > 0 {
      var a := AddAbsent(acc, xs[0]);
      AddAbsentFacts(acc, xs[0], from);
      AddAllAbsentFacts(a, xs[1..], from);
      assert forall y :: y in xs <==> y == xs[0] || y in xs[1..];
    }
  }

  // ---------------------------------------------------------------------------
  // The 3D visualizer

  /** What the 3D visualizer collects before its initial/final fallback:
      `comparing`, then each absent `swapped`, `min_idx`, `pivot_index`, `checking_index`. */
  function Collected3D(s: Step): seq<int> {
    AddOptional(AddOptional(AddOptional(AddAllAbsent(OrEmpty(s.comparing), OrEmpty(s.swapped)),
      s.minIdx), s.pivotIndex), s.checkingIndex)
  }

  /** `determineFocusedElements` of the 3D visualizer. */
  function Focus3D(step: Option<Step>): (r: seq<int>)
    ensures step.None? ==> r == []
    ensures step.Some? ==> forall y :: Named(step.value, y) ==> y in r
    ensures step.Some? ==> forall y :: y in r ==> Named(step.value, y) || 0 <= y < |OrEmpty(step.value.state)|
  {
    if step.None? then []
    else
      var s := step.value;
      var c := Collected3D(s);
      Collected3DFacts(s);
      assert forall y :: y in Range(0, |OrEmpty(s.state)|) ==> 0 <= y < |OrEmpty(s.state)|;
      if |c| == 0 && (s.kind == Initial || s.kind == Final) then Range(0, |OrEmpty(s.state)|) else c
  }

  /** Some role field names an element. */
  predicate Named(s: Step, y: int) {
    y in OrEmpty(s.comparing) || y in OrEmpty(s.swapped) ||
    s.minIdx == Some(y) || s.pivotIndex == Some(y) || s.checkingIndex == Some(y)
  }

  /** What the 3D view collects starts with `comparing` as given, then adds
      every other named element once; it is exactly the named elements. */
  lemma Collected3DFacts(s: Step)
    ensures var f := Collected3D(s); var c := OrEmpty(s.comparing);
      Extends(f, c) && FreshFrom(f, |c|) && forall y :: y in f <==> Named(s, y)
  {
    var c := OrEmpty(s.comparing);
    AddAllAbsentFacts(c, OrEmpty(s.swapped), |c|);
    var a := AddAllAbsent(c, OrEmpty(s.swapped));
    AddOptionalFacts(a, s.minIdx, |c|);
    var b := AddOptional(a, s.minIdx);
    AddOptionalFacts(b, s.pivotIndex, |c|);
    var d := AddOptional(b, s.pivotIndex);
    AddOptionalFacts(d, s.checkingIndex, |c|);
  }

  /** The 3D focus: when something is named, the collected elements (so, after
      `comparing`, no element twice); when nothing is, every index of an
      initial or final step and nothing for any other step. */
  lemma Focus3DCases(s: Step)
    ensures (exists y :: Named(s, y)) ==> Focus3D(Some(s)) == Collected3D(s)
    ensures (forall y :: !Named(s, y)) ==>
      Focus3D(Some(s)) == if s.kind == Initial || s.kind == Final then Range(0, |OrEmpty(s.state)|) else []
  {
    var f := Collected3D(s);
    Collected3DFacts(s);
    if |f| > 0 {
      assert Named(s, f[0]);
    }
  }

  /** The 3D visualizer's handler: pushes into a local array. */
  method DetermineFocused3D(step: Option<Step>) returns (focused: seq<int>)
    ensures focused == Focus3D(step)
  {
    if step.None? {
      return [];
    }
    var s := step.value;
    focused := [];
    if s.comparing.Some? && |s.comparing.value| > 0 {
      focused := s.comparing.value;
    }
    if s.swapped.Some? && |s.swapped.value| > 0 {
      var xs := s.swapped.value;
      for k := 0 to |xs|
        invariant AddAllAbsent(focused, xs[k..]) == AddAllAbsent(OrEmpty(s.comparing), xs)
      {
        assert xs[k..][1..] == xs[k + 1..];
        if xs[k] !in focused {
          focused := focused + [xs[k]];
        }
      }
    }
    if s.minIdx.Some? && s.minIdx.value !in focused {
      focused := focused + [s.minIdx.value];
    }
    if s.pivotIndex.Some? && s.pivotIndex.value !in focused {
      focused := focused + [s.pivotIndex.value];
    }
    if s.checkingIndex.Some? && s.checkingIndex.value !in focused {
      focused := focused + [s.checkingIndex.value];
    }
    if |focused| == 0 && (s.kind == Initial || s.kind == Final) {
      var n := |OrEmpty(s.state)|;
      focused := Range(0, n);
    }
  }

  // ---------------------------------------------------------------------------
  // VisualizationPlayer

  /** `determineFocusedElements` of `VisualizationPlayer`: `comparing` and
      absent `swapped`, replaced wholesale by `current_focus`, and replaced
      by every index on initial and final steps. */
  function FocusPlayer(step: Option<Step>): (r: seq<int>)
    ensures step.None? ==> r == []
    ensures step.Some? && (step.value.kind == Initial || step.value.kind == Final) ==>
      forall y :: y in r <==> 0 <= y < |OrEmpty(step.value.state)|
    ensures step.Some? && step.value.kind != Initial && step.value.kind != Final && step.value.currentFocus.None? ==>
      forall y :: y in r <==> y in OrEmpty(step.value.comparing) || y in OrEmpty(step.value.swapped)
  {
    if step.None? then []
    else
      var s := step.value;
      var c := OrEmpty(s.comparing);
      AddAllAbsentFacts(c, OrEmpty(s.swapped), |c|);
      assert forall y :: y in Range(0, |OrEmpty(s.state)|) <==> 0 <= y < |OrEmpty(s.state)| by {
        forall y { RangeMembership(0, |OrEmpty(s.state)|, y); }
      }
      if s.kind == Initial || s.kind == Final then Range(0, |OrEmpty(s.state)|)
      else if s.currentFocus.Some? then s.currentFocus.value
      else AddAllAbsent(OrEmpty(s.comparing), OrEmpty(s.swapped))
  }

  /** `current_focus` wins over `comparing` and `swapped`; on initial and
      final steps every index wins over `current_focus`. */
  lemma FocusPlayerPrecedence(s: Step)
    ensures s.kind == Initial || s.kind == Final ==> FocusPlayer(Some(s)) == Range(0, |OrEmpty(s.state)|)
    ensures s.kind != Initial && s.kind != Final && s.currentFocus.Some? ==> FocusPlayer(Some(s)) == s.currentFocus.value
    ensures s.kind != Initial && s.kind != Final && s.currentFocus.None? ==>
      forall y :: y in FocusPlayer(Some(s)) <==> y in OrEmpty(s.comparing) || y in OrEmpty(s.swapped)
  {
    var c := OrEmpty(s.comparing);
    AddAllAbsentFacts(c, OrEmpty(s.swapped), |c|);
  }

  method DetermineFocusedPlayer(step: Option<Step>) returns (focused: seq<int>)
    ensures focused == FocusPlayer(step)
  {
    focused := [];
    if step.None? {
      return;
    }
    var s := step.value;
    if s.comparing.Some? && |s.comparing.value| > 0 {
      focused := s.comparing.value;
    }
    if s.swapped.Some? && |s.swapped.value| > 0 {
      var xs := s.swapped.value;
      for k := 0 to |xs|
        invariant AddAllAbsent(focused, xs[k..]) == AddAllAbsent(OrEmpty(s.comparing), xs)
      {
        assert xs[k..][1..] == xs[k + 1..];
        if xs[k] !in focused {
          focused := focused + [xs[k]];
        }
      }
    }
    if s.currentFocus.Some? {
      focused := s.currentFocus.value;
    }
    if s.kind == Initial || s.kind == Final {
      var n := |OrEmpty(s.state)|;
      focused := Range(0, n);
    }
  }

  /** The two variants really differ: on an initial step that compares a
      pair the 3D view focuses on the pair, the player on every element; on
      a comparison step with a minimum the player drops the minimum. */
  lemma VariantsDiffer()
    ensures var s := Blank(Initial, "").(state := Some([5, 3, 8]), comparing := Some([0, 1]));
      Focus3D(Some(s)) == [0, 1] && FocusPlayer(Some(s)) == [0, 1, 2]
    ensures var s := Blank(Comparison, "").(state := Some([5, 3, 8]), comparing := Some([0, 1]), minIdx := Some(2));
      Focus3D(Some(s)) == [0, 1, 2] && FocusPlayer(Some(s)) == [0, 1]
  {
    var s := Blank(Initial, "").(state := Some([5, 3, 8]), comparing := Some([0, 1]));
    assert Range(0, 3) == [0, 1, 2];
  }

  // ---------------------------------------------------------------------------
  // What the 3D visualizer renders

  /** `elementsToRender`: in focus mode, on a step other than initial or
      final, with something focused, only the focused indices; else all. */
  function ElementsToRender(s: Step, focused: seq<int>, focusMode: bool): seq<int> {
    if focusMode && s.kind != Initial && s.kind != Final && |focused| > 0 then focused
    else Range(0, |OrEmpty(s.state)|)
  }

  /** The indices actually drawn: indices with no value behind them are skipped. */
  function Drawn(candidates: seq<int>, n: int): (r: seq<int>)
    ensures forall y :: y in r <==> y in candidates && 0 <= y < n
    decreases |candidates|
  {
    if |candidates| == 0 then []
    else
      var rest := Drawn(candidates[1..], n);
      assert forall y :: y in candidates <==> y == candidates[0] || y in candidates[1..];
      if 0 <= candidates[0] < n then [candidates[0]] + rest else rest
  }

  /** Focus mode narrows the drawing to the focused elements that exist; otherwise every element is drawn once, in order. */
  lemma RenderedElements(s: Step, focused: seq<int>, focusMode: bool)
    ensures var n := |OrEmpty(s.state)|; var r := Drawn(ElementsToRender(s, focused, focusMode), n);
      (focusMode && s.kind != Initial && s.kind != Final && |focused| > 0 ==>
        forall y :: y in r <==> y in focused && 0 <= y < n) &&
      (!(focusMode && s.kind != Initial && s.kind != Final && |focused| > 0) ==> r == Range(0, n))
  {
    var n := |OrEmpty(s.state)|;
    if !(focusMode && s.kind != Initial && s.kind != Final && |focused| > 0) {
      DrawnInRange(0, n);
    }
  }

  lemma {:induction false} DrawnInRange(lo: int, n: int)
    requires 0 <= lo
    ensures Drawn(Range(lo, n), n) == Range(lo, n)
    decreases n - lo
  {
    if lo < n {
      assert Range(lo, n)[1..] == Range(lo + 1, n);
      DrawnInRange(lo + 1, n);
    }
  }
}

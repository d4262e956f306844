/** The shared three.js helpers, reduced to what they decide: where elements
    go, which elements are created and in which order, which indicator
    arrows connect which objects, and the hover effect's record-and-restore. */
module Scene {
  import opened Wrappers
  import opened StepModel
  import opened Roles

  // ---------------------------------------------------------------------------
  // Centred layout

  /** `startX + i * (size + spacing)` with `startX = -totalWidth / 2 + size / 2`
      and `totalWidth = n * (size + spacing) - spacing`. Every view lays its
      elements out this way with its own size and spacing. */
  function CentredX(i: int, n: int, size: real, spacing: real): real {
    var totalWidth := n as real * (size + spacing) - spacing;
    var startX := -totalWidth / 2.0 + size / 2.0;
    startX + i as real * (size + spacing)
  }

  /** The layout is symmetric about 0, and neighbours sit one pitch apart. */
  lemma CentredSymmetric(i: int, n: int, size: real, spacing: real)
    ensures CentredX(i, n, size, spacing) + CentredX(n - 1 - i, n, size, spacing) == 0.0
    ensures CentredX(i + 1, n, size, spacing) - CentredX(i, n, size, spacing) == size + spacing
  {
  }

  /** `ShapeFactory.getPositionAdjustment`: a sphere is lifted by `0.7` of its
      size, every other shape (cube, cylinder, pyramid, unknown) by half its height. */
  function PositionAdjustment(shape: string, size: real, height: real): (y: real)
    ensures shape == "sphere" ==> y == size * 0.7
    ensures shape != "sphere" ==> y == height / 2.0
  {
    match shape
    case "cylinder" => height / 2.0
    case "pyramid" => height / 2.0
    case "cube" => height / 2.0
    case "sphere" => size * 0.7
    case _ => height / 2.0
  }

  // ---------------------------------------------------------------------------
  // The elements of a step

  /** An object `createVisualizationElements` pushes: the mesh of element `index`,
      the value label above it, or an indicator arrow between two objects. */
  datatype SceneObject =
    | Mesh(index: int, x: real, colour: int)
    | Label(value: int, x: real)
    | Comparator(from: SceneObject, to: SceneObject)
    | Swapper(from: SceneObject, to: SceneObject)

  /** `arr[i]` of a JavaScript array: `undefined` outside `[0, |arr|)`. */
  function At(objects: seq<SceneObject>, i: int): Option<SceneObject> {
    if 0 <= i < |objects| then Some(objects[i]) else None
  }

  /** The options of `createVisualizationElements` this model keeps (the shape only changes geometry). */
  datatype ElementOptions = ElementOptions(baseSize: real, spacing: real, showLabels: bool, maxItems: int)

  const DefaultOptions := ElementOptions(8.0, 12.0, true, 20)

  /** The length of `slice(0, maxItems)` of an array of length `n`: a negative
      bound counts from the end. */
  function SliceLength(n: nat, maxItems: int): (r: nat)
    ensures r <= n
    ensures 0 <= maxItems ==> r == if maxItems < n then maxItems else n
    ensures maxItems < 0 ==> r == if n + maxItems < 0 then 0 else n + maxItems
  {
    if 0 <= maxItems then (if maxItems < n then maxItems else n)
    else if n + maxItems < 0 then 0 else n + maxItems
  }

  /** Objects per element: the mesh, and the label when labels are shown. */
  function PerElement(showLabels: bool): nat {
    if showLabels then 2 else 1
  }

  /** The meshes (and labels) of the first `k` values of `data`, laid out for all of `data`. */
  function ElementPrefix(step: Step, data: seq<int>, k: nat, o: ElementOptions): (r: seq<SceneObject>)
    requires k <= |data|
    ensures |r| == PerElement(o.showLabels) * k
  {
    if k == 0 then []
    else
      var i := k - 1;
      var x := CentredX(i, |data|, o.baseSize, o.spacing);
      ElementPrefix(step, data, i, o) + [Mesh(i, x, ColourThreeJs(i, Some(step)))] +
        (if o.showLabels then [Label(data[i], x)] else [])
  }

  function ElementObjects(step: Step, data: seq<int>, o: ElementOptions): seq<SceneObject> {
    ElementPrefix(step, data, |data|, o)
  }

  /** Where the mesh of element `i` sits in the list: every other slot when labels are shown. */
  function MeshSlot(i: int, showLabels: bool): int {
    if showLabels then 2 * i else i
  }

  /** Element `i` (below `k`) is drawn at its slot, at its centred position, in
      its role's colour, and its label (when shown) follows with its value. */
  lemma {:induction false} ElementAtSlot(step: Step, data: seq<int>, k: nat, o: ElementOptions, i: int)
    requires k <= |data| && 0 <= i < k
    ensures var objects, m := ElementPrefix(step, data, k, o), MeshSlot(i, o.showLabels);
      0 <= m < |objects| &&
      objects[m] == Mesh(i, CentredX(i, |data|, o.baseSize, o.spacing), ColourThreeJs(i, Some(step))) &&
      (o.showLabels ==> m + 1 < |objects| && objects[m + 1] == Label(data[i], objects[m].x))
  {
    var prefix := ElementPrefix(step, data, k - 1, o);
    if i < k - 1 {
      ElementAtSlot(step, data, k - 1, o, i);
      var m := MeshSlot(i, o.showLabels);
      assert ElementPrefix(step, data, k, o)[m] == prefix[m];
      if o.showLabels {
        assert ElementPrefix(step, data, k, o)[m + 1] == prefix[m + 1];
      }
    } else {
      assert |prefix| == MeshSlot(i, o.showLabels);
    }
  }

  /** An indicator between the objects at `c[0]` and `c[1]` of the list, as
      the helper looks them up: any index below the list's length passes, and
      a missing object (a negative index) gives no arrow. */
  function IndicatorEndsAsWritten(objects: seq<SceneObject>, c: seq<int>): Option<(SceneObject, SceneObject)>
    requires |c| == 2
  {
    if c[0] < |objects| && c[1] < |objects| && At(objects, c[0]).Some? && At(objects, c[1]).Some?
    then Some((objects[c[0]], objects[c[1]])) else None
  }

  /** With labels shown the list interleaves meshes and labels, so the arrow
      for comparing elements 1 and 2 of `[3, 1, 2]` joins element 0's label
      and element 1's mesh. */
  lemma IndicatorMisaligned()
    ensures var s := Blank(Comparison, "").(state := Some([3, 1, 2]), comparing := Some([1, 2]));
      var ends := IndicatorEndsAsWritten(ElementObjects(s, [3, 1, 2], DefaultOptions), [1, 2]);
      ends.Some? && ends.value.0 == Label(3, CentredX(0, 3, 8.0, 12.0)) &&
      ends.value.1.Mesh? && ends.value.1.index == 1
  {
    var s := Blank(Comparison, "").(state := Some([3, 1, 2]), comparing := Some([1, 2]));
    ElementAtSlot(s, [3, 1, 2], 3, DefaultOptions, 0);
    ElementAtSlot(s, [3, 1, 2], 3, DefaultOptions, 1);
  }

  /** The lookup the helper evidently intends: the meshes of elements `c[0]`
      and `c[1]` of the `n` drawn, when both exist. */
  function IndicatorEnds(objects: seq<SceneObject>, n: int, c: seq<int>, showLabels: bool): Option<(SceneObject, SceneObject)>
    requires |c| == 2
  {
    if 0 <= c[0] < n && 0 <= c[1] < n && MeshSlot(c[0], showLabels) < |objects| && MeshSlot(c[1], showLabels) < |objects|
    then Some((objects[MeshSlot(c[0], showLabels)], objects[MeshSlot(c[1], showLabels)])) else None
  }

  /** The arrows of a step over its drawn elements: a comparison arrow for a
      `comparing` of exactly two drawn indices, then a swap arrow likewise. */
  function Indicators(elements: seq<SceneObject>, n: int, s: Step, showLabels: bool): seq<SceneObject> {
    var compare := if s.comparing.Some? && |s.comparing.value| == 2 then IndicatorEnds(elements, n, s.comparing.value, showLabels) else None;
    var swap := if s.swapped.Some? && |s.swapped.value| == 2 then IndicatorEnds(elements, n, s.swapped.value, showLabels) else None;
    (if compare.Some? then [Comparator(compare.value.0, compare.value.1)] else []) +
    (if swap.Some? then [Swapper(swap.value.0, swap.value.1)] else [])
  }

  /** The corrected lookup joins the meshes of exactly the two indices named,
      and draws no arrow when either is not drawn. */
  lemma IndicatorJoinsMeshes(step: Step, data: seq<int>, o: ElementOptions, c: seq<int>)
    requires |c| == 2
    ensures var ends := IndicatorEnds(ElementObjects(step, data, o), |data|, c, o.showLabels);
      (ends.Some? <==> 0 <= c[0] < |data| && 0 <= c[1] < |data|) &&
      (ends.Some? ==> ends.value.0.Mesh? && ends.value.0.index == c[0] &&
                      ends.value.1.Mesh? && ends.value.1.index == c[1])
  {
    if 0 <= c[0] < |data| && 0 <= c[1] < |data| {
      ElementAtSlot(step, data, |data|, o, c[0]);
      ElementAtSlot(step, data, |data|, o, c[1]);
    }
  }

  /** `createVisualizationElements`: nothing without a scene, a step or a
      state; else the first `maxItems` values drawn in order, then their arrows. */
  method CreateVisualizationElements(hasScene: bool, step: Option<Step>, o: ElementOptions)
    returns (objects: seq<SceneObject>)
    ensures !hasScene || step.None? || step.value.state.None? ==> objects == []
    ensures hasScene && step.Some? && step.value.state.Some? ==>
      var all := step.value.state.value;
      var data := all[..SliceLength(|all|, o.maxItems)];
      objects == ElementObjects(step.value, data, o) + Indicators(ElementObjects(step.value, data, o), |data|, step.value, o.showLabels)
  {
    if !hasScene || step.None? || step.value.state.None? {
      return [];
    }
    var s := step.value;
    var all := s.state.value;
    var data := all[..SliceLength(|all|, o.maxItems)];
    objects := [];
    for i := 0 to |data|
      invariant objects == ElementPrefix(s, data, i, o)
    {
      var x := CentredX(i, |data|, o.baseSize, o.spacing);
      objects := objects + [Mesh(i, x, ColourThreeJs(i, step))];
      if o.showLabels {
        objects := objects + [Label(data[i], x)];
      }
    }
    var elements := objects;
    if s.comparing.Some? && |s.comparing.value| == 2 {
      var ends := IndicatorEnds(elements, |data|, s.comparing.value, o.showLabels);
      if ends.Some? {
        objects := objects + [Comparator(ends.value.0, ends.value.1)];
      }
    }
    if s.swapped.Some? && |s.swapped.value| == 2 {
      var ends := IndicatorEnds(elements, |data|, s.swapped.value, o.showLabels);
      if ends.Some? {
        objects := objects + [Swapper(ends.value.0, ends.value.1)];
      }
    }
  }


  // ---------------------------------------------------------------------------
  // The overlays of the 3D visualizer and the enhanced player, which keep
  // meshes by element index (the visualization player draws the same arcs
  // as the 3D visualizer and is not modelled separately)

  /** An overlay the 3D visualizer or the enhanced player draws over its meshes. */
  datatype Overlay = CompareArc(a: int, b: int) | SwapArc(a: int, b: int) | PartitionLine(pivot: int) | PivotMarker(pivot: int)

  /** An arc between the first two of `pair`, when the field has enough
      entries (at least two, or exactly two when `exact`) and both meshes exist. */
  function Arc(pair: Option<seq<int>>, drawn: set<int>, exact: bool, swap: bool): seq<Overlay> {
    if pair.Some? && (if exact then |pair.value| == 2 else |pair.value| >= 2) &&
       pair.value[0] in drawn && pair.value[1] in drawn
    then [if swap then SwapArc(pair.value[0], pair.value[1]) else CompareArc(pair.value[0], pair.value[1])]
    else []
  }

  /** `addOperationIndicators` of the 3D visualizer over the meshes in `drawn`:
      arcs for two or more indices, then, on a `partition` step, the
      partition line (skipped for a missing or zero pivot or a pivot without a
      mesh), or, on a `pivot` step, the pivot marker. */
  function Overlays3D(s: Step, drawn: set<int>): (r: seq<Overlay>)
    ensures |r| <= 3
    ensures forall o :: o in r && (o.CompareArc? || o.SwapArc?) ==> o.a in drawn && o.b in drawn
    ensures forall o :: o in r && o.PartitionLine? ==>
      s.kind == Partition && s.pivotIndex == Some(o.pivot) && o.pivot != 0 && o.pivot in drawn
    ensures forall o :: o in r && o.PivotMarker? ==>
      s.kind == Pivot && s.pivotIndex == Some(o.pivot) && o.pivot in drawn
  {
    Arc(s.comparing, drawn, false, false) + Arc(s.swapped, drawn, false, true) +
    (if s.kind == Partition then
       (if s.pivotIndex.Some? && s.pivotIndex.value != 0 && s.pivotIndex.value in drawn
        then [PartitionLine(s.pivotIndex.value)] else [])
     else if s.kind == Pivot then
       (if s.pivotIndex.Some? && s.pivotIndex.value in drawn then [PivotMarker(s.pivotIndex.value)] else [])
     else [])
  }

  /** The enhanced player's arcs: only for exactly two indices, each joining
      the two indices the step names, in order. */
  function OverlaysEnhanced(s: Step, drawn: set<int>): (r: seq<Overlay>)
    ensures |r| <= 2
    ensures forall o :: o in r ==>
      (o.CompareArc? && s.comparing.Some? && [o.a, o.b] == s.comparing.value) ||
      (o.SwapArc? && s.swapped.Some? && [o.a, o.b] == s.swapped.value)
    ensures forall o :: o in r ==> o.a in drawn && o.b in drawn
  {
    var c, w := Arc(s.comparing, drawn, true, false), Arc(s.swapped, drawn, true, true);
    assert c != [] ==> s.comparing.value == [s.comparing.value[0], s.comparing.value[1]];
    assert w != [] ==> s.swapped.value == [s.swapped.value[0], s.swapped.value[1]];
    c + w
  }

  /** On pairs and outside `partition` and `pivot` steps the two players draw
      the same arcs; a three-index comparison gets an arc in the 3D
      visualizer and not in the enhanced player. */
  lemma OverlaysAgree(s: Step, drawn: set<int>)
    ensures (s.comparing.None? || |s.comparing.value| == 2) && (s.swapped.None? || |s.swapped.value| == 2) &&
            s.kind != Partition && s.kind != Pivot
            ==> Overlays3D(s, drawn) == OverlaysEnhanced(s, drawn)
    ensures s.comparing == Some([0, 1, 2]) && s.swapped.None? && {0, 1} <= drawn ==>
      OverlaysEnhanced(s, drawn) == [] && CompareArc(0, 1) in Overlays3D(s, drawn)
  {
  }

  // ---------------------------------------------------------------------------
  // Hover

  /** What `applyHoverEffect` records in `userData.originalMaterial`. */
  datatype Recorded = Recorded(emissiveIntensity: real, scale: real)

  /** A hoverable object's material intensity, scale and record. */
  datatype HoverState = HoverState(hasMaterial: bool, emissiveIntensity: real, scale: real, original: Option<Recorded>)

  /** `applyHoverEffect`: record once, then double the glow and enlarge. */
  function Applied(h: HoverState): HoverState {
    if !h.hasMaterial || h.original.Some? then h
    else h.(original := Some(Recorded(h.emissiveIntensity, h.scale)),
            emissiveIntensity := h.emissiveIntensity * 2.0, scale := 1.1)
  }

  /** `resetHoverEffect` as written: restore the glow, set the scale to 1, drop the record. */
  function ResetAsWritten(h: HoverState): HoverState {
    if !h.hasMaterial || h.original.None? then h
    else h.(emissiveIntensity := h.original.value.emissiveIntensity, scale := 1.0, original := None)
  }

  /** The reset the record was kept for: the recorded scale comes back too. */
  function Reset(h: HoverState): HoverState {
    if !h.hasMaterial || h.original.None? then h
    else h.(emissiveIntensity := h.original.value.emissiveIntensity, scale := h.original.value.scale, original := None)
  }

  /** A second hover changes nothing; a reset without a record changes nothing. */
  lemma HoverIdempotent(h: HoverState)
    ensures Applied(Applied(h)) == Applied(h)
    ensures h.original.None? ==> Reset(h) == h && ResetAsWritten(h) == h
  {
  }

  /** As written, hover then reset restores the glow but not a scale other than 1. */
  lemma ResetForgetsScale()
    ensures var h := HoverState(true, 0.2, 1.2, None);
      ResetAsWritten(Applied(h)).emissiveIntensity == h.emissiveIntensity &&
      ResetAsWritten(Applied(h)).scale == 1.0 != h.scale
  {
  }

  /** Hover then reset is the identity on an object with no record. */
  lemma HoverRoundTrip(h: HoverState)
    requires h.original.None?
    ensures Reset(Applied(h)) == h
    ensures ResetAsWritten(Applied(h)).emissiveIntensity == h.emissiveIntensity
  {
  }

  /** A hoverable mesh: the fields the hover helpers read and write. */
  class Hoverable {
    var hasMaterial: bool
    var emissiveIntensity: real
    var scale: real
    var original: Option<Recorded>

    function State(): HoverState
      reads this
    {
      HoverState(hasMaterial, emissiveIntensity, scale, original)
    }

    constructor(hasMaterial: bool, emissiveIntensity: real)
      ensures State() == HoverState(hasMaterial, emissiveIntensity, 1.0, None)
    {
      this.hasMaterial := hasMaterial;
      this.emissiveIntensity := emissiveIntensity;
      this.scale := 1.0;
      this.original := None;
    }

    method ApplyHoverEffect()
      modifies this
      ensures State() == Applied(old(State()))
    {
      if !hasMaterial {
        return;
      }
      if original.None? {
        original := Some(Recorded(emissiveIntensity, scale));
        emissiveIntensity := emissiveIntensity * 2.0;
        scale := 1.1;
      }
    }

    /** Restores the recorded glow and the recorded scale (see `ResetAsWritten`
        for the helper's fixed scale of 1). */
    method ResetHoverEffect()
      modifies this
      ensures State() == Reset(old(State()))
    {
      if !hasMaterial || original.None? {
        return;
      }
      emissiveIntensity := original.value.emissiveIntensity;
      scale := original.value.scale;
      original := None;
    }
  }
}

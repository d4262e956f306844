/** How each view turns an element's roles in a step into a colour or a
    status text. Every view runs its own if-chain over the step's role
    fields; each chain is shown equal to "the first role, in the view's
    priority order, that the element holds". */
module Roles {
  import opened Wrappers
  import opened StepModel

  /** A role an element can hold in a step. `Gated(k, r)` holds only on a
      step of type `k` (the static page checks the type first). */
  datatype Role =
    | Compared | Swapping | SortedRole | MinRole | PivotRole
    | SelectedRole | HighlightedRole | CheckingRole
    | Gated(kind: Kind, role: Role)

  predicate Holds(s: Step, i: int, r: Role) {
    match r
    case Compared => Has(s.comparing, i)
    case Swapping => Has(s.swapped, i)
    case SortedRole => Has(s.sortedIndices, i)
    case MinRole => Is(s.minIdx, i)
    case PivotRole => Is(s.pivotIndex, i)
    case SelectedRole => Has(s.selected, i)
    case HighlightedRole => Has(s.highlighted, i)
    case CheckingRole => Is(s.checkingIndex, i)
    case Gated(k, inner) => s.kind == k && Holds(s, i, inner)
  }

  /** The position in `order` of the first role `i` holds in `s`, or `|order|` when it holds none. */
  function FirstRole(s: Step, i: int, order: seq<Role>): (k: int)
    ensures 0 <= k <= |order|
    ensures k < |order| ==> Holds(s, i, order[k])
    ensures forall m :: 0 <= m < k ==> !Holds(s, i, order[m])
  {
    if |order| == 0 then 0
    else if Holds(s, i, order[0]) then 0
    else 1 + FirstRole(s, i, order[1..])
  }

  // ---------------------------------------------------------------------------
  // Theme slots and palettes

  /** The colour-theme entry a chain picks; the themes map entries to hex colours. */
  datatype Slot = DefaultSlot | ComparisonSlot | SwapSlot | SortedSlot | SelectedSlot

  function SlotOf(r: Role): Slot {
    match r
    case Compared => ComparisonSlot
    case Swapping => SwapSlot
    case SortedRole => SortedSlot
    case Gated(_, inner) => SlotOf(inner)
    case _ => SelectedSlot
  }

  /** The slot of the first role held, or the default. */
  function SlotByPriority(s: Step, i: int, order: seq<Role>): Slot {
    var k := FirstRole(s, i, order);
    if k == |order| then DefaultSlot else SlotOf(order[k])
  }

  /** The `ColorThemes` palette of the shared three.js helpers, also written
      inline by the enhanced player. */
  function ThemeHex(slot: Slot): int {
    match slot
    case DefaultSlot => 0x3b82f6
    case ComparisonSlot => 0xef4444
    case SwapSlot => 0xf59e0b
    case SortedSlot => 0x10b981
    case SelectedSlot => 0x9333ea
  }

  /** The static page's palette. */
  function StaticHex(slot: Slot): int {
    match slot
    case DefaultSlot => 0x3b82f6
    case ComparisonSlot => 0xef4444
    case SwapSlot => 0xf59e0b
    case SortedSlot => 0x22c55e
    case SelectedSlot => 0x8b5cf6
  }

  // ---------------------------------------------------------------------------
  // The chains, view by view

  const Order3D := [Compared, Swapping, SortedRole, MinRole, PivotRole, CheckingRole]

  /** `getElementColor` of the 3D visualizer, as a theme slot. */
  function Colour3D(i: int, s: Step): Slot {
    if Has(s.comparing, i) then ComparisonSlot
    else if Has(s.swapped, i) then SwapSlot
    else if Has(s.sortedIndices, i) then SortedSlot
    else if Is(s.minIdx, i) || Is(s.pivotIndex, i) then SelectedSlot
    else if Is(s.checkingIndex, i) then SelectedSlot
    else DefaultSlot
  }

  lemma Colour3DPriority(i: int, s: Step)
    ensures Colour3D(i, s) == SlotByPriority(s, i, Order3D)
  {
    PriorityUnfold6(s, i, Order3D);
  }

  const OrderPlayer := [Compared, Swapping, SortedRole, SelectedRole, MinRole, HighlightedRole]

  /** `getElementColor` of `VisualizationPlayer`, which also knows `selected` and `highlighted`. */
  function ColourPlayer(i: int, s: Step): Slot {
    if Has(s.comparing, i) then ComparisonSlot
    else if Has(s.swapped, i) then SwapSlot
    else if Has(s.sortedIndices, i) then SortedSlot
    else if Has(s.selected, i) then SelectedSlot
    else if Is(s.minIdx, i) then SelectedSlot
    else if Has(s.highlighted, i) then SelectedSlot
    else DefaultSlot
  }

  lemma ColourPlayerPriority(i: int, s: Step)
    ensures ColourPlayer(i, s) == SlotByPriority(s, i, OrderPlayer)
  {
    PriorityUnfold6(s, i, OrderPlayer);
  }

  const OrderThreeJs := [Compared, Swapping, SortedRole, MinRole, PivotRole]

  /** `getElementColor` of the three.js helpers; a missing step is drawn in the default colour. */
  function ColourThreeJs(i: int, step: Option<Step>): int {
    if step.None? then ThemeHex(DefaultSlot)
    else
      var s := step.value;
      if Has(s.comparing, i) then 0xef4444
      else if Has(s.swapped, i) then 0xf59e0b
      else if Has(s.sortedIndices, i) then 0x10b981
      else if Is(s.minIdx, i) || Is(s.pivotIndex, i) then 0x9333ea
      else 0x3b82f6
  }

  lemma ColourThreeJsPriority(i: int, s: Step)
    ensures ColourThreeJs(i, Some(s)) == ThemeHex(SlotByPriority(s, i, OrderThreeJs))
  {
    PriorityUnfold5(s, i, OrderThreeJs);
  }

  /** The colour the enhanced player writes inline while building its scene. */
  function ColourEnhanced(i: int, s: Step): int {
    if Has(s.comparing, i) then 0xef4444
    else if Has(s.swapped, i) then 0xf59e0b
    else if Has(s.sortedIndices, i) then 0x10b981
    else if Is(s.minIdx, i) || Is(s.pivotIndex, i) then 0x9333ea
    else 0x3b82f6
  }

  /** The enhanced player's inline rule is the shared helper's, colour for colour. */
  lemma EnhancedMatchesThreeJs(i: int, s: Step)
    ensures ColourEnhanced(i, s) == ColourThreeJs(i, Some(s))
  {
  }

  /** The 3D view and the shared helper pick the same theme entry except
      for an element that is only being checked: the 3D view highlights it,
      the helper leaves it plain. */
  lemma ThreeJsIgnoresChecking(i: int, s: Step)
    ensures Colour3D(i, s) != SlotByPriority(s, i, OrderThreeJs) <==>
      FirstRole(s, i, OrderThreeJs) == |OrderThreeJs| && Is(s.checkingIndex, i)
  {
    Colour3DPriority(i, s);
    PriorityUnfold5(s, i, OrderThreeJs);
  }

  const OrderStatic := [Gated(Comparison, Compared), Gated(Swap, Swapping), SortedRole,
                        Gated(MinSelected, MinRole), Gated(NewMin, MinRole)]

  /** The static page's bar colour: comparison and swap colours only on steps
      of that type, the minimum colour only on `min_selected`/`new_min` steps. */
  function ColourStatic(i: int, s: Step): int {
    if s.kind == Comparison && Has(s.comparing, i) then 0xef4444
    else if s.kind == Swap && Has(s.swapped, i) then 0xf59e0b
    else if Has(s.sortedIndices, i) then 0x22c55e
    else if s.kind == MinSelected && Is(s.minIdx, i) then 0x8b5cf6
    else if s.kind == NewMin && Is(s.minIdx, i) then 0x8b5cf6
    else 0x3b82f6
  }

  lemma ColourStaticPriority(i: int, s: Step)
    ensures ColourStatic(i, s) == StaticHex(SlotByPriority(s, i, OrderStatic))
  {
    PriorityUnfold5(s, i, OrderStatic);
  }

  // ---------------------------------------------------------------------------
  // Status and role texts

  function StatusText(r: Role): string {
    match r
    case Compared => "Being compared"
    case Swapping => "Being swapped"
    case SortedRole => "Sorted"
    case MinRole => "Current minimum"
    case PivotRole => "Pivot element"
    case CheckingRole => "Being checked"
    case _ => "Standard element"
  }

  function StatusByPriority(s: Step, i: int, order: seq<Role>): string {
    var k := FirstRole(s, i, order);
    if k == |order| then "Standard element" else StatusText(order[k])
  }

  /** `getElementStatus` of the three.js helpers. */
  function StatusThreeJs(i: int, step: Option<Step>): string {
    if step.None? then "Standard element"
    else
      var s := step.value;
      if Has(s.comparing, i) then "Being compared"
      else if Has(s.swapped, i) then "Being swapped"
      else if Has(s.sortedIndices, i) then "Sorted"
      else if Is(s.minIdx, i) then "Current minimum"
      else if Is(s.pivotIndex, i) then "Pivot element"
      else if Is(s.checkingIndex, i) then "Being checked"
      else "Standard element"
  }

  lemma StatusThreeJsPriority(i: int, s: Step)
    ensures StatusThreeJs(i, Some(s)) == StatusByPriority(s, i, Order3D)
  {
    PriorityUnfold6(s, i, Order3D);
  }

  const OrderEnhanced := [Compared, Swapping, SortedRole, MinRole, PivotRole]

  /** `getElementStatus` of the enhanced player, which has no checking status. */
  function StatusEnhanced(i: int, s: Step): string {
    if Has(s.comparing, i) then "Being compared"
    else if Has(s.swapped, i) then "Being swapped"
    else if Has(s.sortedIndices, i) then "Sorted"
    else if Is(s.minIdx, i) then "Current minimum"
    else if Is(s.pivotIndex, i) then "Pivot element"
    else "Standard element"
  }

  lemma StatusEnhancedPriority(i: int, s: Step)
    ensures StatusEnhanced(i, s) == StatusByPriority(s, i, OrderEnhanced)
  {
    PriorityUnfold5(s, i, OrderEnhanced);
  }

  /** The two status helpers disagree exactly on an element that is only being checked. */
  lemma StatusesDisagreeOnChecking(i: int, s: Step)
    ensures StatusEnhanced(i, s) != StatusThreeJs(i, Some(s)) <==>
      StatusThreeJs(i, Some(s)) == "Being checked"
  {
  }

  /** The 3D visualizer's role text: the same priority, its own wording, wrapped in a paragraph. */
  function RoleName3D(r: Role): string {
    match r
    case Compared => "Being compared"
    case Swapping => "Being swapped"
    case SortedRole => "Sorted element"
    case MinRole => "Current minimum"
    case PivotRole => "Pivot element"
    case CheckingRole => "Being checked"
    case _ => "Standard element"
  }

  const RolePrefix := "<p><strong>Role:</strong> "

  /** `getElementRoleDescription`: empty for a missing step. */
  function RoleDescription3D(i: int, step: Option<Step>): string {
    if step.None? then ""
    else
      var s := step.value;
      RolePrefix +
      (if Has(s.comparing, i) then "Being compared</p>"
       else if Has(s.swapped, i) then "Being swapped</p>"
       else if Has(s.sortedIndices, i) then "Sorted element</p>"
       else if Is(s.minIdx, i) then "Current minimum</p>"
       else if Is(s.pivotIndex, i) then "Pivot element</p>"
       else if Is(s.checkingIndex, i) then "Being checked</p>"
       else "Standard element</p>")
  }

  lemma RoleDescription3DPriority(i: int, s: Step)
    ensures RoleDescription3D(i, Some(s)) == RolePrefix +
      (var k := FirstRole(s, i, Order3D);
       if k == |Order3D| then "Standard element" else RoleName3D(Order3D[k])) + "</p>"
  {
    PriorityUnfold6(s, i, Order3D);
  }

  // ---------------------------------------------------------------------------
  // Reading off the first held role of a short priority list

  lemma PriorityUnfold5(s: Step, i: int, order: seq<Role>)
    requires |order| == 5
    ensures FirstRole(s, i, order) ==
      if Holds(s, i, order[0]) then 0 else if Holds(s, i, order[1]) then 1
      else if Holds(s, i, order[2]) then 2 else if Holds(s, i, order[3]) then 3
      else if Holds(s, i, order[4]) then 4 else 5
  {
    var k := FirstRole(s, i, order);
    if k < 5 {
      assert Holds(s, i, order[k]);
    }
  }

  lemma PriorityUnfold6(s: Step, i: int, order: seq<Role>)
    requires |order| == 6
    ensures FirstRole(s, i, order) ==
      if Holds(s, i, order[0]) then 0 else if Holds(s, i, order[1]) then 1
      else if Holds(s, i, order[2]) then 2 else if Holds(s, i, order[3]) then 3
      else if Holds(s, i, order[4]) then 4 else if Holds(s, i, order[5]) then 5 else 6
  {
    var k := FirstRole(s, i, order);
    if k < 6 {
      assert Holds(s, i, order[k]);
    }
  }
}

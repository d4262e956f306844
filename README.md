# AlgoViz3d: a verified model of the step traces and the players

AlgoViz3d shows sorting algorithms as 3D scenes. The Python backend turns an
input array into a trace of step records. Each record has a type, a snapshot
of the array and role fields (`comparing`, `swapped`, `sorted_indices`,
`min_idx`, …). Several near-duplicate front-end players then replay such a
trace:

- the 3D visualizer;
- the visualization player;
- the two enhanced players;
- the static page script;
- the home page hero.

Each player keeps a step index, a play flag, a speed and a repeating
interval, and colours and focuses elements by their role in the current step.

This project models those parts in Dafny and proves what they promise.

- **Traces.** The backend's `bubble_sort` and `selection_sort` run as
  in-place array methods. So do the two front-end fallback generators and the
  hero's `initBubbleSort`. Each method is proved equal to a recursive function
  of the input that spells out its trace, and each trace is proved to:
  - open on the input;
  - hold only rearrangements of the input, with every recorded index in range;
  - compare the pairs its loops visit, in order: every neighbour pair of the
    shrinking prefix for the fallbacks and the hero, each later index against
    the leftmost minimum so far for selection sort;
  - end on the ascending array.

  The bubble-style traces log a swap right after each out-of-order comparison.
  Selection sort swaps only when the minimum is not already in place. The
  backend traces and the component's fallback mark settled parts `sorted`;
  the in-place fallback and the hero mark nothing.
- **Focus and roles.** Both variants of `determineFocusedElements` and every
  colour, status and role-text chain are modelled. The chains are proved equal
  to a first-match search over a priority list.
- **Playback.** One state machine (`Playback`) holds the index, the flag, the
  speed and the intervals. The intervals are abstract ids, and `Tick` is the
  callback of a live id. Every React and static-page handler is a transition
  on it. The player classes (`Players`) apply those transitions to their
  fields in place. A validity invariant is proved for every handler: at most
  one live interval, live exactly while playing, and an index on the trace.
- **Helpers.** These cover custom-input parsing (with a round trip), cookie
  lookup, `getDetailedDescription` and the reversed-data generator.
- **Scene.** This covers the three.js helpers' element list and indicators,
  the centred layout, the hover record/restore pair and the overlay rules of
  the two 3D players. It also covers the hero's heap-numbered tree and its
  layout.

Some behaviour of the code that the model keeps:

- Traces are installed exactly as received: no index is clamped and no
  initial step is added.
- The player's `current_focus` does not override the whole-array focus of
  `initial` and `final` steps. The 3D visualizer does not consult
  `current_focus` at all. Role indices are not filtered by the focus functions;
  out-of-range ones are dropped only when drawing (`Focus.Drawn`).
- Only the enhanced players fall back to a demo trace when the server fails.
  The 3D visualizer and the visualization player show an error instead.
- The React players' code does not cancel the interval when a new trace is
  installed (findings 1 and 2 below). That reading is kept in
  `Playback.InstalledAsWritten` and `Playback.InstallLeavesIntervalRunning`;
  the player classes use the corrected install. The static page stops
  playback first.
- The three.js helper and the enhanced player draw an indicator only for
  exactly two indices. The 3D visualizer and the visualization player
  (frontend/src/components/VisualizationPlayer.jsx:897-903) accept two or
  more and join the first two.
- The custom-input error "No valid numbers found" cannot occur: splitting
  always yields at least one token (`Helpers.ParseCustomInput`).

## Model

| member | source | states |
|---|---|---|
| Dispatch.ExecuteAlgorithmSteps | visualizer/algorithm_engine.py:5-36 | An unknown name gives exactly the `ValueError` message, and only then. Bubble Sort gives `bubble_sort`'s trace, Selection Sort `selection_sort`'s trace, and any other known name its placeholder. |
| AlgorithmEngine.LookupName | visualizer/algorithm_engine.py:11-31 | Every algorithm is found under its own table key. |
| AlgorithmEngine.LookupFound | visualizer/algorithm_engine.py:11-31 | A name the table finds is the key of the algorithm returned. |
| AlgorithmEngine.LookupKnown | visualizer/algorithm_engine.py:33-34 | Lookup succeeds exactly for the twelve table keys. |
| AlgorithmEngine.PlaceholderSteps | visualizer/algorithm_engine.py:177-222 | A placeholder generator returns one `placeholder` record without a state, described by its own subject. |
| AlgorithmEngine.PlaceholdersDistinct | visualizer/algorithm_engine.py:177-222 | Different placeholder generators produce different records. |
| BubbleSort.BubblePass | visualizer/algorithm_engine.py:57-77 | One inner pass over the array in place ends with the log, array and swap flag of the functional pass over the old array. |
| BubbleSort.BubbleSortSteps | visualizer/algorithm_engine.py:40-97 | The method's log is `BubbleSortTrace(data)`, and that log is a bubble trace of the input. |
| BubbleSort.BubbleSortTraceIsBubbleTrace | visualizer/algorithm_engine.py:40-97 | `bubble_sort`'s log satisfies the whole-trace specification: initial record equal to the input; snapshots are permutations with in-range indices; comparisons of neighbours; a swap exactly after out-of-order comparisons; `sorted` marks of settled suffixes `range(m, n)`; a quiet pass ends the loop; a final ascending record marking `range(n)`. |
| BubbleTrace.BubbleTraceComplete | visualizer/algorithm_engine.py:40-97 | A trace built record by record under the per-record conditions, and ending sorted, is a full bubble trace. |
| SelectionSort.ScanForMinimum | visualizer/algorithm_engine.py:114-140 | The inner scan returns the leftmost minimum of `arr[i..n)`. It appends exactly the `min_selected` record for `i`, then for each later `j` a `comparison` of `j` with the current minimum, followed by a `new_min` record when `arr[j]` is smaller. |
| SelectionSort.ScanMinimum | visualizer/algorithm_engine.py:123-140 | Scanning on from `j` with the leftmost minimum of `s[i..j)` ends at the leftmost minimum of `s[i..)`. |
| SelectionSort.ScanComparisons | visualizer/algorithm_engine.py:124-140 | The scan from `j` logs `n - j` comparisons, the `k`-th being `[j+k, m]` with `m` the leftmost minimum of `s[i..j+k)`. |
| SelectionSort.ScanNewMinimums | visualizer/algorithm_engine.py:132-140 | Every `new_min` record names the leftmost minimum of the part scanned up to it. |
| SelectionSort.MinimumIntoPlace | visualizer/algorithm_engine.py:142-158 | Exchanging position `i` with a minimum of the rest extends the sorted prefix by one and keeps the multiset. |
| SelectionSort.SelectionSortSteps | visualizer/algorithm_engine.py:100-174 | The log is `SelectionSortTrace(data)`: `n` passes of scan, optional swap pair and `sorted` record, then the final record. It is a selection trace: it opens on the input, every snapshot is a permutation with in-range indices, swaps come in before/after pairs only when `min_idx != i`, and it ends ascending with `range(n)`. |
| SelectionSort.SelectionEnd | visualizer/algorithm_engine.py:167-174 | After the last pass the `final` record completes a selection trace. |
| SelectionSort.SelectionMarks | visualizer/algorithm_engine.py:159-165 | The `sorted` records mark `range(1)`, `range(2)`, …, `range(n)`, one per pass and in order. |
| StepModel.Range | visualizer/algorithm_engine.py:93-95 | `range(lo, hi)` has `hi - lo` elements `lo, lo+1, …`. |
| StepModel.RangeMembership | visualizer/algorithm_engine.py:93-95 | `x` is in `range(lo, hi)` exactly when `lo <= x < hi`. |
| StepModel.Exchange | visualizer/algorithm_engine.py:69 | The in-place exchange leaves the array equal to `Exchanged` of the old one. |
| StepModel.ExchangedFacts | visualizer/algorithm_engine.py:69 | The exchange swaps the two positions, leaves the others alone and keeps the multiset. |
| FallbackTraces.GenerateFakeStepsInPlace | frontend/src/components/EnhancedVisualizationPlayer.jsx:751-794 | The enhanced player's demo trace is `FakeTraceInPlace` of the input: the initial record, all `n-1` passes with no early exit, each out-of-order comparison followed by its swap, then the final ascending record. It has no `sorted` record. The argument array itself ends sorted, equal to the final snapshot. |
| FallbackTraces.GenerateFakeSteps | frontend/src/components/EnhancedVisualizationPlayerComponent.jsx:408-462 | The component's demo trace is `FakeTraceCopy` of the input: it opens with an empty `comparing`, runs the same `n-1` passes, and marks the settled tail after each pass. It works on a copy, so the input is untouched. |
| FallbackTraces.ComparePass | frontend/src/components/EnhancedVisualizationPlayerComponent.jsx:420-444 | One pass appends exactly the records of `FakePass` over the old array: `[j, j+1]` for each `j < top-1`, each out-of-order pair followed by its swap. The array becomes that pass's result, with `arr[top-1..]` settled. |
| FallbackTraces.TailMembership | frontend/src/components/EnhancedVisualizationPlayerComponent.jsx:445-450 | The per-pass `sorted` list holds exactly the last `i+1` indices. |
| FallbackTraces.InPlaceSchedule | frontend/src/components/EnhancedVisualizationPlayer.jsx:762-783 | The in-place demo trace compares the full bubble schedule: pass `i` compares `[0,1] … [n-2-i, n-1-i]`, `n(n-1)/2` pairs in all. It has no `sorted` record. |
| FallbackTraces.CopySchedule | frontend/src/components/EnhancedVisualizationPlayerComponent.jsx:420-451 | The component's demo trace compares the same schedule. Its `sorted` records mark the tails `[n-1]`, `[n-1, n-2]`, …, one per pass. |
| BubbleTrace.FullScheduleLength | frontend/src/components/EnhancedVisualizationPlayer.jsx:762-783 | The full bubble schedule over `n` elements has `n(n-1)/2` pairs. |
| HomeVisualization.BubbleFrames | static/js/home-visualization.js:169-213 | The hero's frames are `HeroTrace(data)`: the input frame, all `n` outer passes with no early exit, then the sorted frame. Each frame rearranges the input and marks at most one neighbour pair, each out-of-order comparison is followed by its swap, and the last frame is ascending. |
| HomeVisualization.AnimatePass | static/js/home-visualization.js:183-203 | One outer pass appends exactly `PassFrames` of the old array, leaves the array as that pass's result, keeps the frame invariant and settles one more suffix position. |
| HomeVisualization.HeroSchedule | static/js/home-visualization.js:182-203 | The hero compares the full bubble schedule, `n(n-1)/2` pairs, in loop order. |
| HomeVisualization.FrameHighlights | static/js/home-visualization.js:147-153 | In every frame exactly the marked pair is drawn in a non-default colour. |
| HomeVisualization.Advance | static/js/home-visualization.js:219-228 | The replay index goes up by one below the frame count and wraps to 0 otherwise. |
| HomeVisualization.AdvanceRun | static/js/home-visualization.js:219-228 | From an index in range, `k` ticks that stay within the frame count advance it by exactly `k`. |
| HomeVisualization.AdvanceCycle | static/js/home-visualization.js:219-228 | `len + 1` ticks bring any index in `[0, len]` back to itself, so the replay is periodic. |
| HomeVisualization.HomeScene.constructor | static/js/home-visualization.js:75-77 | The hero starts with no frames, at index 0, and no interval. |
| HomeVisualization.HomeScene.InitBubbleSort | static/js/home-visualization.js:169-229 | The stored frames are `HeroTrace(data)`. The old interval is cleared and exactly the new one is live. |
| HomeVisualization.HomeScene.Tick | static/js/home-visualization.js:219-228 | One firing of the live interval shows the current frame, if any, and advances or wraps the index. |
| HomeVisualization.HomeScene.Unload | static/js/home-visualization.js:378-382 | Leaving the page leaves no interval live. |
| HomeVisualization.CreateBinaryTreeNode | static/js/home-visualization.js:232-241 | Depth `<= 0` gives no node. Otherwise the node holds the value at x = 3·index. Its children exist exactly when the depth exceeds 1, and they hold `2v` and `2v+1`. |
| HomeVisualization.CreatedSize | static/js/home-visualization.js:232-241 | A tree of depth `d` has `2^d - 1` nodes; depth `<= 0` gives none. |
| HomeVisualization.CreatedLevel | static/js/home-visualization.js:232-241 | Level `k` of the tree from `v` holds `v·2^k … (v+1)·2^k - 1`, left to right. |
| HomeVisualization.HeapNumbered | static/js/home-visualization.js:232-241 | The tree from 1 lists `1 … 2^d - 1` in breadth-first order, so its heap numbers are distinct. |
| HomeVisualization.CalculateTreePositions | static/js/home-visualization.js:257-269 | The node goes at `(x, y)`, with the same value and shape. |
| HomeVisualization.LayoutSpread | static/js/home-visualization.js:257-269 | With positive spacing the in-order x positions strictly increase, all within the spacing of the root. |
| Focus.DetermineFocused3D | frontend/src/components/AlgorithmVisualizer3D.jsx:1487-1532 | The 3D visualizer's loop computes `Focus3D`. |
| Focus.Focus3D | frontend/src/components/AlgorithmVisualizer3D.jsx:1487-1532 | Every index a role names is focused. Every focused index is named by a role or is an index of the state. |
| Focus.Collected3DFacts | frontend/src/components/AlgorithmVisualizer3D.jsx:1487-1523 | The collected focus starts with `comparing` as given, then adds each other named index once. It holds exactly the indices some role field names. |
| Focus.Focus3DCases | frontend/src/components/AlgorithmVisualizer3D.jsx:1526-1529 | When something is named the focus is the collection. When nothing is, an initial or final step gets every index `[0, len(state))` and any other step nothing. |
| Focus.AddAllAbsentFacts | frontend/src/components/AlgorithmVisualizer3D.jsx:1498-1505 | Adding absent elements keeps what was there, adds each new one once and repeats nothing. |
| Focus.DetermineFocusedPlayer | frontend/src/components/VisualizationPlayer.jsx:761-792 | The player's loop computes `FocusPlayer`. |
| Focus.FocusPlayer | frontend/src/components/VisualizationPlayer.jsx:761-792 | On initial and final steps the focus is exactly the state's indices. On other steps without `current_focus` it is exactly the `comparing` and `swapped` indices. |
| Focus.FocusPlayerPrecedence | frontend/src/components/VisualizationPlayer.jsx:767-789 | Initial and final steps focus everything even over `current_focus`. Otherwise `current_focus` replaces the rest, and without it the focus is exactly `comparing` plus `swapped`. |
| Focus.VariantsDiffer | frontend/src/components/AlgorithmVisualizer3D.jsx:1487-1529 | The two variants differ on concrete steps: an initial step comparing a pair, and a comparison with a minimum. |
| Focus.Drawn | frontend/src/components/AlgorithmVisualizer3D.jsx:1556-1560 | Drawing keeps exactly the candidate indices that have a value. |
| Focus.DrawnInRange | frontend/src/components/AlgorithmVisualizer3D.jsx:1556-1560 | Drawing every index from `lo` up keeps them all. |
| Focus.RenderedElements | frontend/src/components/AlgorithmVisualizer3D.jsx:1548-1560 | In focus mode, on a non-boundary step with a non-empty focus, exactly the focused existing indices are drawn. Otherwise every index is drawn once, in order. |
| Roles.FirstRole | frontend/src/components/ThreeJsUtils.jsx:63-77 | The first role an element holds in a priority list, with none before it. |
| Roles.Colour3DPriority | frontend/src/components/AlgorithmVisualizer3D.jsx:1651-1668 | The 3D colour is the first-match of comparing > swapped > sorted > (min or pivot) > checking > default. |
| Roles.ColourPlayerPriority | frontend/src/components/VisualizationPlayer.jsx:1341-1361 | The player's colour is the first-match of comparing > swapped > sorted > selected > min > highlighted > default. |
| Roles.ColourThreeJsPriority | frontend/src/components/ThreeJsUtils.jsx:63-77 | The helper's colour is the first-match of comparing > swapped > sorted > (min or pivot) > default, in the theme's hex values. |
| Roles.ThreeJsIgnoresChecking | frontend/src/components/ThreeJsUtils.jsx:63-77 | The helper and the 3D view differ exactly on an element that is only being checked. |
| Roles.EnhancedMatchesThreeJs | frontend/src/components/EnhancedVisualizationPlayer.jsx:440-451 | The enhanced player's inline colour equals the helper's for every element and step. |
| Roles.ColourStaticPriority | static/js/algorithm-visualization.js:383-395 | The static colour is type-gated: comparison only on `comparison` steps, swap only on `swap` steps, then sorted, then min only on `min_selected`/`new_min`. |
| Roles.StatusThreeJsPriority | frontend/src/components/ThreeJsUtils.jsx:80-98 | The helper's status is the first-match of comparing > swapped > sorted > min > pivot > checking > standard. |
| Roles.StatusEnhancedPriority | frontend/src/components/EnhancedVisualizationPlayer.jsx:327-341 | The enhanced status is the first-match of comparing > swapped > sorted > min > pivot > standard. |
| Roles.StatusesDisagreeOnChecking | frontend/src/components/EnhancedVisualizationPlayer.jsx:327-341 | The two status functions differ exactly when the helper says "Being checked". |
| Roles.RoleDescription3DPriority | frontend/src/components/AlgorithmVisualizer3D.jsx:833-854 | The role text is the first-match of the 3D priority in its own wording, inside the paragraph markup. |
| Playback.ClearStored | frontend/src/components/AlgorithmVisualizer3D.jsx:993-996 | Clearing the stored interval leaves none live and keeps the handle. |
| Playback.StartNew | frontend/src/components/AlgorithmVisualizer3D.jsx:976-991 | Starting clears the stored interval first, so exactly the fresh one is live and stored. |
| Playback.ClearAndForget | static/js/algorithm-visualization.js:165-171 | Stopping clears the interval and forgets the handle. |
| Playback.Fresh | frontend/src/components/AlgorithmVisualizer3D.jsx:270-280 | A new player is valid: paused on its initial trace at index 0, with no interval stored. |
| Playback.TogglePlayPause | frontend/src/components/AlgorithmVisualizer3D.jsx:971-1002 | Toggling flips the flag and leaves index, trace and speed alone. Starting stores a fresh interval. |
| Playback.TickWhilePlaying | frontend/src/components/AlgorithmVisualizer3D.jsx:982-992 | A live interval implies playing. Its tick advances by one below the last step; at the last step it stops, leaving no interval live. Validity is kept. |
| Playback.StepForward | frontend/src/components/AlgorithmVisualizer3D.jsx:1005-1024 | Stepping forward pauses and moves to `min(i+1, len-1)`. |
| Playback.StepBackward | frontend/src/components/AlgorithmVisualizer3D.jsx:1027-1046 | Stepping back pauses and moves to `max(i-1, 0)`. |
| Playback.Reset | frontend/src/components/AlgorithmVisualizer3D.jsx:1049-1063 | Reset pauses and goes to index 0. |
| Playback.Tick | frontend/src/components/AlgorithmVisualizer3D.jsx:982-992 | Below the last step the tick advances by one and changes nothing else. At the last step it keeps the index, stops playback and leaves no interval live. An index on the trace stays on it. |
| Playback.TickCaptured | frontend/src/components/EnhancedVisualizationPlayer.jsx:825-835 | The same tick measured against the length captured when the interval started, not the current trace. |
| Playback.HandlersKeepValid | frontend/src/components/AlgorithmVisualizer3D.jsx:971-1063 | Every React handler and both ways of installing a trace keep the invariant: at most one live interval, the stored one, live exactly while playing, and an index on the trace. |
| Playback.OneIntervalWhilePlaying | frontend/src/components/AlgorithmVisualizer3D.jsx:1150-1170 | While playing exactly one interval is live. A speed change while playing leaves exactly the new one live. |
| Playback.ForwardReachesEnd | frontend/src/components/AlgorithmVisualizer3D.jsx:1005-1024 | `k` forward steps reach `min(i+k, len-1)`, paused, and never pass the last step. |
| Playback.PlayRunsToEnd | frontend/src/components/AlgorithmVisualizer3D.jsx:982-992 | Left alone, playback reaches the last step and stops with no live interval. |
| Playback.UpdateSpeed3D | frontend/src/components/AlgorithmVisualizer3D.jsx:1150-1170 | The speed changes; the flag, index and trace do not. |
| Playback.UpdateSpeedSlider | frontend/src/components/VisualizationPlayer.jsx:1460-1485 | The slider changes the speed; the flag, index and trace stay. |
| Playback.SpeedStaysInRange | frontend/src/components/VisualizationPlayer.jsx:1820-1865 | The ± keys and the ± buttons keep the speed in `[1, 10]` and move it by one when not at the bound. |
| Playback.Installed | frontend/src/components/AlgorithmVisualizer3D.jsx:1400-1407 | A new trace is installed at index 0 with playback stopped and the speed kept. |
| Playback.InstalledAsWritten | frontend/src/components/AlgorithmVisualizer3D.jsx:1400-1407 | As written, the trace is replaced at index 0 and playback marked stopped, but the timers are untouched. On a valid playing player an interval stays live and validity is lost. |
| Playback.Replaced | frontend/src/components/EnhancedVisualizationPlayer.jsx:731-746 | The enhanced players install a trace at index 0 and leave playback as it was. |
| Playback.CurrentStep | frontend/src/components/VisualizationPlayer.jsx:1597-1603 | With no steps the result is the placeholder description and an empty note, and only then. |
| Playback.CurrentStepDefined | frontend/src/components/VisualizationPlayer.jsx:1597-1603 | On a valid player with steps the current step is the record at the index, never undefined. |
| Playback.InstallLeavesIntervalRunning | frontend/src/components/AlgorithmVisualizer3D.jsx:1400-1407 | As written, a run completing during playback leaves a live interval behind a paused player. Its next tick moves the index. |
| Playback.InstallStopsTicks | frontend/src/components/AlgorithmVisualizer3D.jsx:1400-1407 | Installing with the interval cleared keeps the player valid with no live interval. |
| Playback.CapturedLengthOverruns | frontend/src/components/EnhancedVisualizationPlayer.jsx:825-835 | As written, a tick reading the captured length walks past a shorter newly installed trace, and the current step is undefined. |
| Playback.FreshLengthStaysOnTrace | frontend/src/components/EnhancedVisualizationPlayer.jsx:825-835 | A tick reading the current trace keeps the player valid after a replacement. |
| Playback.StaticToggle | static/js/algorithm-visualization.js:136-147 | The static toggle flips the flag and starts or stops playback. |
| Playback.StaticTick | static/js/algorithm-visualization.js:149-163 | Below the last step it advances by one. At the last step it toggles, so a playing page stops and forgets its handle. |
| Playback.StaticStepForward | static/js/algorithm-visualization.js:173-183 | Stop if playing, then advance only below the last step. |
| Playback.StaticStepBackward | static/js/algorithm-visualization.js:185-195 | Stop if playing, then go back only above 0. |
| Playback.StaticReset | static/js/algorithm-visualization.js:197-205 | Stop and go to index 0. |
| Playback.StaticUpdateSpeed | static/js/algorithm-visualization.js:207-214 | Set the speed; the flag and index stay. |
| Playback.StaticExecute | static/js/algorithm-visualization.js:292-330 | Stop and reset the index to 0 before the request. A response installs its steps; a failure keeps the old ones. |
| Playback.StaticKeepsValid | static/js/algorithm-visualization.js:136-214 | Every static handler keeps the invariant, and a stopped page holds no handle. |
| Playback.StaticTickKeepsValid | static/js/algorithm-visualization.js:149-163 | A static tick comes only while playing and keeps validity. At the end it stops and forgets the handle. |
| Players.ReactPlayer.constructor | frontend/src/components/VisualizationPlayer.jsx:97-112 | Both React players start paused on their initial trace at index 0, speed 5, not loading and without an error. The input size is the input's length, or 10 for an empty input. |
| Players.ReactPlayer.TogglePlayPause | frontend/src/components/AlgorithmVisualizer3D.jsx:971-1002 | Applies the toggle to the fields, keeping validity. |
| Players.ReactPlayer.Tick | frontend/src/components/AlgorithmVisualizer3D.jsx:982-992 | Applies a live interval's tick, which happens only while playing. |
| Players.ReactPlayer.StepForward | frontend/src/components/VisualizationPlayer.jsx:649-668 | Applies the clamped forward step. |
| Players.ReactPlayer.StepBackward | frontend/src/components/VisualizationPlayer.jsx:671-690 | Applies the clamped backward step. |
| Players.ReactPlayer.Reset | frontend/src/components/VisualizationPlayer.jsx:693-709 | Applies the reset. |
| Players.ReactPlayer.UpdateSpeed | frontend/src/components/AlgorithmVisualizer3D.jsx:1150-1170 | Applies the 3D speed change. |
| Players.ReactPlayer.KeyPlus | frontend/src/components/AlgorithmVisualizer3D.jsx:898-901 | The `+` key raises the speed, capped at 10. |
| Players.ReactPlayer.KeyMinus | frontend/src/components/AlgorithmVisualizer3D.jsx:902-905 | The `-` key lowers the speed, floored at 1. |
| Players.ReactPlayer.SlideSpeed | frontend/src/components/VisualizationPlayer.jsx:1460-1485 | Applies the slider's speed change. |
| Players.ReactPlayer.ButtonPlus | frontend/src/components/VisualizationPlayer.jsx:1843-1865 | The `+` button raises the speed by one only below 10. |
| Players.ReactPlayer.ButtonMinus | frontend/src/components/VisualizationPlayer.jsx:1820-1842 | The `-` button lowers the speed by one only above 1. |
| Players.ReactPlayer.ExecuteAlgorithm | frontend/src/components/VisualizationPlayer.jsx:567-612 | Success installs the steps with playback stopped and clears the error. Failure keeps the playback state and shows `Error: <message>`. Loading ends either way. |
| Players.ReactPlayer.ApplyCustomData | frontend/src/components/AlgorithmVisualizer3D.jsx:1254-1291 | Text that parses becomes the input, its length the input size, and it is run. Otherwise `Invalid input format: <reason>` is shown and input, size and playback are untouched. |
| Players.ReactPlayer.Run | frontend/src/components/AlgorithmVisualizer3D.jsx:1279-1287 | The parsed data becomes the input and its length the size; the run installs the steps or keeps the state on failure. |
| Players.ReactPlayer.SetInputSize | frontend/src/components/AlgorithmVisualizer3D.jsx:1294-1297 | The size slider sets the size the generators use. |
| Players.ReactPlayer.GenerateReversedData | frontend/src/components/AlgorithmVisualizer3D.jsx:1245-1251 | The input becomes `inputSize, …, 1` and is run; the size stays. |
| Players.EnhancedPlayer.constructor | frontend/src/components/EnhancedVisualizationPlayer.jsx:8-12 | The enhanced player starts paused on its initial trace at index 0, speed 3. |
| Players.EnhancedPlayer.TogglePlayPause | frontend/src/components/EnhancedVisualizationPlayer.jsx:816-843 | Applies the toggle. |
| Players.EnhancedPlayer.Tick | frontend/src/components/EnhancedVisualizationPlayer.jsx:825-835 | Applies the tick, reading the current trace (see finding 2). |
| Players.EnhancedPlayer.StepForward | frontend/src/components/EnhancedVisualizationPlayer.jsx:846-857 | Applies the clamped forward step. |
| Players.EnhancedPlayer.StepBackward | frontend/src/components/EnhancedVisualizationPlayer.jsx:859-870 | Applies the clamped backward step. |
| Players.EnhancedPlayer.Reset | frontend/src/components/EnhancedVisualizationPlayer.jsx:872-883 | Applies the reset. |
| Players.EnhancedPlayer.ExecuteAlgorithm | frontend/src/components/EnhancedVisualizationPlayer.jsx:710-747 | Without an algorithm nothing changes. Otherwise the server's steps, or on failure the demo trace, replace the trace at index 0. The demo trace sorts the input array in place. |
| Players.EnhancedPlayerComponent.constructor | frontend/src/components/EnhancedVisualizationPlayerComponent.jsx:46-59 | The component starts paused on its initial trace at index 0, speed 3, not loading. |
| Players.EnhancedPlayerComponent.TogglePlayPause | frontend/src/components/EnhancedVisualizationPlayerComponent.jsx:483-512 | Applies the toggle. |
| Players.EnhancedPlayerComponent.Tick | frontend/src/components/EnhancedVisualizationPlayerComponent.jsx:493-504 | Applies the tick, reading the current trace. |
| Players.EnhancedPlayerComponent.StepForward | frontend/src/components/EnhancedVisualizationPlayerComponent.jsx:515-525 | Applies the clamped forward step. |
| Players.EnhancedPlayerComponent.StepBackward | frontend/src/components/EnhancedVisualizationPlayerComponent.jsx:528-538 | Applies the clamped backward step. |
| Players.EnhancedPlayerComponent.Reset | frontend/src/components/EnhancedVisualizationPlayerComponent.jsx:541-553 | Applies the reset. |
| Players.EnhancedPlayerComponent.ExecuteAlgorithm | frontend/src/components/EnhancedVisualizationPlayerComponent.jsx:359-404 | Without an algorithm only loading clears. Otherwise the server's steps, or the demo trace of the input, replace the trace at index 0. Loading ends either way. |
| Players.StaticPage.constructor | static/js/algorithm-visualization.js:25-35 | The page starts paused at speed 5 with no handle, trace or input. |
| Players.StaticPage.TogglePlayPause | static/js/algorithm-visualization.js:136-171 | Applies the static toggle; a stopped page holds no handle. |
| Players.StaticPage.Tick | static/js/algorithm-visualization.js:154-161 | Applies a live interval's tick. |
| Players.StaticPage.StepForward | static/js/algorithm-visualization.js:173-183 | Applies the guarded forward step. |
| Players.StaticPage.StepBackward | static/js/algorithm-visualization.js:185-195 | Applies the guarded backward step. |
| Players.StaticPage.Reset | static/js/algorithm-visualization.js:197-205 | Applies the reset. |
| Players.StaticPage.UpdateSpeed | static/js/algorithm-visualization.js:207-214 | Applies the speed change, restarting when playing. |
| Players.StaticPage.ExecuteAlgorithm | static/js/algorithm-visualization.js:292-330 | Applies the execute prelude and the response. |
| Players.StaticPage.ApplyCustomData | static/js/algorithm-visualization.js:273-289 | Comma-separated text that parses becomes the input and is run. An unreadable number leaves input and playback untouched. |
| Players.StaticPage.GenerateReversedData | static/js/algorithm-visualization.js:266-271 | The input becomes `size, …, 1` and is run. |
| Helpers.Collect | frontend/src/components/AlgorithmVisualizer3D.jsx:1264-1275 | The list of parsed tokens succeeds exactly when no token fails. It is then element-for-element the parsed values. |
| Helpers.ParseCustomInput | frontend/src/components/AlgorithmVisualizer3D.jsx:1254-1291 | "Empty input" exactly for blank text. "Invalid number" exactly when some comma- or space-separated token is unreadable. Otherwise one integer per token, at least one. |
| Helpers.InputAfterCustom | frontend/src/components/VisualizationPlayer.jsx:520-560 | A parse error leaves the previous input unchanged; success replaces it. |
| Helpers.ParseCommaInput | static/js/algorithm-visualization.js:273-289 | The static parser splits on commas only and fails on any unreadable token. |
| Helpers.CustomInputRoundTrip | frontend/src/components/AlgorithmVisualizer3D.jsx:1254-1291 | Any non-empty list of integers, written comma-separated, is read back as the same list by both parsers. |
| Helpers.ParsersDisagreeOnSpaces | static/js/algorithm-visualization.js:278 | On "3 4" the React parser reads `[3, 4]` while the static one reads `[3]`. |
| Helpers.FirstTrue | static/js/algorithm-visualization.js:514-521 | The index of the first true entry, if any, with none before it. |
| Helpers.CookieInFound | static/js/algorithm-visualization.js:514-521 | The lookup finds a value exactly when some trimmed entry starts with `name=`. It then decodes the first such entry's remainder. |
| Helpers.FindCookie | static/js/algorithm-visualization.js:514-521 | The loop computes the first matching entry's decoded value. |
| Helpers.GetCookie | static/js/algorithm-visualization.js:511-524 | `getCookie` equals the lookup over the cookie string's `;`-separated entries. |
| Helpers.GetCsrfToken | frontend/src/components/AlgorithmVisualizer3D.jsx:1417-1430 | The CSRF token is the `csrftoken` cookie lookup. |
| Helpers.DetailedDescription | static/js/algorithm-visualization.js:434-456 | A missing step gives "". A step lacking the field its type reads fails. Otherwise the text starts with the description, other types add nothing, and `initial` adds the element count. |
| Helpers.ReversedData | frontend/src/components/AlgorithmVisualizer3D.jsx:1245-1251 | `size` elements, element `i` being `size - i`. |
| Helpers.ReversedDataFacts | frontend/src/components/AlgorithmVisualizer3D.jsx:1245-1251 | The data is strictly descending and its reverse is `1 … size`, with the same multiset. |
| Text.TrimStart | frontend/src/components/AlgorithmVisualizer3D.jsx:1256 | The result is a suffix of the text, starts with a non-space, and everything dropped is whitespace. |
| Text.TrimEnd | frontend/src/components/AlgorithmVisualizer3D.jsx:1256 | The result is a prefix of the text, ends with a non-space, and everything dropped is whitespace. |
| Text.Trim | frontend/src/components/AlgorithmVisualizer3D.jsx:1256 | A non-empty trimmed text begins and ends with a non-space. |
| Text.TrimOfUnpadded | frontend/src/components/AlgorithmVisualizer3D.jsx:1256 | Trimming leaves text that is not padded unchanged. |
| Text.Split | static/js/algorithm-visualization.js:278 | Splitting gives at least one piece, and no piece contains the separator. |
| Text.SplitJoin | static/js/algorithm-visualization.js:278 | Pieces free of the separator, joined with it, split back into the same pieces. |
| Text.SplitSpaces | frontend/src/components/AlgorithmVisualizer3D.jsx:1270 | Splitting on whitespace runs gives the pieces, with no piece containing whitespace. |
| Text.ParseInt | frontend/src/components/AlgorithmVisualizer3D.jsx:1264-1273 | A number comes back exactly when a digit follows the leading white space and optional sign. It is non-positive after `-` and non-negative otherwise. |
| Text.ParseShow | frontend/src/components/AlgorithmVisualizer3D.jsx:1264-1273 | `parseInt` reads back every integer's decimal numeral. |
| Scene.CentredSymmetric | frontend/src/components/ThreeJsUtils.jsx:423-424 | The layout is symmetric about 0, and neighbours are one size plus spacing apart. |
| Scene.PositionAdjustment | frontend/src/components/ThreeJsUtils.jsx:37-49 | A sphere is lifted by `0.7·size`; every other shape by half its height. |
| Scene.SliceLength | frontend/src/components/ThreeJsUtils.jsx:419 | `slice(0, maxItems)` keeps `min(maxItems, n)` values, counting a negative bound from the end. |
| Scene.ElementAtSlot | frontend/src/components/ThreeJsUtils.jsx:430-499 | Element `i` is drawn at slot `2i` (or `i` without labels), at its centred position, in its role's colour. Its label follows with its value. |
| Scene.CreateVisualizationElements | frontend/src/components/ThreeJsUtils.jsx:408-541 | Missing scene, step or state gives `[]`. Otherwise the first `maxItems` values in order, followed by their comparison and swap arrows. |
| Scene.IndicatorMisaligned | frontend/src/components/ThreeJsUtils.jsx:502-538 | As written, with labels the arrow for comparing 1 and 2 of `[3, 1, 2]` joins element 0's label and element 1's mesh. |
| Scene.IndicatorJoinsMeshes | frontend/src/components/ThreeJsUtils.jsx:502-538 | The corrected lookup draws an arrow exactly when both indices are drawn, and joins their meshes. |
| Scene.Overlays3D | frontend/src/components/AlgorithmVisualizer3D.jsx:1671-1690 | At most three overlays. Arcs join drawn meshes. A partition line appears only on a `partition` step, for its non-zero pivot that has a mesh; a pivot marker only on a `pivot` step, for its pivot that has a mesh. |
| Scene.OverlaysEnhanced | frontend/src/components/EnhancedVisualizationPlayer.jsx:515-522 | At most two arcs, each joining exactly the two indices `comparing` or `swapped` names, and only when both have meshes. |
| Scene.OverlaysAgree | frontend/src/components/EnhancedVisualizationPlayer.jsx:515-522 | Enhanced arcs join exactly the two named meshes, and 3D arcs join drawn meshes. On pairs the two players agree; a three-index comparison gets an arc in the 3D visualizer and not in the enhanced player. |
| Scene.HoverIdempotent | frontend/src/components/ThreeJsUtils.jsx:381-395 | A second hover changes nothing; a reset without a record changes nothing. |
| Scene.HoverRoundTrip | frontend/src/components/ThreeJsUtils.jsx:381-405 | Hover then reset restores the object exactly, glow and scale. |
| Scene.ResetForgetsScale | frontend/src/components/ThreeJsUtils.jsx:398-405 | As written, the reset restores the glow but puts the scale at 1, not at the recorded 1.2. |
| Scene.Hoverable.constructor | frontend/src/components/ThreeJsUtils.jsx:381-395 | A mesh starts at scale 1 with no recorded hover state. |
| Scene.Hoverable.ApplyHoverEffect | frontend/src/components/ThreeJsUtils.jsx:381-395 | The mesh's fields become `Applied` of the old ones. |
| Scene.Hoverable.ResetHoverEffect | frontend/src/components/ThreeJsUtils.jsx:398-405 | The mesh's fields become the corrected reset of the old ones. |

## Left out

- Three.js, WebGL, labels drawn on canvases, materials, lights, cameras, particle effects and animation frames are left out. They are calls into a rendering library; only which objects are created, with what index, position and colour, is modelled.
- Heights from `value / maxValue`, pulse animations and camera easing are left out. They are floating-point presentation; positions are exact reals.
- `fetch` is not modelled as a request. Each `executeAlgorithm` takes the response (steps, or the failure) as a parameter, and the request and its answer happen in one step. Interleavings of a slow response with other handlers are not modelled.
- Wall-clock time and timer scheduling are not modelled. An interval is an id; `Tick(id)` is its callback, callable only while the id is live. The delayed clearing of error banners and the delayed redraws are not modelled.
- Random and nearly-sorted input generators, and the graph scene of the hero, are left out. They draw from `Math.random`.
- Keyboard and mouse wiring, raycasting, DOM updates, alerts and the save form are left out. Only the state changes they trigger are modelled; for keys, that is only the speed keys.
- GetCookie (Helpers.GetCookie): `decodeURIComponent` is a function parameter. Its `URIError` on malformed escapes is not modelled.
- ParseInt (Text.ParseInt): JavaScript `parseInt` is read as optional sign plus leading decimal digits. Leading whitespace is skipped and `None` stands for NaN. Hexadecimal prefixes, exponent notation and precision loss beyond 2^53 are not modelled.
- CalculateTreePositions (HomeVisualization.CalculateTreePositions): the source writes positions into the node objects in place. The model returns a new tree of the same shape, so aliasing between nodes is not captured.
- Tick (Players.EnhancedPlayer.Tick): the enhanced player's interval reads the trace length captured when playback began. The class uses the corrected tick that reads the current trace; the captured reading is `Playback.TickCaptured` (finding 2).
- Tick (Players.EnhancedPlayerComponent.Tick): the component's interval (frontend/src/components/EnhancedVisualizationPlayerComponent.jsx:493-504) also compares with the `steps.length` captured when playback began. The class uses the corrected tick; the captured reading is `Playback.TickCaptured` (finding 2).
- ExecuteAlgorithm (Players.ReactPlayer.ExecuteAlgorithm): uses the corrected install that stops the interval; the code as written is `Playback.InstalledAsWritten` (finding 1).
- Run (Players.ReactPlayer.Run): installs through the corrected `ExecuteAlgorithm`, so the interval is cleared; the code as written leaves it live (`Playback.InstalledAsWritten`, finding 1).
- ApplyCustomData (Players.ReactPlayer.ApplyCustomData): on success installs through `Run`, with the corrected install; the code as written leaves the interval live (finding 1).
- GenerateReversedData (Players.ReactPlayer.GenerateReversedData): installs through `Run`, with the corrected install; the code as written leaves the interval live (finding 1).
- Strings are sequences of Dafny characters, one per Unicode scalar value. JavaScript's UTF-16 code units (lone surrogates, the two-unit length of characters outside the Basic Multilingual Plane) are not modelled.
- constructor (Players.ReactPlayer.constructor): on mount every React player may call `generateRandomData`, which draws from `Math.random` (and in the enhanced component sets `loading`). That call is not modelled; the initial trace and input are constructor parameters.
- Applied (Scene.Applied): an absent emissive intensity (read as 0 by the source) is not distinguished from an intensity of 0.
- CreateVisualizationElements (Scene.CreateVisualizationElements): the indicator arrows join the meshes of the two named elements. As written (frontend/src/components/ThreeJsUtils.jsx:502-538) the code indexes the list that interleaves meshes and labels; that reading is `Scene.IndicatorMisaligned` (finding 3).
- ResetHoverEffect (Scene.Hoverable.ResetHoverEffect): the reset restores the recorded scale. As written (frontend/src/components/ThreeJsUtils.jsx:398-405) it sets the scale to 1; that reading is `Scene.ResetForgetsScale` (finding 4).
- The visualization player's comparison and swap arrows (frontend/src/components/VisualizationPlayer.jsx:897-903) are not modelled as a member of their own. They follow the 3D visualizer's rule of two or more indices, as in `Scene.Overlays3D`, but the arrow geometry is left out.
- The view toggles (2D/3D, focus mode, themes, shapes) are not modelled. They choose presentation; focus mode enters `Focus.ElementsToRender` as a flag and the themes as colour slots.
- Teardown on unmount of the React components is not modelled. The hero's `beforeunload` is modelled.
- The Django views, models, serializers, URL routes, the dashboard, the preview script, the presentational components and the build configuration are not part of this model.

## Findings

| source | as written | input that shows it | evidently intended | confidence | as-written member | corrected member |
|---|---|---|---|---|---|---|
| frontend/src/components/AlgorithmVisualizer3D.jsx:1400-1407 | A successful run sets `isPlaying` false and installs the steps without clearing the interval; the same holds in frontend/src/components/VisualizationPlayer.jsx:591-598. The interval's callback never checks `isPlaying`. | Press play on a 4-step trace, then apply new data. When the response arrives, the old interval is still live behind a paused player, and its next tick moves the index from 0 to 1. | Clear the interval whenever playback is set to false, as every other handler does. | medium (not executed) | Playback.InstallLeavesIntervalRunning | Playback.InstallStopsTicks |
| frontend/src/components/EnhancedVisualizationPlayer.jsx:825-835 | The tick closure compares the index with `steps.length` from the render that started playback. `executeAlgorithm` replaces the trace without stopping playback. | Play a 4-step trace and let a 1-step trace replace it. The next tick moves the index to 1, past the new trace, and the current step is undefined. | Read the current trace length, or stop playback when the trace is replaced. | medium (not executed) | Playback.CapturedLengthOverruns | Playback.FreshLengthStaysOnTrace |
| frontend/src/components/ThreeJsUtils.jsx:502-538 | The indicator looks up `elements[idx]` in a list that interleaves each mesh with its label, and bounds the index by that list's length. | The state `[3, 1, 2]` comparing `[1, 2]` with labels shown: the arrow joins element 0's label and element 1's mesh. | Look up the meshes of the two elements. | high (not executed) | Scene.IndicatorMisaligned | Scene.IndicatorJoinsMeshes |
| frontend/src/components/ThreeJsUtils.jsx:398-405 | The reset restores the recorded glow but sets the scale to 1, although the hover recorded the original scale. | A mesh at scale 1.2: hover then reset leaves it at scale 1. | Restore the recorded scale. | low (not executed) | Scene.ResetForgetsScale | Scene.HoverRoundTrip |

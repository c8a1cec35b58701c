# RangePlot mod: a verified model of its core

RangePlot is a Spotfire visualization mod. It draws one horizontal range bar
per category: a segment from the category's Min to its Max, endpoints at
both ends and an indicator at the Value. The user can mark rows in the host
by clicking a bar or by dragging a rectangle over several bars. A settings
popout chooses which labels (min, max, value) are shown, either for all rows
or only for the marked ones.

This project models four parts of the mod in Dafny and proves properties of
each:

- **Selection engine** (`rectangle_selection.dfy`, module `RectangleSelection`).
  The press/move/release state machine as a class, `SelectionEngine`, whose
  fields are the script's module-level state. It covers:
  - the strict overlap test;
  - the Ctrl-toggle and plain-replace updates of the persistent set of
    selected row indices;
  - the visual selection rebuilt from that set;
  - every `mark` / `clearMarking` call the engine makes on the host's data
    view, kept in a ghost log.
- **Label settings** (`context_menu.dfy`, module `ContextMenu`). It covers:
  - loading the stored settings with field-wise defaults and saving them back;
  - the popout's control states and its change handler;
  - the show/hide decision for every label.

  The stored property is modelled as what `JSON.parse` makes of its text.
- **Data shaping** (`data_shaping.dfy`, module `DataShaping`). The loops of
  the render that turn the host's rows into plot rows: one plot row per
  category, or one aggregated row when there is no category axis. It also
  gathers the set of marked row indices.
- **Scale and geometry** (`range_plot.dfy`, module `RangePlot`). It covers:
  - the shared absolute minimum, maximum and range over every data point;
  - the linear percent map;
  - the per-row geometry of segment, endpoints, indicator and labels,
    appended in order to a cleared container.

Supporting modules:

- `optional.dfy`: the `Option` type.
- `host.dfy`: the host's rows, marking modes, the calls made on the host,
  and where a press landed.
- `numbers.dfy`: `Math.min` / `Math.max` over a non-empty list, and a sum.

Three behaviours of the code are worth stating plainly, because a reader
might expect otherwise:

- A click only marks in the host; it does not touch the persistent set.
- A click outside every row, or a drag too small to commit, only clears the
  host's marking (without Ctrl). It does not clear the persistent set.
- Nothing puts a zero-width scale at 50%: the percent map is defined for a
  positive range only.

## Model

| member | source | states |
|---|---|---|
| RectangleSelection.Clamp | src/rectangleSelection.js:99 | the result lies in `[lo, hi]` when `lo <= hi`, is the value itself when already in range, and never exceeds `hi` |
| RectangleSelection.OverlapIsSymmetric | src/rectangleSelection.js:309-314 | the overlap test gives the same answer with the two boxes swapped |
| RectangleSelection.TouchingBoxesDoNotOverlap | src/rectangleSelection.js:309-314 | boxes that only share an edge, or lie apart, on either axis do not overlap (strict comparisons) |
| RectangleSelection.OverlapIsSharedInterior | src/rectangleSelection.js:309-314 | for boxes of positive size, the test holds exactly when some point lies strictly inside both |
| RectangleSelection.SpanRect | src/rectangleSelection.js:235-241 | the rectangle a release commits runs from the smaller to the larger coordinate on each axis; its sides are the absolute distances |
| RectangleSelection.CommittedRectIsLarge | src/rectangleSelection.js:232-233 | a committed rectangle is more than 5 px wide and more than 5 px high |
| RectangleSelection.HighlightGrowsWithBox | src/rectangleSelection.js:284-304 | growing the preview box never drops a highlight: whatever a box highlights, any box covering it highlights too |
| RectangleSelection.Hits | src/rectangleSelection.js:330-340 | an index is hit exactly when some overlapping row carries it; rows without an index are skipped |
| RectangleSelection.HitsOnce | src/rectangleSelection.js:330-340 | when no two rows share an index, a rectangle hits each index at most once |
| RectangleSelection.Toggle | src/rectangleSelection.js:344-350 | the toggled index flips membership; every other index keeps it |
| RectangleSelection.ToggleAllParity | src/rectangleSelection.js:344-350 | after a Ctrl commit an index is selected exactly when it was selected before or was hit an odd number of times, but not both |
| RectangleSelection.ToggleAllKeepsUnhit | src/rectangleSelection.js:344-350 | indices the rectangle does not hit keep their membership under Ctrl |
| RectangleSelection.ToggleAllFlipsSingleHit | src/rectangleSelection.js:344-350 | an index hit exactly once flips its membership under Ctrl |
| RectangleSelection.ToggleAll | src/rectangleSelection.js:344-350 | toggling the hit indices one after the other, in document order; its outcome is stated by ToggleAllParity |
| RectangleSelection.CommitSelection | src/rectangleSelection.js:324-355 | the set a committed rectangle leaves; its meaning is stated by PlainCommitIsHitRows and CtrlCommitFlipsHitRows |
| RectangleSelection.PlainCommitIsHitRows | src/rectangleSelection.js:324-355 | without Ctrl, the committed set holds exactly the indices of the rows overlapping the rectangle |
| RectangleSelection.CtrlCommitFlipsHitRows | src/rectangleSelection.js:344-350 | with Ctrl and no two rows sharing an index, the index of every overlapping row flips and every other index keeps its membership |
| RectangleSelection.RowsToMark | src/rectangleSelection.js:382-387 | the rows to mark are exactly the host rows at selected positions that exist, and there are none exactly when no such position is selected; RowsToMarkPositions states one row per such position |
| RectangleSelection.RowsToMarkPositions | src/rectangleSelection.js:382-387 | one row per selected index that exists: row `k` is `allRows[p_k]` for strictly increasing selected positions `p_k`, and every selected existing index is one of them |
| RectangleSelection.PushSelection | src/rectangleSelection.js:376-411 | at most one call; `clearMarking()` exactly when the set is empty and a data view exists; a `Replace` mark exactly when the handle, view and rows are present and some selected index exists, and that mark's rows are RowsToMark of the set, so by RowsToMarkPositions one row per selected existing index |
| RectangleSelection.CommitCalls | src/rectangleSelection.js:324-411 | at most two calls, never the gesture signal, and every mark uses `Replace`; with Ctrl only the push; nothing without a data view |
| RectangleSelection.ClickCalls | src/rectangleSelection.js:202-227 | at most one call. A press on a row whose index exists, with the handle, the rows and a data view, sends exactly `mark([that row])`, with `ToggleOrAdd` under Ctrl and `Replace` without. Any mark sent is that one. A press on a row with an index out of range, or without a data view, sends nothing. A press outside every row, or on a row without the handle or the rows, only clears unless Ctrl |
| RectangleSelection.FirstWithIndexIsUnique | src/rectangleSelection.js:50 | two rows that are each the first to carry the same index are the same row |
| RectangleSelection.QueryRow | src/rectangleSelection.js:50 | the row found carries the index and no earlier row does; nothing is found exactly when no row carries it |
| RectangleSelection.VisuallySelected | src/rectangleSelection.js:42-64 | the rows shown selected: for each selected index, the first row carrying it; its meaning is stated by VisuallySelectedDistinct |
| RectangleSelection.VisuallySelectedDistinct | src/rectangleSelection.js:42-64 | when no two rows share an index, exactly the rows whose index is selected are shown selected |
| RectangleSelection.SelectionEngine.constructor | src/rectangleSelection.js:13-106 | the load-time state: no data view and an empty set (lines 13-16); no gesture, no drag origin and nothing highlighted (lines 101-106); nothing logged |
| RectangleSelection.SelectionEngine.SetCurrentDataView | src/rectangleSelection.js:28-30 | records whether a data view is present |
| RectangleSelection.SelectionEngine.GetSelectedRowIndices | src/rectangleSelection.js:35-37 | returns the persistent set itself |
| RectangleSelection.SelectionEngine.RestoreVisualSelection | src/rectangleSelection.js:42-64 | afterwards, exactly the first row carrying each selected index is shown selected |
| RectangleSelection.SelectionEngine.ClearSelection | src/rectangleSelection.js:417-438 | empties the set and the visual selection; sends `clearMarking()` only with the plugin handle and a data view |
| RectangleSelection.SelectionEngine.HandlePlotRowClickDirect | src/rectangleSelection.js:443-468 | logs one single-row mark, `ToggleOrAdd` with Ctrl and `Replace` without, or nothing without a data view |
| RectangleSelection.SelectionEngine.StartRectangleSelection | src/rectangleSelection.js:127-154 | a press starts a gesture that is not yet a drag, records the anchor, modifiers and origin, and signals the callback |
| RectangleSelection.SelectionEngine.HighlightElementsInSelection | src/rectangleSelection.js:284-304 | exactly the elements overlapping the preview box are highlighted |
| RectangleSelection.SelectionEngine.MouseMove | src/rectangleSelection.js:159-186 | nothing happens outside a gesture; inside one, a drag starts once the clamped mouse position is more than 5 px away on either axis and is never undone, and while dragging the highlight follows the mouse |
| RectangleSelection.SelectionEngine.CollectRowsToMark | src/rectangleSelection.js:382-387 | the loop collects exactly the rows to mark |
| RectangleSelection.SelectionEngine.ApplyHits | src/rectangleSelection.js:330-365 | each hit toggles its index under Ctrl, and adds it without Ctrl |
| RectangleSelection.SelectionEngine.PushPersistentSelection | src/rectangleSelection.js:376-411 | the calls made are the push of the persistent set |
| RectangleSelection.SelectionEngine.SelectElementsInRectangle | src/rectangleSelection.js:319-412 | the new set is the hit indices without Ctrl, or the old set toggled by each hit with Ctrl; the visual selection follows the set; the host gets the clear, then the push |
| RectangleSelection.SelectionEngine.FinishClick | src/rectangleSelection.js:202-227 | a click sends the click calls for where the press landed |
| RectangleSelection.SelectionEngine.FinishDrag | src/rectangleSelection.js:228-259 | a large enough drag commits the rectangle; a smaller one leaves the set alone and only clears unless Ctrl |
| RectangleSelection.SelectionEngine.MouseUp | src/rectangleSelection.js:191-279 | nothing happens outside a gesture; otherwise the gesture always ends with nothing highlighted. A click leaves the set unchanged and sends the click calls; a large drag commits; a small drag only clears unless Ctrl |
| ContextMenu.IsValidMode | src/contextMenu.js:298 | the three known modes; GetLabelVisibilitySettings proves every loaded mode is one of them |
| ContextMenu.Merge | src/contextMenu.js:294-295 | the stored fields over the defaults; GetLabelVisibilitySettings states the field-wise outcome |
| ContextMenu.GetLabelVisibilitySettings | src/contextMenu.js:283-307 | the mode is always one of all/marked/none; no property or unparsable text gives the defaults; otherwise every field present overrides its default, and a missing or unknown mode becomes "all" |
| ContextMenu.LoadAfterSave | src/contextMenu.js:312-324 | loading what was just saved gives the saved settings back, with an invalid mode replaced by "all" |
| ContextMenu.SaveOfLoadIsStable | src/contextMenu.js:283-324 | saving the loaded settings does not change what the next load returns |
| ContextMenu.LoadedSettingsCheckOneRadio | src/contextMenu.js:166-264 | for loaded settings: exactly one radio is checked; the checkboxes are enabled exactly when the "none" radio is not checked; choosing the checked radio again leaves the mode unchanged |
| ContextMenu.ApplyChange | src/contextMenu.js:229-264 | only a truthy mode or a min/max/value event changes anything; a mode event sets the mode, and "none" also clears all three flags; a checkbox event sets its flag to the value's truthiness and leaves the rest |
| ContextMenu.NoneChoiceDisablesAndClears | src/contextMenu.js:234-247 | after choosing "none", the next load has every flag off and its popout has the checkboxes disabled |
| ContextMenu.ShouldShowLabelsForRow | src/contextMenu.js:343-351 | the row decision per mode; NoneModeHidesEverything, MarkedModeFollowsMarking and OtherModesFollowFlags state it for each mode |
| ContextMenu.LabelShown | src/contextMenu.js:354-359 | a label is shown when its kind's flag is on and its row is shown; the three mode lemmas state it |
| ContextMenu.NoneModeHidesEverything | src/contextMenu.js:343-351 | in "none" mode every label is hidden |
| ContextMenu.MarkedModeFollowsMarking | src/contextMenu.js:343-358 | in "marked" mode with all flags on, a label in a row shows exactly when its row index is in the set; one outside every row is judged as row -1 |
| ContextMenu.OtherModesFollowFlags | src/contextMenu.js:343-351 | in any other mode, including an unknown one, a label shows exactly when its kind's flag is on |
| ContextMenu.ApplyForKind | src/contextMenu.js:416-422 | the labels of one kind get their shown/hidden value; the other labels keep theirs |
| ContextMenu.UpdateLabelVisibilityWithMarking | src/contextMenu.js:400-441 | every label's display is the show decision for the settings and the given set (empty when none is given), whatever it was before |
| ContextMenu.UpdateLabelVisibility | src/contextMenu.js:329-379 | every label's display is the show decision against the engine's persistent set (empty without an engine) |
| ContextMenu.LabelMenu.constructor | src/contextMenu.js:12-14 | no plugin handle and no property at load |
| ContextMenu.LabelMenu.InitializeContextMenu | src/contextMenu.js:19-35 | records the plugin handle and the label property |
| ContextMenu.LabelMenu.SaveLabelVisibilitySettings | src/contextMenu.js:312-324 | stores the settings when a property exists, otherwise nothing |
| ContextMenu.LabelMenu.ShowPopoutMenu | src/contextMenu.js:159-221 | a popout exists exactly with a handle and a property, and shows the controls for the loaded settings |
| ContextMenu.LabelMenu.OnChange | src/contextMenu.js:229-264 | an event that changes nothing leaves the property and every label alone; otherwise the updated settings are saved and every label follows them |
| ContextMenu.LabelMenu.ApplyLabelVisibility | src/contextMenu.js:384-387 | every label follows the loaded settings and the engine's set |
| ContextMenu.LabelMenu.ApplyLabelVisibilityWithMarking | src/contextMenu.js:392-395 | every label follows the loaded settings and the given set |
| DataShaping.Categorized | src/main.ts:94-136 | at most one plot row per host row; each is built from a host row with both bounds, at the position it carries, with value, value text and colour filled in as the source does |
| DataShaping.CategorizedOrdered | src/main.ts:94-136 | the plot rows keep input order: their row indices strictly increase |
| DataShaping.CategorizedComplete | src/main.ts:94-136 | every host row with both bounds yields a plot row |
| DataShaping.CategorizedColors | src/main.ts:115-116 | a plot row has the host's colour, or the default blue when the host gives none |
| DataShaping.CategorizedWithoutValueAxis | src/main.ts:107-112 | without a Value axis no plot row has a value or a value text |
| DataShaping.ShapeCategorized | src/main.ts:94-136 | the loop, which skips rows whose accessors throw, builds exactly the categorized rows |
| DataShaping.MinValues | src/main.ts:147-152 | the collected Mins are exactly those of the rows with both bounds; there are none exactly when no row has both |
| DataShaping.MaxValues | src/main.ts:148-153 | the collected Maxes are exactly those of the rows with both bounds, as many as the Mins |
| DataShaping.ValueValues | src/main.ts:149-156 | without a Value axis nothing is collected; with one, exactly the non-null Values of rows with both bounds |
| DataShaping.Aggregated | src/main.ts:164-186 | the aggregated branch's result; its meaning is stated by AggregatedSpec |
| DataShaping.AggregatedSpec | src/main.ts:164-186 | at most one row, present exactly when some row has both bounds. It is named "Data", has row index 0 and the default colour, and its Min and Max are the least Min and greatest Max that occur. It has a value, and a value text, exactly when some such row has a Value on a Value axis |
| DataShaping.CollectAggregates | src/main.ts:143-162 | the loop collects exactly the Mins, Maxes and Values |
| DataShaping.ShapeAggregated | src/main.ts:139-186 | builds exactly the aggregated row |
| DataShaping.CollectMarkedRows | src/main.ts:221-229 | a position is in the set exactly when the host row there is marked |
| DataShaping.Render | src/main.ts:84-229 | no rows gives no data and no set; otherwise the category axis chooses the branch; the marked set is gathered exactly when the container node exists and there is something to draw |
| Numbers.SeqMin | src/rangePlot.js:21 | the minimum occurs in the list and is at most every element |
| Numbers.SeqMax | src/rangePlot.js:22 | the maximum occurs in the list and is at least every element |
| RangePlot.AllValues | src/rangePlot.js:20 | three points per row, and each row's min, max and value are among them |
| RangePlot.AllValuesArePoints | src/rangePlot.js:20 | every flattened value is the min, max or value of some row |
| RangePlot.AbsoluteMin | src/rangePlot.js:21 | the least data point; ScaleBounds proves it bounds every point from below and is itself a point |
| RangePlot.AbsoluteMax | src/rangePlot.js:22 | the greatest data point; ScaleBounds proves it bounds every point from above and is itself a point |
| RangePlot.Range | src/rangePlot.js:23 | the width of the scale; ScaleBounds proves it is never negative |
| RangePlot.ScaleBounds | src/rangePlot.js:20-23 | every min, max and value lies between the absolute minimum and maximum; both bounds are data points; the range is never negative |
| RangePlot.Percent | src/rangePlot.js:31-33 | the linear percent map; PercentEnds, PercentMonotone and PercentWithinScale state its properties |
| RangePlot.PercentEnds | src/rangePlot.js:31-33 | with a positive range the scale sends its start to 0 and its end to 100 |
| RangePlot.PercentMonotone | src/rangePlot.js:31-33 | the percent map is strictly increasing: it keeps and reflects both `<` and `<=` |
| RangePlot.PercentWithinScale | src/rangePlot.js:31-33 | every point of the scale's span lands in [0, 100] |
| RangePlot.SegmentColor | src/rangePlot.js:36 | a segment never lacks a colour; a non-empty colour is kept, an empty one becomes the default blue |
| RangePlot.RowViewOf | src/rangePlot.js:31-63 | the row drawn for one item; its geometry is stated by RowGeometry and RowsWithinPlot |
| RangePlot.RowGeometry | src/rangePlot.js:38-63 | the segment starts at the min endpoint and ends at the max endpoint; labels sit over their points and show the row's numbers; the width is non-negative exactly when min is at most max; colour and category come from the row |
| RangePlot.RowsWithinPlot | src/rangePlot.js:31-51 | on the data's own scale every segment start, max endpoint and value indicator lies in [0, 100] |
| RangePlot.Container.AppendChild | src/rangePlot.js:65 | the new row goes after the existing ones |
| RangePlot.CreateRangePlot | src/rangePlot.js:10-67 | without a container nothing happens; otherwise the container holds exactly one row per data item, in order, each drawn on the scale shared by all items |

## Left out

- DOM and CSS plumbing is not modelled:
  - the injected styles, the selection rectangle's position and visibility, and cursors;
  - the settings icon, its hover handlers and `updateSettingsIconPosition`;
  - `cleanupContextMenu` and the popout widget rendering.

  Element boxes are inputs to the handlers, and class changes are modelled as sets of element positions.
- Host I/O is not modelled: reading the axes, the missing-axis error overlay, the missing-container error overlay (main.ts:192-198; DataShaping.Render models only that the render stops there), `signalRenderComplete`, and the asynchronous calls of the render. A data view is modelled only by whether it is present.
- `try`/`catch` around host calls: a call is logged as issued. A `mark` or `clearMarking` that throws is not modelled.
- A row whose `isMarked()` throws is not modelled: in the source that ends the marked-row loop early.
- JSON text is modelled by its parse result. `JSON.stringify` and `JSON.parse` themselves are not modelled. Stored blobs are modelled with boolean flags, whereas the source takes non-boolean flags by truthiness. Extra fields in a stored blob are not kept.
- RectangleSelection.RowsToMark: the rows are passed to `mark` in ascending index order. The source passes them in the Set's insertion order. The marking a host applies for a set of rows does not depend on their order.
- A non-numeric `data-row-index` is not modelled. In the source it parses to NaN: a drag would add NaN to the set, and a click would mark nothing. A row element's index is modelled as an optional integer.
- RectangleSelection.QueryRow: compares the parsed integer index. The source's `restoreVisualSelection` instead compares the `data-row-index` attribute's text, while a drag reads that text with `parseInt`. So a drag adds an attribute such as `"07"` or `"3.0"` to the set as 7 or 3, but `restoreVisualSelection` never finds that row. The model does not capture this difference.
- A second press before a release is not modelled: the source then leaks the first pair of listeners.
- Floating point is not modelled: numbers are reals, with no NaN and no infinities. RangePlot.CreateRangePlot requires a positive range on non-empty data, because the source has no guard for a zero range (it would draw NaN percents). The aggregated average in DataShaping.Aggregated is exact real division.
- RangePlot.NumberOf: a null value counts as 0, as `Math.min`/`Math.max` and the subtraction coerce it. The value label's text keeps the null.
- Code with no caller is left out: `handleElementClick` and `addElementClickHandlers` (empty), `handlePlotRowClick`, and the `parseRangePlotData` / `updateRangePlot` JSON wrappers.
- `addPlotRowClickHandlers` is called on every render that has data, but it only sets the rows' cursor, so it is left out with the rest of the DOM plumbing.
- Where the selection engine is installed is not part of this model: `initializeRectangleMarking`, which hooks `onmousedown`, is exported but not called from any of the modelled files. The model describes the engine's handlers as they behave once installed.
- Logging (`console.*`, `debugLog`) is left out.
- The drawn rows carry no `data-row-index` or `data-label-type`, so the selection model and the label model take a row's index and a label's kind and row as inputs.

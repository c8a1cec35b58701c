/**
 * The rectangle-selection and click-marking engine of the range plot: the
 * mouse state machine (press, move, release), the strict overlap test, the
 * persistent set of selected row indices and the marking calls it makes on
 * the host's current data view.
 *
 * Page geometry is input: every handler is given the boxes of the elements it
 * would query. Host calls are appended to the ghost log `calls`.
 */
module RectangleSelection {
  import opened Optional
  import opened Host

  /** A box as `getBoundingClientRect` reports it. */
  datatype Rect = Rect(left: real, top: real, right: real, bottom: real)

  datatype Point = Point(x: real, y: real)

  /** The modifier keys captured when the mouse button went down. */
  datatype Modifiers = Modifiers(ctrlKey: bool, altKey: bool)

  /**
   * A `.plot-row` element, in document order: its box, and its
   * `data-row-index` attribute parsed to an integer (`None` when absent).
   */
  datatype RowElement = RowElement(rect: Rect, rowIndex: Option<int>)

  /** Movement beyond this, on either axis, turns a press into a drag. */
  const MinDragDistance: real := 5.0

  /** A drag commits a rectangle only when both sides exceed this. */
  const MinSelectionSize: real := 5.0

  function Abs(v: real): (r: real)
    ensures r >= 0.0 && (r == v || r == -v)
  {
    if v < 0.0 then -v else v
  }

  function Min(a: real, b: real): real { if a <= b then a else b }

  function Max(a: real, b: real): real { if a <= b then b else a }

  /** `clamp(value, min, max)`: `Math.min(Math.max(min, value), max)`. */
  function Clamp(value: real, lo: real, hi: real): (r: real)
    ensures lo <= hi ==> lo <= r <= hi
    ensures lo <= value <= hi ==> r == value
    ensures r <= hi
  {
    var raised := if lo < value then value else lo;
    if raised < hi then raised else hi
  }

  // ---------------------------------------------------------------------
  // Geometry
  // ---------------------------------------------------------------------

  /** `isElementInSelection`: strict (open-interval) overlap on both axes. */
  predicate IsElementInSelection(elementRect: Rect, selectionRect: Rect)
  {
    && elementRect.left < selectionRect.right
    && elementRect.right > selectionRect.left
    && elementRect.top < selectionRect.bottom
    && elementRect.bottom > selectionRect.top
  }

  /** The overlap test does not depend on which box is the selection. */
  lemma OverlapIsSymmetric(a: Rect, b: Rect)
    ensures IsElementInSelection(a, b) <==> IsElementInSelection(b, a)
  {
  }

  /** Boxes that only share an edge (or lie apart) do not overlap. */
  lemma TouchingBoxesDoNotOverlap(a: Rect, b: Rect)
    requires a.right <= b.left || b.right <= a.left || a.bottom <= b.top || b.bottom <= a.top
    ensures !IsElementInSelection(a, b)
  {
  }

  predicate StrictlyInside(p: Point, r: Rect)
  {
    r.left < p.x < r.right && r.top < p.y < r.bottom
  }

  /**
   * For boxes of positive width and height, the overlap test holds exactly
   * when some point lies strictly inside both: it is the overlap of the open
   * interiors.
   */
  lemma OverlapIsSharedInterior(a: Rect, b: Rect)
    requires a.left < a.right && a.top < a.bottom
    requires b.left < b.right && b.top < b.bottom
    ensures IsElementInSelection(a, b) <==> exists p :: StrictlyInside(p, a) && StrictlyInside(p, b)
  {
    if IsElementInSelection(a, b) {
      var lo := Point(Max(a.left, b.left), Max(a.top, b.top));
      var hi := Point(Min(a.right, b.right), Min(a.bottom, b.bottom));
      var mid := Point((lo.x + hi.x) / 2.0, (lo.y + hi.y) / 2.0);
      assert StrictlyInside(mid, a) && StrictlyInside(mid, b);
    }
  }

  /**
   * The box spanned by the anchor and a second corner, written as the source
   * builds it: the smaller coordinate plus the absolute distance.
   */
  function SpanRect(anchor: Point, x: real, y: real): (r: Rect)
    ensures r.left == Min(anchor.x, x) && r.right == Max(anchor.x, x)
    ensures r.top == Min(anchor.y, y) && r.bottom == Max(anchor.y, y)
    ensures r.right - r.left == Abs(anchor.x - x) && r.bottom - r.top == Abs(anchor.y - y)
  {
    var left := if x < anchor.x then x else anchor.x;
    var top := if y < anchor.y then y else anchor.y;
    Rect(left, top, left + Abs(anchor.x - x), top + Abs(anchor.y - y))
  }

  /** The axis distances of a release point from the anchor decide a commit. */
  predicate CommitsRectangle(anchor: Point, x: real, y: real)
  {
    Abs(anchor.x - x) > MinSelectionSize && Abs(anchor.y - y) > MinSelectionSize
  }

  /** A committed rectangle is more than 5 px wide and high. */
  lemma CommittedRectIsLarge(anchor: Point, x: real, y: real)
    requires CommitsRectangle(anchor, x, y)
    ensures SpanRect(anchor, x, y).right - SpanRect(anchor, x, y).left > MinSelectionSize
    ensures SpanRect(anchor, x, y).bottom - SpanRect(anchor, x, y).top > MinSelectionSize
  {
  }

  /** The positions of the elements whose boxes overlap `sel`. */
  function HighlightedIn(elements: seq<Rect>, sel: Rect): set<nat>
  {
    set i: nat | i < |elements| && IsElementInSelection(elements[i], sel)
  }

  /** `b` covers `a` on both axes. */
  predicate Covers(b: Rect, a: Rect)
  {
    b.left <= a.left && a.right <= b.right && b.top <= a.top && a.bottom <= b.bottom
  }

  /**
   * Growing the preview box never drops a highlight: everything a box
   * highlights stays highlighted in any box that covers it.
   */
  lemma HighlightGrowsWithBox(elements: seq<Rect>, a: Rect, b: Rect)
    requires Covers(b, a)
    ensures HighlightedIn(elements, a) <= HighlightedIn(elements, b)
  {
    forall i | i in HighlightedIn(elements, a)
      ensures i in HighlightedIn(elements, b)
    {
      assert IsElementInSelection(elements[i], a);
    }
  }

  // ---------------------------------------------------------------------
  // The persistent selection and what a committed rectangle does to it
  // ---------------------------------------------------------------------

  /**
   * The row indices a rectangle hits, in document order: one entry per
   * overlapping row that carries an index; rows without one are skipped.
   */
  function Hits(rows: seq<RowElement>, sel: Rect): (h: seq<int>)
    ensures forall x :: x in h <==>
      exists p :: 0 <= p < |rows| && IsElementInSelection(rows[p].rect, sel) && rows[p].rowIndex == Some(x)
  {
    if |rows| == 0 then []
    else
      var last := rows[|rows| - 1];
      var h0 := Hits(rows[..|rows| - 1], sel);
      assert forall p :: 0 <= p < |rows| - 1 ==> rows[..|rows| - 1][p] == rows[p];
      if IsElementInSelection(last.rect, sel) && last.rowIndex.Some? then h0 + [last.rowIndex.value] else h0
  }

  /** No two rows carry the same index (rows without one are not compared). */
  predicate DistinctIndices(rows: seq<RowElement>)
  {
    forall p, q :: 0 <= p < q < |rows| && rows[q].rowIndex.Some? ==> rows[p].rowIndex != rows[q].rowIndex
  }

  /** When no two rows share an index, a rectangle hits each index at most once. */
  lemma {:induction false} HitsOnce(rows: seq<RowElement>, sel: Rect, x: int)
    requires DistinctIndices(rows)
    ensures multiset(Hits(rows, sel))[x] <= 1
  {
    if |rows| > 0 {
      var n := |rows| - 1;
      var init := rows[..n];
      assert DistinctIndices(init) by {
        forall p, q | 0 <= p < q < |init| && init[q].rowIndex.Some?
          ensures init[p].rowIndex != init[q].rowIndex
        {
          assert init[p] == rows[p] && init[q] == rows[q];
        }
      }
      HitsOnce(init, sel, x);
      var last := rows[n];
      if IsElementInSelection(last.rect, sel) && last.rowIndex.Some? && last.rowIndex.value == x {
        assert Hits(rows, sel) == Hits(init, sel) + [x];
        assert forall p :: 0 <= p < |init| ==> init[p].rowIndex != Some(x) by {
          forall p | 0 <= p < |init| ensures init[p].rowIndex != Some(x) {
            assert init[p] == rows[p];
          }
        }
        assert x !in Hits(init, sel);
        assert multiset(Hits(rows, sel)) == multiset(Hits(init, sel)) + multiset{x};
      } else if IsElementInSelection(last.rect, sel) && last.rowIndex.Some? {
        assert Hits(rows, sel) == Hits(init, sel) + [last.rowIndex.value];
        assert multiset(Hits(rows, sel)) == multiset(Hits(init, sel)) + multiset{last.rowIndex.value};
      } else {
        assert Hits(rows, sel) == Hits(init, sel);
      }
    }
  }

  /** The hit indices as a set, as repeated `add` calls leave them. */
  function Elements(h: seq<int>): set<int>
  {
    set x | x in h
  }

  /** Set.has then delete or add. */
  function Toggle(s: set<int>, x: int): (t: set<int>)
    ensures x in t <==> x !in s
    ensures forall y :: y != x ==> (y in t <==> y in s)
  {
    if x in s then s - {x} else s + {x}
  }

  /** Toggling each index of `h` in turn, first to last. */
  function ToggleAll(s: set<int>, h: seq<int>): set<int>
  {
    if |h| == 0 then s else Toggle(ToggleAll(s, h[..|h| - 1]), h[|h| - 1])
  }

  /**
   * After toggling every index of `h`, an index is selected exactly when it
   * was selected before or was hit an odd number of times, but not both.
   */
  lemma {:induction false} ToggleAllParity(s: set<int>, h: seq<int>, x: int)
    ensures x in ToggleAll(s, h) <==> ((x in s) != (multiset(h)[x] % 2 == 1))
  {
    if |h| > 0 {
      var init := h[..|h| - 1];
      ToggleAllParity(s, init, x);
      assert h == init + [h[|h| - 1]];
      assert multiset(h) == multiset(init) + multiset{h[|h| - 1]};
    }
  }

  /** Indices the rectangle does not hit keep their membership under Ctrl. */
  lemma ToggleAllKeepsUnhit(s: set<int>, h: seq<int>, x: int)
    requires x !in h
    ensures x in ToggleAll(s, h) <==> x in s
  {
    ToggleAllParity(s, h, x);
    assert multiset(h)[x] == 0;
  }

  /** An index hit exactly once flips its membership under Ctrl. */
  lemma ToggleAllFlipsSingleHit(s: set<int>, h: seq<int>, x: int)
    requires multiset(h)[x] == 1
    ensures x in ToggleAll(s, h) <==> x !in s
  {
    ToggleAllParity(s, h, x);
  }

  /**
   * The persistent set a committed rectangle leaves: a fresh set of the hit
   * indices without Ctrl, each hit toggled with Ctrl.
   */
  function CommitSelection(previous: set<int>, hits: seq<int>, ctrlKey: bool): set<int>
  {
    if ctrlKey then ToggleAll(previous, hits) else Elements(hits)
  }

  /** Without Ctrl the committed set holds exactly the indices of the overlapping rows. */
  lemma PlainCommitIsHitRows(previous: set<int>, rows: seq<RowElement>, sel: Rect, x: int)
    ensures x in CommitSelection(previous, Hits(rows, sel), false) <==>
      exists p :: 0 <= p < |rows| && IsElementInSelection(rows[p].rect, sel) && rows[p].rowIndex == Some(x)
  {
  }

  /**
   * With Ctrl, when no two rows share an index, the index of every
   * overlapping row flips and every other index keeps its membership.
   */
  lemma CtrlCommitFlipsHitRows(previous: set<int>, rows: seq<RowElement>, sel: Rect, x: int)
    requires DistinctIndices(rows)
    ensures x in CommitSelection(previous, Hits(rows, sel), true) <==>
      ((x in previous) != exists p :: 0 <= p < |rows| && IsElementInSelection(rows[p].rect, sel) && rows[p].rowIndex == Some(x))
  {
    var h := Hits(rows, sel);
    ToggleAllParity(previous, h, x);
    HitsOnce(rows, sel, x);
    if x in h {
      assert multiset(h)[x] == 1;
    } else {
      assert multiset(h)[x] == 0;
    }
  }

  /**
   * The host rows for the selected indices that exist in `allRows`
   * (`allRows[index]` is defined), in ascending index order.
   */
  function RowsToMark(selected: set<int>, allRows: seq<HostRow>): (rows: seq<HostRow>)
    ensures |rows| <= |allRows|
    ensures forall r :: r in rows <==> exists i :: 0 <= i < |allRows| && i in selected && allRows[i] == r
    ensures rows == [] <==> forall i :: 0 <= i < |allRows| ==> i !in selected
  {
    if |allRows| == 0 then []
    else
      var n := |allRows| - 1;
      var init := RowsToMark(selected, allRows[..n]);
      assert forall i :: 0 <= i < n ==> allRows[..n][i] == allRows[i];
      if n in selected then init + [allRows[n]] else init
  }

  /**
   * One row per selected index that exists, in ascending index order: the
   * positions `ps` are strictly increasing selected indices of `allRows`,
   * every such index is among them, and row `k` is `allRows[ps[k]]`.
   */
  lemma {:induction false} RowsToMarkPositions(selected: set<int>, allRows: seq<HostRow>) returns (ps: seq<nat>)
    ensures |ps| == |RowsToMark(selected, allRows)|
    ensures forall k :: 0 <= k < |ps| ==>
      ps[k] < |allRows| && ps[k] in selected && RowsToMark(selected, allRows)[k] == allRows[ps[k]]
    ensures forall k, l :: 0 <= k < l < |ps| ==> ps[k] < ps[l]
    ensures forall i :: 0 <= i < |allRows| && i in selected ==> i in ps
  {
    if |allRows| == 0 {
      ps := [];
      return;
    }
    var n := |allRows| - 1;
    var init := RowsToMarkPositions(selected, allRows[..n]);
    assert forall i :: 0 <= i < n ==> allRows[..n][i] == allRows[i];
    if n in selected {
      ps := init + [n];
      assert RowsToMark(selected, allRows) == RowsToMark(selected, allRows[..n]) + [allRows[n]];
    } else {
      ps := init;
      assert RowsToMark(selected, allRows) == RowsToMark(selected, allRows[..n]);
    }
  }

  /** `clearMarking()` on the current data view when Ctrl is not held. */
  function ClearUnlessCtrl(ctrlKey: bool, hasDataView: bool): seq<HostCall>
  {
    if !ctrlKey && hasDataView then [ClearMarking] else []
  }

  /**
   * The host calls that push the persistent set after a commit: one
   * `mark(rows, "Replace")` with every selected row that exists, when the
   * set is non-empty and the plugin handle, the data view and the rows are
   * all present; `clearMarking()` when the set is empty.
   */
  function PushSelection(selected: set<int>, hasMod: bool, allRows: Option<seq<HostRow>>, hasDataView: bool)
    : (calls: seq<HostCall>)
    ensures |calls| <= 1
    ensures calls == [ClearMarking] <==> |selected| == 0 && hasDataView
    ensures (exists rows :: calls == [Mark(rows, Replace)]) <==>
      hasMod && hasDataView && allRows.Some? && exists i :: 0 <= i < |allRows.value| && i in selected
    ensures forall k :: 0 <= k < |calls| && calls[k].Mark? ==>
      calls[k].mode == Replace && calls[k].rows == RowsToMark(selected, allRows.value) &&
      forall r :: r in calls[k].rows <==> exists i :: 0 <= i < |allRows.value| && i in selected && allRows.value[i] == r
    ensures forall k :: 0 <= k < |calls| ==> !calls[k].DragSelectActive?
  {
    if hasMod && |selected| > 0 then
      if hasDataView && allRows.Some? && RowsToMark(selected, allRows.value) != [] then
        [Mark(RowsToMark(selected, allRows.value), Replace)]
      else []
    else if |selected| == 0 && hasDataView then [ClearMarking]
    else []
  }

  /**
   * Everything a committed rectangle sends to the host: without Ctrl the
   * `clearMarking()` of `clearSelection(mod)` first, then the push.
   */
  function CommitCalls(committed: set<int>, ctrlKey: bool, hasMod: bool, allRows: Option<seq<HostRow>>, hasDataView: bool)
    : (calls: seq<HostCall>)
    ensures |calls| <= 2
    ensures forall k :: 0 <= k < |calls| ==> !calls[k].DragSelectActive? && (calls[k].Mark? ==> calls[k].mode == Replace)
    ensures ctrlKey ==> calls == PushSelection(committed, hasMod, allRows, hasDataView)
    ensures !hasDataView ==> calls == []
  {
    (if !ctrlKey && hasMod && hasDataView then [ClearMarking] else [])
      + PushSelection(committed, hasMod, allRows, hasDataView)
  }

  /**
   * What a press-and-release without a drag sends to the host. On a row
   * with an index that exists in `allRows`: one single-row `mark`,
   * "ToggleOrAdd" with Ctrl and "Replace" without. Outside every row (or
   * without the plugin handle or the rows): `clearMarking()` unless Ctrl.
   */
  function ClickCalls(origin: RowAncestor, ctrlKey: bool, hasMod: bool, allRows: Option<seq<HostRow>>, hasDataView: bool)
    : (calls: seq<HostCall>)
    ensures |calls| <= 1
    ensures forall k :: 0 <= k < |calls| && calls[k].Mark? ==>
      origin.InPlotRow? && origin.rowIndex.Some? && allRows.Some? &&
      0 <= origin.rowIndex.value < |allRows.value| &&
      calls[k] == Mark([allRows.value[origin.rowIndex.value]], if ctrlKey then ToggleOrAdd else Replace)
    ensures origin.NoPlotRow? ==> calls == ClearUnlessCtrl(ctrlKey, hasDataView)
    ensures origin.InPlotRow? && (!hasMod || allRows.None?) ==> calls == ClearUnlessCtrl(ctrlKey, hasDataView)
    ensures origin.InPlotRow? && origin.rowIndex.Some? && hasMod && allRows.Some? && hasDataView &&
            0 <= origin.rowIndex.value < |allRows.value| ==>
      calls == [Mark([allRows.value[origin.rowIndex.value]], if ctrlKey then ToggleOrAdd else Replace)]
    ensures origin.InPlotRow? && hasMod && allRows.Some? &&
            !(origin.rowIndex.Some? && hasDataView && 0 <= origin.rowIndex.value < |allRows.value|) ==>
      calls == []
  {
    if origin.InPlotRow? && hasMod && allRows.Some? then
      if origin.rowIndex.Some? && 0 <= origin.rowIndex.value < |allRows.value| && hasDataView then
        [Mark([allRows.value[origin.rowIndex.value]], if ctrlKey then ToggleOrAdd else Replace)]
      else []
    else ClearUnlessCtrl(ctrlKey, hasDataView)
  }

  // ---------------------------------------------------------------------
  // Visual selection
  // ---------------------------------------------------------------------

  /** No row before position `p` carries the same index as `p`. */
  predicate FirstWithItsIndex(rows: seq<RowElement>, p: nat)
    requires p < |rows|
  {
    forall q :: 0 <= q < p ==> rows[q].rowIndex != rows[p].rowIndex
  }

  /** Two rows that are each the first with the same index are the same row. */
  lemma FirstWithIndexIsUnique(rows: seq<RowElement>, p: nat, q: nat)
    requires p < |rows| && q < |rows| && rows[p].rowIndex == rows[q].rowIndex
    requires FirstWithItsIndex(rows, p) && FirstWithItsIndex(rows, q)
    ensures p == q
  {
  }

  /**
   * `document.querySelector('.plot-row[data-row-index="r"]')`: the first
   * row, in document order, whose index is `r`.
   */
  function QueryRow(rows: seq<RowElement>, r: int): (found: Option<nat>)
    ensures found.Some? ==>
      found.value < |rows| && rows[found.value].rowIndex == Some(r) && FirstWithItsIndex(rows, found.value)
    ensures found.None? ==> forall q :: 0 <= q < |rows| ==> rows[q].rowIndex != Some(r)
  {
    if |rows| == 0 then None
    else if rows[0].rowIndex == Some(r) then Some(0)
    else
      match QueryRow(rows[1..], r)
      case None => None
      case Some(p) => Some(p + 1)
  }

  /**
   * The row positions that carry `selected` after `restoreVisualSelection`:
   * for each selected index, the first row carrying it.
   */
  function VisuallySelected(rows: seq<RowElement>, selected: set<int>): set<nat>
  {
    set p: nat | p < |rows| && rows[p].rowIndex.Some? && rows[p].rowIndex.value in selected && FirstWithItsIndex(rows, p)
  }

  /**
   * When no two rows share an index (as the rows the plot draws), exactly the
   * rows whose index is selected are shown selected.
   */
  lemma VisuallySelectedDistinct(rows: seq<RowElement>, selected: set<int>)
    requires DistinctIndices(rows)
    ensures forall p :: p in VisuallySelected(rows, selected) <==>
      0 <= p < |rows| && rows[p].rowIndex.Some? && rows[p].rowIndex.value in selected
  {
  }

  // ---------------------------------------------------------------------
  // The engine: the source's module-level state as one object
  // ---------------------------------------------------------------------

  class SelectionEngine {
    /** Whether `currentDataView` is set. */
    var currentDataView: bool
    /** `persistentSelectedRowIndices`. */
    var persistent: set<int>
    var selectionPoint: Point
    var meta: Modifiers
    var isSelecting: bool
    var isDragging: bool
    /** Where the press landed, relative to the plot rows; `None` is `null`. */
    var dragStartElement: Option<RowAncestor>
    /** Positions of the `.plot-row` elements (with their segment, endpoints and indicator) carrying `selected`. */
    var selectedRows: set<nat>
    /** Positions of the segment, endpoint and indicator elements carrying `highlighted`. */
    var highlighted: set<nat>
    /** Every call made on the host, and the gesture callback, in order. */
    ghost var calls: seq<HostCall>

    /** A gesture is under way exactly when a press has set its origin; only a gesture drags. */
    ghost predicate Valid()
      reads this
    {
      && (isSelecting <==> dragStartElement.Some?)
      && (isDragging ==> isSelecting)
    }

    /** The state when the script loads. */
    constructor ()
      ensures Valid()
      ensures !currentDataView && persistent == {} && !isSelecting && !isDragging
      ensures selectionPoint == Point(0.0, 0.0) && meta == Modifiers(false, false)
      ensures selectedRows == {} && highlighted == {} && calls == []
    {
      currentDataView := false;
      persistent := {};
      selectionPoint := Point(0.0, 0.0);
      meta := Modifiers(false, false);
      isSelecting := false;
      isDragging := false;
      dragStartElement := None;
      selectedRows := {};
      highlighted := {};
      calls := [];
    }

    /** `setCurrentDataView`, called by each render. */
    method SetCurrentDataView(present: bool)
      modifies this`currentDataView
      ensures currentDataView == present
    {
      currentDataView := present;
    }

    /** `getSelectedRowIndices`: the persistent set itself. */
    method GetSelectedRowIndices() returns (indices: set<int>)
      ensures indices == persistent
    {
      indices := persistent;
    }

    /**
     * `restoreVisualSelection`: remove `selected` everywhere, then put it on
     * the row found for each persistent index, and on that row's children.
     */
    method RestoreVisualSelection(rows: seq<RowElement>)
      modifies this`selectedRows
      ensures selectedRows == VisuallySelected(rows, persistent)
    {
      selectedRows := {};
      var todo := persistent;
      while todo != {}
        invariant todo <= persistent
        invariant selectedRows == VisuallySelected(rows, persistent - todo)
        decreases |todo|
      {
        var r :| r in todo;
        var found := QueryRow(rows, r);
        ghost var before := selectedRows;
        if found.Some? {
          selectedRows := selectedRows + {found.value};
        }
        todo := todo - {r};
        forall p | p in VisuallySelected(rows, persistent - todo)
          ensures p in selectedRows
        {
          if rows[p].rowIndex.value == r {
            assert found.Some?;
            FirstWithIndexIsUnique(rows, found.value, p);
          } else {
            assert p in before;
          }
        }
      }
      assert persistent - todo == persistent;
    }

    /** `clearSelection(mod)`: empty the set and the visual selection; clear host marking only given `mod`. */
    method ClearSelection(hasMod: bool)
      modifies this`selectedRows, this`persistent, this`calls
      ensures persistent == {} && selectedRows == {}
      ensures calls == old(calls) + (if hasMod && currentDataView then [ClearMarking] else [])
    {
      selectedRows := {};
      persistent := {};
      if hasMod && currentDataView {
        calls := calls + [ClearMarking];
      }
    }

    /**
     * `handlePlotRowClickDirect`: mark the one clicked row, "ToggleOrAdd"
     * with Ctrl and "Replace" without; nothing without a data view.
     */
    method HandlePlotRowClickDirect(rowIndex: int, ctrlPressed: bool, allRows: seq<HostRow>)
      requires 0 <= rowIndex < |allRows|
      modifies this`calls
      ensures calls == old(calls) +
        (if currentDataView then [Mark([allRows[rowIndex]], if ctrlPressed then ToggleOrAdd else Replace)] else [])
    {
      if !currentDataView {
        return;
      }
      if ctrlPressed {
        calls := calls + [Mark([allRows[rowIndex]], ToggleOrAdd)];
      } else {
        calls := calls + [Mark([allRows[rowIndex]], Replace)];
      }
    }

    /** `startRectangleSelection`: a press begins a gesture, not yet a drag. */
    method StartRectangleSelection(x: real, y: real, modifiers: Modifiers, target: RowAncestor)
      modifies this`isSelecting, this`isDragging, this`dragStartElement, this`selectionPoint, this`meta, this`calls
      ensures Valid()
      ensures isSelecting && !isDragging && dragStartElement == Some(target)
      ensures selectionPoint == Point(x, y) && meta == modifiers
      ensures calls == old(calls) + [DragSelectActive]
    {
      isSelecting := true;
      isDragging := false;
      dragStartElement := Some(target);
      calls := calls + [DragSelectActive];
      selectionPoint := Point(x, y);
      meta := modifiers;
    }

    /**
     * `highlightElementsInSelection`: exactly the elements overlapping the
     * preview box carry `highlighted`.
     */
    method HighlightElementsInSelection(x: real, y: real, width: real, height: real, elements: seq<Rect>)
      modifies this`highlighted
      ensures highlighted == HighlightedIn(elements,
        Rect(Min(x, selectionPoint.x), Min(y, selectionPoint.y),
             Min(x, selectionPoint.x) + width, Min(y, selectionPoint.y) + height))
    {
      var sel := Rect(Min(x, selectionPoint.x), Min(y, selectionPoint.y),
                      Min(x, selectionPoint.x) + width, Min(y, selectionPoint.y) + height);
      highlighted := {};
      var i := 0;
      while i < |elements|
        invariant 0 <= i <= |elements|
        invariant highlighted == set k: nat | k < i && IsElementInSelection(elements[k], sel)
      {
        if IsElementInSelection(elements[i], sel) {
          highlighted := highlighted + {i};
        }
        i := i + 1;
      }
    }

    /**
     * `mousemove`: nothing outside a gesture. Inside one, the clamped mouse position
     * starts a drag once it is more than 5 px away on either axis; a drag is
     * never undone by later moves, and while dragging the preview highlight
     * follows the mouse.
     */
    method MouseMove(clientX: real, clientY: real, innerWidth: real, innerHeight: real, elements: seq<Rect>)
      requires Valid()
      modifies this`isDragging, this`highlighted
      ensures Valid()
      ensures !isSelecting ==> isDragging == old(isDragging) && highlighted == old(highlighted)
      ensures isSelecting ==>
        var x := Clamp(clientX, 0.0, innerWidth - 2.0);
        var y := Clamp(clientY, 0.0, innerHeight - 2.0);
        && isDragging == (old(isDragging) || Abs(selectionPoint.x - x) > MinDragDistance
                                          || Abs(selectionPoint.y - y) > MinDragDistance)
        && highlighted == (if isDragging then HighlightedIn(elements, SpanRect(selectionPoint, x, y))
                           else old(highlighted))
      ensures old(isDragging) ==> isDragging
    {
      if !isSelecting {
        return;
      }
      var x := Clamp(clientX, 0.0, innerWidth - 2.0);
      var y := Clamp(clientY, 0.0, innerHeight - 2.0);
      var width := Abs(selectionPoint.x - x);
      var height := Abs(selectionPoint.y - y);
      if !isDragging && (width > MinDragDistance || height > MinDragDistance) {
        isDragging := true;
      }
      if isDragging {
        HighlightElementsInSelection(x, y, width, height, elements);
        assert SpanRect(selectionPoint, x, y) ==
          Rect(Min(x, selectionPoint.x), Min(y, selectionPoint.y),
               Min(x, selectionPoint.x) + width, Min(y, selectionPoint.y) + height);
      }
    }

    /**
     * The `forEach` over the persistent set that gathers `allRows[index]`
     * for every index that exists in `allRows`.
     */
    method CollectRowsToMark(selected: set<int>, allRows: seq<HostRow>) returns (rowsToMark: seq<HostRow>)
      ensures rowsToMark == RowsToMark(selected, allRows)
    {
      rowsToMark := [];
      var i := 0;
      while i < |allRows|
        invariant 0 <= i <= |allRows|
        invariant rowsToMark == RowsToMark(selected, allRows[..i])
      {
        assert allRows[..i + 1][..i] == allRows[..i];
        if i in selected {
          rowsToMark := rowsToMark + [allRows[i]];
        }
        i := i + 1;
      }
      assert allRows[..|allRows|] == allRows;
    }

    /**
     * The `forEach` over the plot rows in `selectElementsInRectangle`: each
     * hit row with an index toggles it (Ctrl) or adds it (no Ctrl).
     */
    method ApplyHits(sel: Rect, ctrlKey: bool, rows: seq<RowElement>)
      modifies this`persistent
      ensures persistent == if ctrlKey then ToggleAll(old(persistent), Hits(rows, sel))
                            else old(persistent) + Elements(Hits(rows, sel))
    {
      ghost var start := persistent;
      var p := 0;
      while p < |rows|
        invariant 0 <= p <= |rows|
        invariant persistent == if ctrlKey then ToggleAll(start, Hits(rows[..p], sel))
                                else start + Elements(Hits(rows[..p], sel))
      {
        var row := rows[p];
        assert rows[..p + 1][..p] == rows[..p];
        if IsElementInSelection(row.rect, sel) && row.rowIndex.Some? {
          var index := row.rowIndex.value;
          if ctrlKey {
            persistent := Toggle(persistent, index);
          } else {
            persistent := persistent + {index};
          }
        }
        p := p + 1;
      }
      assert rows[..|rows|] == rows;
    }

    /**
     * The tail of `selectElementsInRectangle`: a non-empty set is marked
     * with Replace, an empty one clears the host's marking.
     */
    method PushPersistentSelection(hasMod: bool, allRows: Option<seq<HostRow>>)
      modifies this`calls
      ensures calls == old(calls) + PushSelection(persistent, hasMod, allRows, currentDataView)
    {
      if hasMod && |persistent| > 0 {
        if currentDataView && allRows.Some? {
          var rowsToMark := CollectRowsToMark(persistent, allRows.value);
          if |rowsToMark| > 0 {
            calls := calls + [Mark(rowsToMark, Replace)];
          }
        }
      } else if |persistent| == 0 {
        if currentDataView {
          calls := calls + [ClearMarking];
        }
      }
    }

    /**
     * `selectElementsInRectangle`: without Ctrl the selection is cleared and
     * replaced by the hit indices; with Ctrl each hit index is toggled in
     * document order. The visual selection is then rebuilt from the set and
     * the whole set is pushed to the host.
     */
    method SelectElementsInRectangle(sel: Rect, ctrlKey: bool, hasMod: bool, allRows: Option<seq<HostRow>>,
                                     rows: seq<RowElement>)
      modifies this`persistent, this`selectedRows, this`calls
      ensures persistent == CommitSelection(old(persistent), Hits(rows, sel), ctrlKey)
      ensures selectedRows == VisuallySelected(rows, persistent)
      ensures calls == old(calls) + CommitCalls(persistent, ctrlKey, hasMod, allRows, currentDataView)
    {
      if !ctrlKey {
        ClearSelection(hasMod);
        persistent := {};
      }
      ApplyHits(sel, ctrlKey, rows);
      RestoreVisualSelection(rows);
      PushPersistentSelection(hasMod, allRows);
    }

    /**
     * The click branch of `mouseup`: a press on a plot row marks that row in
     * the host; a press elsewhere clears the marking unless Ctrl was held.
     */
    method FinishClick(hasMod: bool, allRows: Option<seq<HostRow>>)
      requires dragStartElement.Some?
      modifies this`calls
      ensures calls == old(calls) + ClickCalls(dragStartElement.value, meta.ctrlKey, hasMod, allRows, currentDataView)
    {
      var origin := dragStartElement.value;
      if origin.InPlotRow? && hasMod && allRows.Some? {
        if origin.rowIndex.Some? && 0 <= origin.rowIndex.value < |allRows.value| {
          HandlePlotRowClickDirect(origin.rowIndex.value, meta.ctrlKey, allRows.value);
        }
      } else if !meta.ctrlKey && currentDataView {
        calls := calls + [ClearMarking];
      }
    }

    /**
     * The drag branch of `mouseup`: a rectangle larger than the minimum on
     * both axes is committed; a smaller one only clears the marking unless
     * Ctrl was held.
     */
    method FinishDrag(clientX: real, clientY: real, hasMod: bool, allRows: Option<seq<HostRow>>, rows: seq<RowElement>)
      modifies this`persistent, this`selectedRows, this`calls
      ensures CommitsRectangle(selectionPoint, clientX, clientY) ==>
        && persistent == CommitSelection(old(persistent), Hits(rows, SpanRect(selectionPoint, clientX, clientY)), meta.ctrlKey)
        && selectedRows == VisuallySelected(rows, persistent)
        && calls == old(calls) + CommitCalls(persistent, meta.ctrlKey, hasMod, allRows, currentDataView)
      ensures !CommitsRectangle(selectionPoint, clientX, clientY) ==>
        && persistent == old(persistent) && selectedRows == old(selectedRows)
        && calls == old(calls) + ClearUnlessCtrl(meta.ctrlKey, currentDataView)
    {
      var x := clientX;
      var y := clientY;
      var width := Abs(selectionPoint.x - x);
      var height := Abs(selectionPoint.y - y);
      if width > MinSelectionSize && height > MinSelectionSize {
        var selectionRect := SpanRect(selectionPoint, x, y);
        SelectElementsInRectangle(selectionRect, meta.ctrlKey, hasMod, allRows, rows);
      } else if !meta.ctrlKey && currentDataView {
        calls := calls + [ClearMarking];
      }
    }

    /**
     * `mouseup`: nothing outside a gesture. A release without a drag is a
     * click: it only marks in the host and leaves the persistent set alone.
     * A drag commits its rectangle when both sides exceed 5 px and otherwise
     * only clears the host marking unless Ctrl is held. Every gesture ends
     * here, whichever branch ran.
     */
    method MouseUp(clientX: real, clientY: real, hasMod: bool, allRows: Option<seq<HostRow>>, rows: seq<RowElement>)
      requires Valid()
      modifies this`persistent, this`selectedRows, this`highlighted, this`isSelecting, this`isDragging,
               this`dragStartElement, this`calls
      ensures Valid()
      ensures !old(isSelecting) ==>
        && persistent == old(persistent) && selectedRows == old(selectedRows) && highlighted == old(highlighted)
        && !isSelecting && !isDragging && dragStartElement == old(dragStartElement) && calls == old(calls)
      ensures old(isSelecting) ==> !isSelecting && !isDragging && dragStartElement == None && highlighted == {}
      ensures old(isSelecting) && !old(isDragging) ==>
        && persistent == old(persistent) && selectedRows == old(selectedRows)
        && calls == old(calls) + ClickCalls(old(dragStartElement).value, meta.ctrlKey, hasMod, allRows, currentDataView)
      ensures old(isSelecting) && old(isDragging) && CommitsRectangle(selectionPoint, clientX, clientY) ==>
        && persistent == CommitSelection(old(persistent), Hits(rows, SpanRect(selectionPoint, clientX, clientY)), meta.ctrlKey)
        && selectedRows == VisuallySelected(rows, persistent)
        && calls == old(calls) + CommitCalls(persistent, meta.ctrlKey, hasMod, allRows, currentDataView)
      ensures old(isSelecting) && old(isDragging) && !CommitsRectangle(selectionPoint, clientX, clientY) ==>
        && persistent == old(persistent) && selectedRows == old(selectedRows)
        && calls == old(calls) + ClearUnlessCtrl(meta.ctrlKey, currentDataView)
    {
      if !isSelecting {
        return;
      }
      if !isDragging {
        FinishClick(hasMod, allRows);
      } else {
        FinishDrag(clientX, clientY, hasMod, allRows, rows);
      }

      highlighted := {};
      isSelecting := false;
      isDragging := false;
      dragStartElement := None;
    }
  }
}

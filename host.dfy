/**
 * What the model needs from the analytics host and from the page: the rows
 * the host hands over, the marking calls made on it, and where in the page
 * an element sits relative to a `.plot-row`.
 */
module Host {
  import opened Optional

  /**
   * One row of the host's data view, with what its accessors return.
   * `readable == false` stands for a row whose accessors throw.
   */
  datatype HostRow = HostRow(
    category: string,
    min: Option<real>,
    max: Option<real>,
    value: Option<real>,
    minFormatted: string,
    maxFormatted: string,
    valueFormatted: string,
    color: Option<string>,
    isMarked: bool,
    readable: bool)

  /** The two marking operations the host offers. */
  datatype MarkMode = Replace | ToggleOrAdd

  /**
   * A call the selection engine makes: `mark(rows, mode)` and
   * `clearMarking()` on the current data view, and the gesture callback
   * `callback({dragSelectActive: true})`.
   */
  datatype HostCall =
    | Mark(rows: seq<HostRow>, mode: MarkMode)
    | ClearMarking
    | DragSelectActive

  /**
   * What `element.closest('.plot-row')` finds for an element: no row, or a
   * row whose `data-row-index` attribute parses (`parseInt`) to an integer,
   * or does not (`None`: attribute missing, `parseInt` gives NaN).
   */
  datatype RowAncestor = NoPlotRow | InPlotRow(rowIndex: Option<int>)
}

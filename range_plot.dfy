/**
 * The range plot drawing: one shared linear scale over every bound and
 * value, and per plot row the geometry of its range segment, endpoints,
 * value indicator and labels, appended in order to a cleared container.
 */
module RangePlot {
  import opened Optional
  import opened Numbers
  import opened DataShaping

  /** A data point as `Math.min`/`Math.max` and the subtraction see it: a missing value counts as 0. */
  function NumberOf(v: Option<real>): real
  {
    v.GetOr(0.0)
  }

  /** `x` is one of the three data points of `item`. */
  predicate IsPointOf(item: PlotRow, x: real)
  {
    x == item.min || x == item.max || x == NumberOf(item.value)
  }

  /** The flattened `[min, max, value]` triples of all rows, row after row. */
  function AllValues(data: seq<PlotRow>): (xs: seq<real>)
    ensures |xs| == 3 * |data|
    ensures forall k :: 0 <= k < |data| ==>
      data[k].min in xs && data[k].max in xs && NumberOf(data[k].value) in xs
  {
    if |data| == 0 then []
    else
      var n := |data| - 1;
      assert forall k :: 0 <= k < n ==> data[..n][k] == data[k];
      AllValues(data[..n]) + [data[n].min, data[n].max, NumberOf(data[n].value)]
  }

  /** The flattened values are data points of the rows and nothing else. */
  lemma {:induction false} AllValuesArePoints(data: seq<PlotRow>, x: real)
    requires x in AllValues(data)
    ensures exists k :: 0 <= k < |data| && IsPointOf(data[k], x)
  {
    var n := |data| - 1;
    var init := AllValues(data[..n]);
    assert AllValues(data) == init + [data[n].min, data[n].max, NumberOf(data[n].value)];
    if x in init {
      AllValuesArePoints(data[..n], x);
      var k :| 0 <= k < n && IsPointOf(data[..n][k], x);
      assert data[..n][k] == data[k];
    } else {
      assert IsPointOf(data[n], x);
    }
  }

  /** The smallest data point over all rows. */
  function AbsoluteMin(data: seq<PlotRow>): real
    requires |data| > 0
  {
    SeqMin(AllValues(data))
  }

  /** The largest data point over all rows. */
  function AbsoluteMax(data: seq<PlotRow>): real
    requires |data| > 0
  {
    SeqMax(AllValues(data))
  }

  /** The width of the shared scale. */
  function Range(data: seq<PlotRow>): real
    requires |data| > 0
  {
    AbsoluteMax(data) - AbsoluteMin(data)
  }

  /**
   * The scale covers the data: every min, max and value of every row lies
   * between the absolute minimum and maximum, both of which are data points,
   * so the range is never negative.
   */
  lemma ScaleBounds(data: seq<PlotRow>)
    requires |data| > 0
    ensures forall k :: 0 <= k < |data| ==>
      && AbsoluteMin(data) <= data[k].min <= AbsoluteMax(data)
      && AbsoluteMin(data) <= data[k].max <= AbsoluteMax(data)
      && AbsoluteMin(data) <= NumberOf(data[k].value) <= AbsoluteMax(data)
    ensures exists k :: 0 <= k < |data| && IsPointOf(data[k], AbsoluteMin(data))
    ensures exists k :: 0 <= k < |data| && IsPointOf(data[k], AbsoluteMax(data))
    ensures Range(data) >= 0.0
  {
    AllValuesArePoints(data, AbsoluteMin(data));
    AllValuesArePoints(data, AbsoluteMax(data));
  }

  /** The position of `x` on the scale starting at `lo` and `range` wide, in percent. */
  function Percent(x: real, lo: real, range: real): real
    requires range > 0.0
  {
    ((x - lo) / range) * 100.0
  }

  /** The scale sends its start to 0 and its end to 100. */
  lemma PercentEnds(lo: real, range: real)
    requires range > 0.0
    ensures Percent(lo, lo, range) == 0.0
    ensures Percent(lo + range, lo, range) == 100.0
  {
    assert (lo + range - lo) / range == 1.0;
  }

  /** The scale is strictly increasing, so it keeps and reflects the order of points. */
  lemma PercentMonotone(x: real, y: real, lo: real, range: real)
    requires range > 0.0
    ensures x < y <==> Percent(x, lo, range) < Percent(y, lo, range)
    ensures x <= y <==> Percent(x, lo, range) <= Percent(y, lo, range)
  {
    assert (y - lo) / range - (x - lo) / range == (y - x) / range;
    if x < y {
      assert (y - x) / range > 0.0;
    } else if y < x {
      assert (x - y) / range > 0.0;
    }
  }

  /** Every point of the scale's span lands in [0, 100]. */
  lemma PercentWithinScale(x: real, lo: real, range: real)
    requires range > 0.0
    requires lo <= x <= lo + range
    ensures 0.0 <= Percent(x, lo, range) <= 100.0
  {
    PercentEnds(lo, range);
    PercentMonotone(lo, x, lo, range);
    PercentMonotone(x, lo + range, lo, range);
  }

  /** `item.color || '#0ba5e0'`: a segment always gets a colour, the row's own when it has one. */
  function SegmentColor(color: string): (c: string)
    ensures c != ""
    ensures color != "" ==> c == color
    ensures color == "" ==> c == DefaultColor
  {
    if color != "" then color else DefaultColor
  }

  /** What one drawn row holds: positions are percents of the shared scale. */
  datatype RowView = RowView(
    category: string,
    segmentLeft: real,
    segmentWidth: real,
    segmentColor: string,
    minEndpointLeft: real,
    maxEndpointLeft: real,
    valueIndicatorLeft: real,
    minLabelLeft: real,
    minLabelText: real,
    maxLabelLeft: real,
    maxLabelText: real,
    valueLabelLeft: real,
    valueLabelText: Option<real>)

  /** The row drawn for `item` on the scale starting at `lo` and `range` wide. */
  function RowViewOf(item: PlotRow, lo: real, range: real): RowView
    requires range > 0.0
  {
    var minPercent := Percent(item.min, lo, range);
    var maxPercent := Percent(item.max, lo, range);
    var valuePercent := Percent(NumberOf(item.value), lo, range);
    RowView(item.category, minPercent, maxPercent - minPercent, SegmentColor(item.color),
            minPercent, maxPercent, valuePercent,
            minPercent, item.min, maxPercent, item.max, valuePercent, item.value)
  }

  /**
   * The geometry of a drawn row: the segment starts at the min endpoint and
   * ends at the max endpoint, each label sits over its point, and the
   * segment width is non-negative exactly when the row's min is at most its max;
   * the segment has the row's colour, or the default when that is empty.
   */
  lemma RowGeometry(item: PlotRow, lo: real, range: real)
    requires range > 0.0
    ensures var v := RowViewOf(item, lo, range);
      && v.segmentLeft == v.minEndpointLeft == v.minLabelLeft
      && v.segmentLeft + v.segmentWidth == v.maxEndpointLeft == v.maxLabelLeft
      && v.valueIndicatorLeft == v.valueLabelLeft
      && (v.segmentWidth >= 0.0 <==> item.min <= item.max)
      && v.minLabelText == item.min && v.maxLabelText == item.max && v.valueLabelText == item.value
      && v.category == item.category
      && v.segmentColor == (if item.color == "" then DefaultColor else item.color)
  {
    PercentMonotone(item.min, item.max, lo, range);
  }

  /** On the data's own scale every drawn point of every row lies in [0, 100]. */
  lemma RowsWithinPlot(data: seq<PlotRow>, k: nat)
    requires k < |data| && Range(data) > 0.0
    ensures var v := RowViewOf(data[k], AbsoluteMin(data), Range(data));
      && 0.0 <= v.segmentLeft <= 100.0
      && 0.0 <= v.maxEndpointLeft <= 100.0
      && 0.0 <= v.valueIndicatorLeft <= 100.0
  {
    ScaleBounds(data);
    var lo, range := AbsoluteMin(data), Range(data);
    PercentWithinScale(data[k].min, lo, range);
    PercentWithinScale(data[k].max, lo, range);
    PercentWithinScale(NumberOf(data[k].value), lo, range);
  }

  /** The plot container: the rows it shows, in order. */
  class Container {
    var children: seq<RowView>

    constructor ()
      ensures children == []
    {
      children := [];
    }

    /** `appendChild`: the new row goes after the existing ones. */
    method AppendChild(v: RowView)
      modifies this
      ensures children == old(children) + [v]
    {
      children := children + [v];
    }
  }

  /**
   * `createRangePlot`: without a container nothing happens; otherwise the
   * container is cleared and then holds one row per data item, in order,
   * each drawn on the scale shared by all items.
   */
  method CreateRangePlot(data: seq<PlotRow>, container: Container?)
    requires |data| > 0 ==> Range(data) > 0.0
    modifies container
    ensures container != null ==> |container.children| == |data|
    ensures container != null ==> forall k :: 0 <= k < |data| ==>
      container.children[k] == RowViewOf(data[k], AbsoluteMin(data), Range(data))
  {
    if container == null {
      return;
    }
    container.children := [];
    if |data| == 0 {
      return;
    }
    var allValues := AllValues(data);
    var absoluteMin := SeqMin(allValues);
    var absoluteMax := SeqMax(allValues);
    var range := absoluteMax - absoluteMin;
    var i := 0;
    while i < |data|
      invariant 0 <= i <= |data|
      invariant |container.children| == i
      invariant forall k :: 0 <= k < i ==> container.children[k] == RowViewOf(data[k], absoluteMin, range)
    {
      var item := data[i];
      var minPercent := Percent(item.min, absoluteMin, range);
      var maxPercent := Percent(item.max, absoluteMin, range);
      var valuePercent := Percent(NumberOf(item.value), absoluteMin, range);
      var segmentColor := SegmentColor(item.color);
      var rowView := RowView(item.category, minPercent, maxPercent - minPercent, segmentColor,
                             minPercent, maxPercent, valuePercent,
                             minPercent, item.min, maxPercent, item.max, valuePercent, item.value);
      container.AppendChild(rowView);
      i := i + 1;
    }
  }
}

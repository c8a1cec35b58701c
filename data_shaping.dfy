/**
 * The data shaping done by each render: the host's rows become the plot
 * rows the range plot draws (one per category, or one aggregated row when
 * there is no category axis), and the indices of the rows the host has
 * marked are gathered for the label visibility.
 */
module DataShaping {
  import opened Optional
  import opened Host
  import opened Numbers

  /** The colour a row gets when the host gives it none. */
  const DefaultColor: string := "#0ba5e0"

  /** A display string: the host's `formattedValue()`, or a number's `toString()`. */
  datatype Formatted = HostText(s: string) | NumberText(n: real)

  /** One row the range plot draws. `rowIndex` is the position of its source row among all rows. */
  datatype PlotRow = PlotRow(
    category: string,
    min: real,
    max: real,
    value: Option<real>,
    minFormatted: Formatted,
    maxFormatted: Formatted,
    valueFormatted: Option<Formatted>,
    color: string,
    rowIndex: int)

  /** A row the shaping keeps: its accessors do not throw and both bounds are non-null. */
  predicate HasBounds(row: HostRow)
  {
    row.readable && row.min.Some? && row.max.Some?
  }

  /** The plot row built from host row `i` when there is a category axis. */
  function CategorizedRow(row: HostRow, i: int, hasValueAxis: bool): PlotRow
    requires HasBounds(row)
  {
    PlotRow(row.category, row.min.value, row.max.value,
            if hasValueAxis then row.value else None,
            HostText(row.minFormatted), HostText(row.maxFormatted),
            if hasValueAxis then Some(HostText(row.valueFormatted)) else None,
            row.color.GetOr(DefaultColor), i)
  }

  /**
   * The rows of the categorized branch: in input order, one per host row
   * with both bounds, each built from the host row whose position it carries.
   */
  function Categorized(allRows: seq<HostRow>, hasValueAxis: bool): (data: seq<PlotRow>)
    ensures |data| <= |allRows|
    ensures forall k :: 0 <= k < |data| ==> 0 <= data[k].rowIndex < |allRows|
    ensures forall k :: 0 <= k < |data| ==>
      HasBounds(allRows[data[k].rowIndex])
      && data[k] == CategorizedRow(allRows[data[k].rowIndex], data[k].rowIndex, hasValueAxis)
  {
    if |allRows| == 0 then []
    else
      var n := |allRows| - 1;
      assert forall i :: 0 <= i < n ==> allRows[..n][i] == allRows[i];
      Categorized(allRows[..n], hasValueAxis)
        + (if HasBounds(allRows[n]) then [CategorizedRow(allRows[n], n, hasValueAxis)] else [])
  }

  /** One more input row adds its plot row at the end when it has both bounds. */
  lemma CategorizedStep(allRows: seq<HostRow>, i: nat, hasValueAxis: bool)
    requires i < |allRows|
    ensures Categorized(allRows[..i + 1], hasValueAxis) ==
      Categorized(allRows[..i], hasValueAxis)
        + (if HasBounds(allRows[i]) then [CategorizedRow(allRows[i], i, hasValueAxis)] else [])
  {
    assert allRows[..i + 1][..i] == allRows[..i];
  }

  /** The categorized rows keep the input order: their row indices strictly increase. */
  lemma {:induction false} CategorizedOrdered(allRows: seq<HostRow>, hasValueAxis: bool)
    ensures forall j, k :: 0 <= j < k < |Categorized(allRows, hasValueAxis)| ==>
      Categorized(allRows, hasValueAxis)[j].rowIndex < Categorized(allRows, hasValueAxis)[k].rowIndex
  {
    if |allRows| > 0 {
      var n := |allRows| - 1;
      var init := Categorized(allRows[..n], hasValueAxis);
      CategorizedOrdered(allRows[..n], hasValueAxis);
      var tail := if HasBounds(allRows[n]) then [CategorizedRow(allRows[n], n, hasValueAxis)] else [];
      assert Categorized(allRows, hasValueAxis) == init + tail;
      assert forall k :: 0 <= k < |init| ==> init[k].rowIndex < n;
    }
  }

  /** Every host row with both bounds yields a categorized row. */
  lemma {:induction false} CategorizedComplete(allRows: seq<HostRow>, hasValueAxis: bool, i: nat)
    requires i < |allRows| && HasBounds(allRows[i])
    ensures exists k :: 0 <= k < |Categorized(allRows, hasValueAxis)| && Categorized(allRows, hasValueAxis)[k].rowIndex == i
  {
    var n := |allRows| - 1;
    var init := Categorized(allRows[..n], hasValueAxis);
    var data := Categorized(allRows, hasValueAxis);
    var tail := if HasBounds(allRows[n]) then [CategorizedRow(allRows[n], n, hasValueAxis)] else [];
    assert data == init + tail;
    if i == n {
      assert data[|data| - 1].rowIndex == n;
    } else {
      assert allRows[..n][i] == allRows[i];
      CategorizedComplete(allRows[..n], hasValueAxis, i);
      var k :| 0 <= k < |init| && init[k].rowIndex == i;
      assert data[k] == init[k];
    }
  }

  /** Every kept row has the default colour exactly when the host gave it none. */
  lemma CategorizedColors(allRows: seq<HostRow>, hasValueAxis: bool, k: nat)
    requires k < |Categorized(allRows, hasValueAxis)|
    ensures var row := Categorized(allRows, hasValueAxis)[k];
      row.color == (match allRows[row.rowIndex].color case Some(c) => c case None => DefaultColor)
  {
  }

  /** Without a Value axis no kept row has a value or a value text. */
  lemma CategorizedWithoutValueAxis(allRows: seq<HostRow>, k: nat)
    requires k < |Categorized(allRows, false)|
    ensures Categorized(allRows, false)[k].value.None? && Categorized(allRows, false)[k].valueFormatted.None?
  {
  }

  /** The categorized branch's `for` loop: a row with throwing accessors is skipped and the loop goes on. */
  method ShapeCategorized(allRows: seq<HostRow>, hasValueAxis: bool) returns (data: seq<PlotRow>)
    ensures data == Categorized(allRows, hasValueAxis)
  {
    data := [];
    var i := 0;
    while i < |allRows|
      invariant 0 <= i <= |allRows|
      invariant data == Categorized(allRows[..i], hasValueAxis)
    {
      var row := allRows[i];
      CategorizedStep(allRows, i, hasValueAxis);
      if !row.readable {
        i := i + 1;
        continue;
      }
      var minValue := row.min;
      var maxValue := row.max;
      var currentValue := if hasValueAxis then row.value else None;
      var currentFormatted := if hasValueAxis then Some(HostText(row.valueFormatted)) else None;
      var hexColor := if row.color.Some? then row.color.value else DefaultColor;
      if minValue.Some? && maxValue.Some? {
        data := data + [PlotRow(row.category, minValue.value, maxValue.value, currentValue,
                                HostText(row.minFormatted), HostText(row.maxFormatted), currentFormatted,
                                hexColor, i)];
      }
      i := i + 1;
    }
    assert allRows[..|allRows|] == allRows;
  }

  /** The `Min` values collected by the aggregated branch, in input order. */
  function MinValues(allRows: seq<HostRow>): (xs: seq<real>)
    ensures |xs| == 0 <==> forall i :: 0 <= i < |allRows| ==> !HasBounds(allRows[i])
    ensures forall x :: x in xs <==> exists i :: 0 <= i < |allRows| && HasBounds(allRows[i]) && allRows[i].min.value == x
  {
    if |allRows| == 0 then []
    else
      var n := |allRows| - 1;
      assert forall i :: 0 <= i < n ==> allRows[..n][i] == allRows[i];
      MinValues(allRows[..n]) + (if HasBounds(allRows[n]) then [allRows[n].min.value] else [])
  }

  /** The `Max` values collected by the aggregated branch, in input order. */
  function MaxValues(allRows: seq<HostRow>): (xs: seq<real>)
    ensures |xs| == |MinValues(allRows)|
    ensures forall x :: x in xs <==> exists i :: 0 <= i < |allRows| && HasBounds(allRows[i]) && allRows[i].max.value == x
  {
    if |allRows| == 0 then []
    else
      var n := |allRows| - 1;
      assert forall i :: 0 <= i < n ==> allRows[..n][i] == allRows[i];
      MaxValues(allRows[..n]) + (if HasBounds(allRows[n]) then [allRows[n].max.value] else [])
  }

  /** The non-null `Value`s of the rows with both bounds (none without a Value axis). */
  function ValueValues(allRows: seq<HostRow>, hasValueAxis: bool): (xs: seq<real>)
    ensures !hasValueAxis ==> xs == []
    ensures hasValueAxis ==> forall x :: x in xs <==>
      exists i :: 0 <= i < |allRows| && HasBounds(allRows[i]) && allRows[i].value == Some(x)
  {
    if |allRows| == 0 then []
    else
      var n := |allRows| - 1;
      assert forall i :: 0 <= i < n ==> allRows[..n][i] == allRows[i];
      var row := allRows[n];
      ValueValues(allRows[..n], hasValueAxis)
        + (if HasBounds(row) && hasValueAxis && row.value.Some? then [row.value.value] else [])
  }

  /** The mean of the collected values, `null` when none was collected. */
  function AggregatedValue(values: seq<real>): Option<real>
  {
    if |values| > 0 then Some(Sum(values) / (|values| as real)) else None
  }

  /** The single row of the aggregated branch, or none. */
  function Aggregated(allRows: seq<HostRow>, hasValueAxis: bool): seq<PlotRow>
  {
    var mins, maxs := MinValues(allRows), MaxValues(allRows);
    if |mins| > 0 && |maxs| > 0 then
      var value := AggregatedValue(ValueValues(allRows, hasValueAxis));
      [PlotRow("Data", SeqMin(mins), SeqMax(maxs), value, NumberText(SeqMin(mins)), NumberText(SeqMax(maxs)),
               if value.Some? then Some(NumberText(value.value)) else None, DefaultColor, 0)]
    else []
  }

  /**
   * The aggregated branch yields at most one row: category "Data", row index
   * 0, the default colour, the least Min and the greatest Max over the rows
   * with both bounds, and a value exactly when some such row has a non-null
   * Value on a Value axis. It yields none when no row has both bounds.
   */
  lemma AggregatedSpec(allRows: seq<HostRow>, hasValueAxis: bool)
    ensures var data := Aggregated(allRows, hasValueAxis);
      && |data| <= 1
      && (|data| == 1 <==> exists i :: 0 <= i < |allRows| && HasBounds(allRows[i]))
      && (|data| == 1 ==>
            && data[0].category == "Data" && data[0].rowIndex == 0 && data[0].color == DefaultColor
            && (forall i :: 0 <= i < |allRows| && HasBounds(allRows[i]) ==>
                  data[0].min <= allRows[i].min.value && allRows[i].max.value <= data[0].max)
            && (exists i :: 0 <= i < |allRows| && HasBounds(allRows[i]) && data[0].min == allRows[i].min.value)
            && (exists i :: 0 <= i < |allRows| && HasBounds(allRows[i]) && data[0].max == allRows[i].max.value)
            && (data[0].value.Some? <==>
                  hasValueAxis && exists i :: 0 <= i < |allRows| && HasBounds(allRows[i]) && allRows[i].value.Some?)
            && (data[0].value.Some? <==> data[0].valueFormatted.Some?))
  {
    var mins, maxs := MinValues(allRows), MaxValues(allRows);
    if |mins| > 0 {
      var lo, hi := SeqMin(mins), SeqMax(maxs);
      forall i | 0 <= i < |allRows| && HasBounds(allRows[i])
        ensures lo <= allRows[i].min.value && allRows[i].max.value <= hi
      {
        var a, b := allRows[i].min.value, allRows[i].max.value;
        assert a in mins && b in maxs;
      }
      var vals := ValueValues(allRows, hasValueAxis);
      if |vals| > 0 {
        assert vals[0] in vals;
      }
      if hasValueAxis && exists i :: 0 <= i < |allRows| && HasBounds(allRows[i]) && allRows[i].value.Some? {
        var i :| 0 <= i < |allRows| && HasBounds(allRows[i]) && allRows[i].value.Some?;
        assert allRows[i].value.value in vals;
      }
    }
  }

  /** One more input row extends each collected list by that row's contribution. */
  lemma AggregatedStep(allRows: seq<HostRow>, i: nat, hasValueAxis: bool)
    requires i < |allRows|
    ensures var row := allRows[i];
      && MinValues(allRows[..i + 1]) == MinValues(allRows[..i]) + (if HasBounds(row) then [row.min.value] else [])
      && MaxValues(allRows[..i + 1]) == MaxValues(allRows[..i]) + (if HasBounds(row) then [row.max.value] else [])
      && ValueValues(allRows[..i + 1], hasValueAxis) == ValueValues(allRows[..i], hasValueAxis)
           + (if HasBounds(row) && hasValueAxis && row.value.Some? then [row.value.value] else [])
  {
    assert allRows[..i + 1][..i] == allRows[..i];
  }

  /** The aggregated branch's `for` loop, collecting the values to aggregate. */
  method CollectAggregates(allRows: seq<HostRow>, hasValueAxis: bool)
    returns (minValues: seq<real>, maxValues: seq<real>, valueValues: seq<real>)
    ensures minValues == MinValues(allRows)
    ensures maxValues == MaxValues(allRows)
    ensures valueValues == ValueValues(allRows, hasValueAxis)
  {
    minValues, maxValues, valueValues := [], [], [];
    var i := 0;
    while i < |allRows|
      invariant 0 <= i <= |allRows|
      invariant minValues == MinValues(allRows[..i])
      invariant maxValues == MaxValues(allRows[..i])
      invariant valueValues == ValueValues(allRows[..i], hasValueAxis)
    {
      var row := allRows[i];
      AggregatedStep(allRows, i, hasValueAxis);
      if !row.readable {
        i := i + 1;
        continue;
      }
      var currentValue := if hasValueAxis then row.value else None;
      if row.min.Some? && row.max.Some? {
        minValues := minValues + [row.min.value];
        maxValues := maxValues + [row.max.value];
        if currentValue.Some? {
          valueValues := valueValues + [currentValue.value];
        }
      }
      i := i + 1;
    }
    assert allRows[..|allRows|] == allRows;
  }

  /** The aggregated branch: the collected values become at most one row. */
  method ShapeAggregated(allRows: seq<HostRow>, hasValueAxis: bool) returns (data: seq<PlotRow>)
    ensures data == Aggregated(allRows, hasValueAxis)
  {
    var minValues, maxValues, valueValues := CollectAggregates(allRows, hasValueAxis);
    data := [];
    if |minValues| > 0 && |maxValues| > 0 {
      var aggregatedMin := SeqMin(minValues);
      var aggregatedMax := SeqMax(maxValues);
      var aggregatedValue := if |valueValues| > 0 then Some(Sum(valueValues) / (|valueValues| as real)) else None;
      var valueFormatted := if aggregatedValue.Some? then Some(NumberText(aggregatedValue.value)) else None;
      data := [PlotRow("Data", aggregatedMin, aggregatedMax, aggregatedValue,
                       NumberText(aggregatedMin), NumberText(aggregatedMax), valueFormatted, DefaultColor, 0)];
    }
  }

  /** The marked-row loop: the position of every row the host reports as marked, and nothing else. */
  method CollectMarkedRows(allRows: seq<HostRow>) returns (markedRows: set<int>)
    ensures forall i :: i in markedRows <==> 0 <= i < |allRows| && allRows[i].isMarked
  {
    markedRows := {};
    var i := 0;
    while i < |allRows|
      invariant 0 <= i <= |allRows|
      invariant forall k :: k in markedRows <==> 0 <= k < i && allRows[k].isMarked
    {
      if allRows[i].isMarked {
        markedRows := markedRows + {i};
      }
      i := i + 1;
    }
  }

  /**
   * The data part of `render`: no rows stops early; otherwise the branch the
   * category axis selects shapes the rows. Without the `#mod-container` node
   * the render stops there (behind an error overlay); with it, the marked set
   * is gathered only when there is something to draw.
   */
  method Render(allRows: seq<HostRow>, hasCategoryAxis: bool, hasValueAxis: bool, hasContainer: bool)
    returns (data: seq<PlotRow>, marked: Option<set<int>>)
    ensures data == if |allRows| == 0 then []
                    else if hasCategoryAxis then Categorized(allRows, hasValueAxis)
                    else Aggregated(allRows, hasValueAxis)
    ensures marked.Some? <==> hasContainer && |data| > 0
    ensures marked.Some? ==> forall i :: i in marked.value <==> 0 <= i < |allRows| && allRows[i].isMarked
  {
    data := [];
    marked := None;
    if |allRows| == 0 {
      return;
    }
    if hasCategoryAxis {
      data := ShapeCategorized(allRows, hasValueAxis);
    } else {
      data := ShapeAggregated(allRows, hasValueAxis);
    }
    if !hasContainer {
      return;
    }
    if |data| > 0 {
      var markedRows := CollectMarkedRows(allRows);
      marked := Some(markedRows);
    }
  }
}

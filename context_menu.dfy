/**
 * Label settings of the range plot: loading them from the plugin's stored
 * property with field-wise defaults, the popout's controls and its change
 * handler, and the show/hide decision for every min, max and value label.
 *
 * The stored property is modelled by what `JSON.parse` makes of its text
 * (a `Blob`); saving stores what parsing the saved text gives back.
 */
module ContextMenu {
  import opened Optional
  import opened Host
  import RectangleSelection

  /** The JavaScript values a settings field or a popout event can carry. */
  datatype JsValue = Text(s: string) | Flag(b: bool) | Number(n: real) | Null

  /** JavaScript truthiness (`Boolean(v)`); NaN is not modelled. */
  predicate Truthy(v: JsValue)
  {
    match v
    case Text(s) => s != ""
    case Flag(b) => b
    case Number(n) => n != 0.0
    case Null => false
  }

  /** The settings record `{min, max, value, labelMode}`; flags are taken by their truthiness. */
  datatype LabelSettings = LabelSettings(min: bool, max: bool, value: bool, labelMode: JsValue)

  /** The fields a parsed blob carries; `None` is a field the blob does not have. */
  datatype ParsedSettings = ParsedSettings(min: Option<bool>, max: Option<bool>, value: Option<bool>,
                                           labelMode: Option<JsValue>)

  /** What `JSON.parse` makes of the stored text: it throws, or it yields some fields. */
  datatype Blob = Unparsable | Parsed(fields: ParsedSettings)

  const AllMode: JsValue := Text("all")
  const MarkedMode: JsValue := Text("marked")
  const NoneMode: JsValue := Text("none")

  function DefaultSettings(): LabelSettings
  {
    LabelSettings(true, true, true, AllMode)
  }

  /** `['all', 'marked', 'none'].includes(mode)`. */
  predicate IsValidMode(mode: JsValue)
  {
    mode == AllMode || mode == MarkedMode || mode == NoneMode
  }

  /** `{ ...defaults, ...settings }`: every field the blob has overrides the default. */
  function Merge(defaults: LabelSettings, fields: ParsedSettings): LabelSettings
  {
    LabelSettings(fields.min.GetOr(defaults.min), fields.max.GetOr(defaults.max),
                  fields.value.GetOr(defaults.value), fields.labelMode.GetOr(defaults.labelMode))
  }

  /**
   * `getLabelVisibilitySettings`: the defaults when there is no property or
   * its text does not parse; otherwise the parsed fields over the defaults,
   * with a missing, empty or unknown `labelMode` replaced by "all".
   */
  function GetLabelVisibilitySettings(property: Option<Blob>): (s: LabelSettings)
    ensures IsValidMode(s.labelMode)
    ensures property.None? || property == Some(Unparsable) ==> s == LabelSettings(true, true, true, Text("all"))
    ensures property.Some? && property.value.Parsed? ==>
      var f := property.value.fields;
      && (f.min.Some? ==> s.min == f.min.value) && (f.min.None? ==> s.min)
      && (f.max.Some? ==> s.max == f.max.value) && (f.max.None? ==> s.max)
      && (f.value.Some? ==> s.value == f.value.value) && (f.value.None? ==> s.value)
      && (f.labelMode.Some? && IsValidMode(f.labelMode.value) ==> s.labelMode == f.labelMode.value)
      && (f.labelMode.None? || !IsValidMode(f.labelMode.value) ==> s.labelMode == Text("all"))
  {
    match property
    case None => DefaultSettings()
    case Some(Unparsable) => DefaultSettings()
    case Some(Parsed(fields)) =>
      var merged := Merge(DefaultSettings(), fields);
      if !Truthy(merged.labelMode) || !IsValidMode(merged.labelMode) then merged.(labelMode := AllMode)
      else merged
  }

  /** What parsing the text `JSON.stringify(s)` gives back: every field present. */
  function Serialize(s: LabelSettings): ParsedSettings
  {
    ParsedSettings(Some(s.min), Some(s.max), Some(s.value), Some(s.labelMode))
  }

  /** Loading what was just saved gives the saved settings back, up to the mode coercion. */
  lemma LoadAfterSave(s: LabelSettings)
    ensures GetLabelVisibilitySettings(Some(Parsed(Serialize(s)))) ==
      if IsValidMode(s.labelMode) then s else s.(labelMode := AllMode)
  {
  }

  /** Saving the loaded settings does not change what the next load returns. */
  lemma SaveOfLoadIsStable(property: Option<Blob>)
    ensures var s := GetLabelVisibilitySettings(property);
      GetLabelVisibilitySettings(Some(Parsed(Serialize(s)))) == s
  {
    LoadAfterSave(GetLabelVisibilitySettings(property));
  }

  // ---------------------------------------------------------------------
  // The popout
  // ---------------------------------------------------------------------

  /** The `enabled` / `checked` values the popout's three checkboxes and three radios get. */
  datatype PopoutControls = PopoutControls(
    checkboxesEnabled: bool,
    minChecked: bool, maxChecked: bool, valueChecked: bool,
    allChecked: bool, markedChecked: bool, noneChecked: bool)

  /** The controls for given settings, as `showPopoutMenu` computes them. */
  function PopoutControlsFor(s: LabelSettings): PopoutControls
  {
    var isNoneMode := s.labelMode == NoneMode;
    PopoutControls(!isNoneMode, s.min, s.max, s.value,
                   s.labelMode == AllMode || !Truthy(s.labelMode),
                   s.labelMode == MarkedMode, s.labelMode == NoneMode)
  }

  /**
   * For loaded settings exactly one of the three radios is checked, the
   * checkboxes are enabled exactly when "none" is not, and choosing the
   * checked radio again leaves the mode as it is.
   */
  lemma LoadedSettingsCheckOneRadio(property: Option<Blob>)
    ensures var s := GetLabelVisibilitySettings(property);
      var c := PopoutControlsFor(s);
      && (if c.allChecked then 1 else 0) + (if c.markedChecked then 1 else 0) + (if c.noneChecked then 1 else 0) == 1
      && (c.checkboxesEnabled <==> !c.noneChecked)
      && var checked := if c.allChecked then AllMode else if c.markedChecked then MarkedMode else NoneMode;
         ApplyChange(s, ChangeEvent("labelMode", checked)).Some?
         && ApplyChange(s, ChangeEvent("labelMode", checked)).value.labelMode == s.labelMode
  {
  }

  /** A change event from the popout: the control's `name` and the `value` it reports. */
  datatype ChangeEvent = ChangeEvent(name: string, value: JsValue)

  /**
   * The update the `onChange` handler makes to the settings, or `None` when
   * it changes (and saves) nothing.
   */
  function ApplyChange(s: LabelSettings, e: ChangeEvent): (r: Option<LabelSettings>)
    ensures r.Some? <==> (e.name == "labelMode" && Truthy(e.value)) || e.name in {"min", "max", "value"}
    ensures r.Some? && e.name == "labelMode" ==>
      && r.value.labelMode == e.value
      && (e.value == Text("none") ==> !r.value.min && !r.value.max && !r.value.value)
      && (e.value != Text("none") ==> r.value.min == s.min && r.value.max == s.max && r.value.value == s.value)
    ensures e.name == "min" ==> r == Some(LabelSettings(Truthy(e.value), s.max, s.value, s.labelMode))
    ensures e.name == "max" ==> r == Some(LabelSettings(s.min, Truthy(e.value), s.value, s.labelMode))
    ensures e.name == "value" ==> r == Some(LabelSettings(s.min, s.max, Truthy(e.value), s.labelMode))
  {
    if e.name == "labelMode" && Truthy(e.value) then
      var withMode := s.(labelMode := e.value);
      Some(if e.value == NoneMode then withMode.(min := false, max := false, value := false) else withMode)
    else if e.name == "min" then Some(s.(min := Truthy(e.value)))
    else if e.name == "max" then Some(s.(max := Truthy(e.value)))
    else if e.name == "value" then Some(s.(value := Truthy(e.value)))
    else None
  }

  /**
   * After choosing "none" in the popout, the next load has every flag off and
   * the checkboxes disabled: the handler clears the flags in the same update.
   */
  lemma NoneChoiceDisablesAndClears(property: Option<Blob>)
    ensures var after := ApplyChange(GetLabelVisibilitySettings(property), ChangeEvent("labelMode", NoneMode));
      && after.Some?
      && var reloaded := GetLabelVisibilitySettings(Some(Parsed(Serialize(after.value))));
      && !reloaded.min && !reloaded.max && !reloaded.value
      && !PopoutControlsFor(reloaded).checkboxesEnabled
  {
  }

  // ---------------------------------------------------------------------
  // Label visibility
  // ---------------------------------------------------------------------

  datatype LabelKind = MinLabel | MaxLabel | ValueLabel

  /** A `[data-label-type]` element: its kind and where it sits relative to the plot rows. */
  datatype Label = Label(kind: LabelKind, place: RowAncestor)

  /**
   * The row index a label is judged by: -1 outside every plot row, else the
   * row's parsed `data-row-index` (`None` for NaN, which no set of integers holds).
   */
  function LabelRowIndex(place: RowAncestor): Option<int>
  {
    match place
    case NoPlotRow => Some(-1)
    case InPlotRow(rowIndex) => rowIndex
  }

  /** `shouldShowLabelsForRow`: none for "none", the marked rows for "marked", every row otherwise. */
  predicate ShouldShowLabelsForRow(s: LabelSettings, marked: set<int>, rowIndex: Option<int>)
  {
    if s.labelMode == NoneMode then false
    else if s.labelMode == MarkedMode then rowIndex.Some? && rowIndex.value in marked
    else true
  }

  predicate KindEnabled(s: LabelSettings, kind: LabelKind)
  {
    match kind
    case MinLabel => s.min
    case MaxLabel => s.max
    case ValueLabel => s.value
  }

  /** Whether a label ends up with `display: block` rather than `display: none`. */
  predicate LabelShown(s: LabelSettings, marked: set<int>, item: Label)
  {
    KindEnabled(s, item.kind) && ShouldShowLabelsForRow(s, marked, LabelRowIndex(item.place))
  }

  /** In "none" mode every label is hidden, whatever the flags say. */
  lemma NoneModeHidesEverything(s: LabelSettings, marked: set<int>, item: Label)
    requires s.labelMode == NoneMode
    ensures !LabelShown(s, marked, item)
  {
  }

  /**
   * In "marked" mode with every flag on, a label in a plot row is shown
   * exactly when its row index is marked; a label outside the rows is
   * judged as row -1.
   */
  lemma MarkedModeFollowsMarking(s: LabelSettings, marked: set<int>, item: Label)
    requires s.labelMode == MarkedMode && s.min && s.max && s.value
    ensures item.place.InPlotRow? ==>
      (LabelShown(s, marked, item) <==> item.place.rowIndex.Some? && item.place.rowIndex.value in marked)
    ensures item.place.NoPlotRow? ==> (LabelShown(s, marked, item) <==> -1 in marked)
  {
  }

  /** Outside "none" and "marked" (including an unknown mode) a label shows exactly when its kind is on. */
  lemma OtherModesFollowFlags(s: LabelSettings, marked: set<int>, item: Label)
    requires s.labelMode != NoneMode && s.labelMode != MarkedMode
    ensures LabelShown(s, marked, item) <==> KindEnabled(s, item.kind)
  {
  }

  /** The labels of one kind get their display; the others keep theirs. */
  method ApplyForKind(kind: LabelKind, s: LabelSettings, marked: set<int>, labels: seq<Label>, display: array<bool>)
    requires display.Length == |labels|
    modifies display
    ensures forall i :: 0 <= i < |labels| && labels[i].kind == kind ==> display[i] == LabelShown(s, marked, labels[i])
    ensures forall i :: 0 <= i < |labels| && labels[i].kind != kind ==> display[i] == old(display[i])
  {
    var i := 0;
    while i < |labels|
      invariant 0 <= i <= |labels|
      invariant forall k :: 0 <= k < i && labels[k].kind == kind ==> display[k] == LabelShown(s, marked, labels[k])
      invariant forall k :: 0 <= k < |labels| && (k >= i || labels[k].kind != kind) ==> display[k] == old(display[k])
    {
      if labels[i].kind == kind {
        var rowIndex := LabelRowIndex(labels[i].place);
        display[i] := KindEnabled(s, kind) && ShouldShowLabelsForRow(s, marked, rowIndex);
      }
      i := i + 1;
    }
  }

  /**
   * `updateLabelVisibilityWithMarking`: the min, max and value labels, one
   * kind after the other, are shown or hidden from the settings and the given
   * marked set (an empty set when none is given). The outcome does not
   * depend on the labels' previous display, so applying it twice changes
   * nothing the second time.
   */
  method UpdateLabelVisibilityWithMarking(s: LabelSettings, markedRowIndices: Option<set<int>>,
                                          labels: seq<Label>, display: array<bool>)
    requires display.Length == |labels|
    modifies display
    ensures forall i :: 0 <= i < |labels| ==> display[i] == LabelShown(s, markedRowIndices.GetOr({}), labels[i])
  {
    var selectedRowIndices := markedRowIndices.GetOr({});
    ApplyForKind(MinLabel, s, selectedRowIndices, labels, display);
    ApplyForKind(MaxLabel, s, selectedRowIndices, labels, display);
    ApplyForKind(ValueLabel, s, selectedRowIndices, labels, display);
  }

  /**
   * `updateLabelVisibility`: as above, judged against the selection engine's
   * persistent set (an empty set when the engine is not installed).
   */
  method UpdateLabelVisibility(s: LabelSettings, engine: RectangleSelection.SelectionEngine?,
                               labels: seq<Label>, display: array<bool>)
    requires display.Length == |labels|
    modifies display
    ensures forall i :: 0 <= i < |labels| ==>
      display[i] == LabelShown(s, if engine != null then engine.persistent else {}, labels[i])
  {
    var selectedRowIndices: set<int> := {};
    if engine != null {
      selectedRowIndices := engine.GetSelectedRowIndices();
    }
    UpdateLabelVisibilityWithMarking(s, Some(selectedRowIndices), labels, display);
  }

  /** The settings menu's module state: the plugin handle and the stored label property. */
  class LabelMenu {
    /** Whether `currentMod` is set. */
    var hasMod: bool
    /** `currentLabelProperty`: absent, or what its stored text parses to. */
    var property: Option<Blob>

    constructor ()
      ensures !hasMod && property == None
    {
      hasMod := false;
      property := None;
    }

    /** The state `initializeContextMenu` records. */
    method InitializeContextMenu(mod: bool, labelProperty: Option<Blob>)
      modifies this
      ensures hasMod == mod && property == labelProperty
    {
      hasMod := mod;
      property := labelProperty;
    }

    /** The settings the next `getLabelVisibilitySettings` returns. */
    function Settings(): LabelSettings
      reads this
    {
      GetLabelVisibilitySettings(property)
    }

    /** `saveLabelVisibilitySettings`: store the settings when there is a property, else nothing. */
    method SaveLabelVisibilitySettings(s: LabelSettings)
      modifies this`property
      ensures property == if old(property).Some? then Some(Parsed(Serialize(s))) else None
    {
      if property.None? {
        return;
      }
      property := Some(Parsed(Serialize(s)));
    }

    /** `showPopoutMenu`: no popout without the plugin handle and the property; else the controls for the loaded settings. */
    method ShowPopoutMenu() returns (controls: Option<PopoutControls>)
      ensures controls.Some? <==> hasMod && property.Some?
      ensures controls.Some? ==> controls.value == PopoutControlsFor(GetLabelVisibilitySettings(property))
      ensures controls.Some? ==> (controls.value.checkboxesEnabled <==> Settings().labelMode != NoneMode)
    {
      if !hasMod || property.None? {
        return None;
      }
      var currentSettings := GetLabelVisibilitySettings(property);
      controls := Some(PopoutControlsFor(currentSettings));
    }

    /**
     * The popout's `onChange`: reload the settings, apply the event, save at
     * once and refresh the labels from the updated settings; an event that
     * changes nothing saves and refreshes nothing.
     */
    method OnChange(e: ChangeEvent, engine: RectangleSelection.SelectionEngine?, labels: seq<Label>, display: array<bool>)
      requires display.Length == |labels|
      modifies this`property, display
      ensures var updated := ApplyChange(old(Settings()), e);
        && (updated.None? ==> property == old(property) && display[..] == old(display[..]))
        && (updated.Some? ==>
              && property == (if old(property).Some? then Some(Parsed(Serialize(updated.value))) else None)
              && forall i :: 0 <= i < |labels| ==>
                   display[i] == LabelShown(updated.value, if engine != null then engine.persistent else {}, labels[i]))
    {
      var freshSettings := GetLabelVisibilitySettings(property);
      if e.name == "labelMode" && Truthy(e.value) {
        freshSettings := freshSettings.(labelMode := e.value);
        if e.value == NoneMode {
          freshSettings := freshSettings.(min := false);
          freshSettings := freshSettings.(max := false);
          freshSettings := freshSettings.(value := false);
        }
        SaveLabelVisibilitySettings(freshSettings);
        UpdateLabelVisibility(freshSettings, engine, labels, display);
      } else if e.name == "min" {
        freshSettings := freshSettings.(min := Truthy(e.value));
        SaveLabelVisibilitySettings(freshSettings);
        UpdateLabelVisibility(freshSettings, engine, labels, display);
      } else if e.name == "max" {
        freshSettings := freshSettings.(max := Truthy(e.value));
        SaveLabelVisibilitySettings(freshSettings);
        UpdateLabelVisibility(freshSettings, engine, labels, display);
      } else if e.name == "value" {
        freshSettings := freshSettings.(value := Truthy(e.value));
        SaveLabelVisibilitySettings(freshSettings);
        UpdateLabelVisibility(freshSettings, engine, labels, display);
      }
    }

    /** `applyLabelVisibility`: the labels judged by the loaded settings and the engine's set. */
    method ApplyLabelVisibility(engine: RectangleSelection.SelectionEngine?, labels: seq<Label>, display: array<bool>)
      requires display.Length == |labels|
      modifies display
      ensures forall i :: 0 <= i < |labels| ==>
        display[i] == LabelShown(Settings(), if engine != null then engine.persistent else {}, labels[i])
    {
      var settings := GetLabelVisibilitySettings(property);
      UpdateLabelVisibility(settings, engine, labels, display);
    }

    /** `applyLabelVisibilityWithMarking`: the labels judged by the loaded settings and the given marked set. */
    method ApplyLabelVisibilityWithMarking(markedRowIndices: Option<set<int>>, labels: seq<Label>, display: array<bool>)
      requires display.Length == |labels|
      modifies display
      ensures forall i :: 0 <= i < |labels| ==> display[i] == LabelShown(Settings(), markedRowIndices.GetOr({}), labels[i])
    {
      var settings := GetLabelVisibilitySettings(property);
      UpdateLabelVisibilityWithMarking(settings, markedRowIndices, labels, display);
    }
  }
}

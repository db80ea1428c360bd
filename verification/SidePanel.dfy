/** The decision logic of the side panel: the tri-state "Road info" parent
    checkbox and its four sub-checkboxes, the per-tab visibility of the
    panel's seven sections, the settings snapshot, the bounds between the
    two date edits, and saving a favourite.

    Widgets become plain values. A `QCheckBox` is its check state (the
    parent) or a boolean (the subs, which are never partially checked); a
    `QDateEdit` is a date with its minimum and maximum, dates being day
    numbers; a `QComboBox` is its list of item texts with the current index.
    Each handler is one function from panel to panel. It does not include
    the handlers that its unblocked setters trigger: the favourites reset
    in `change_sub_selection_state` would run `load_favourite_settings`,
    which is not part of this model, and the nested run of
    `set_max_min_dates` from its own date change is shown to change nothing
    (`SetMaxMinDatesNested`). */
module SidePanel {
  import opened Results

  /** `Qt.CheckState`. */
  datatype CheckState = Unchecked | PartiallyChecked | Checked

  /** `QCheckBox.isChecked()`: true for a partially checked box as well. */
  predicate IsChecked(s: CheckState) {
    s != Unchecked
  }

  /** The four sub-checkboxes of "Road info". */
  datatype RoadInfo = RoadInfo(roadCamera: bool, trafficMessages: bool, roadMaintenance: bool, roadCondition: bool)

  /** The sub-checkboxes in the order of `road_info_sub_selection_checkboxes`. */
  function Subs(r: RoadInfo): (bs: seq<bool>)
    ensures |bs| == 4
  {
    [r.roadCamera, r.trafficMessages, r.roadMaintenance, r.roadCondition]
  }

  /** The number of checked sub-checkboxes. */
  function CheckedCount(bs: seq<bool>): (n: nat)
    ensures n <= |bs|
  {
    if |bs| == 0 then 0 else (if bs[0] then 1 else 0) + CheckedCount(bs[1..])
  }

  /** The count of the four subs, one by one. */
  lemma SubsCount(r: RoadInfo)
    ensures CheckedCount(Subs(r)) ==
      (if r.roadCamera then 1 else 0) + (if r.trafficMessages then 1 else 0)
      + (if r.roadMaintenance then 1 else 0) + (if r.roadCondition then 1 else 0)
  {
    var s1 := [r.roadCondition];
    assert s1[1..] == [];
    assert CheckedCount(s1) == (if r.roadCondition then 1 else 0);
    var s2 := [r.roadMaintenance] + s1;
    assert s2[1..] == s1;
    assert CheckedCount(s2) == (if r.roadMaintenance then 1 else 0) + CheckedCount(s1);
    var s3 := [r.trafficMessages] + s2;
    assert s3[1..] == s2;
    assert CheckedCount(s3) == (if r.trafficMessages then 1 else 0) + CheckedCount(s2);
    var s4 := [r.roadCamera] + s3;
    assert s4[1..] == s3;
    assert CheckedCount(s4) == (if r.roadCamera then 1 else 0) + CheckedCount(s3);
    assert Subs(r) == s4;
  }

  /** A combo box: its item texts and its current index (-1 when none). */
  datatype Combo = Combo(items: seq<string>, current: int)

  /** `QComboBox.setCurrentIndex(i)`: an index outside the items selects nothing. */
  function SetCurrentIndex(c: Combo, i: int): (r: Combo)
    ensures r.items == c.items
    ensures 0 <= i < |c.items| ==> r.current == i
    ensures !(0 <= i < |c.items|) ==> r.current == -1
  {
    c.(current := if 0 <= i < |c.items| then i else -1)
  }

  /** A date edit: the shown date and the allowed range, as day numbers. */
  datatype DateEdit = DateEdit(date: int, minimum: int, maximum: int)

  /** The date lies within the allowed range, as Qt maintains it. */
  predicate Valid(e: DateEdit) {
    e.minimum <= e.date <= e.maximum
  }

  /** The date moved into `[lo, hi]`, as `QDateTimeEdit` bounds its value. */
  function Clamp(d: int, lo: int, hi: int): int {
    if d < lo then lo else if d > hi then hi else d
  }

  /** `QDateEdit.setMinimumDate(m)`: a maximum below `m` is raised to `m`,
      and the date is moved into the new range. */
  function SetMinimumDate(e: DateEdit, m: int): (r: DateEdit)
    ensures r.minimum == m && Valid(r)
    ensures r.maximum == if e.maximum < m then m else e.maximum
    ensures e.date < m ==> r.date == m
    ensures Valid(e) && m <= e.date ==> r.date == e.date
  {
    var hi := if e.maximum < m then m else e.maximum;
    DateEdit(Clamp(e.date, m, hi), m, hi)
  }

  /** `QDateEdit.setMaximumDate(m)`: a minimum above `m` is lowered to `m`,
      and the date is moved into the new range. */
  function SetMaximumDate(e: DateEdit, m: int): (r: DateEdit)
    ensures r.maximum == m && Valid(r)
    ensures r.minimum == if e.minimum > m then m else e.minimum
    ensures e.date > m ==> r.date == m
    ensures Valid(e) && e.date <= m ==> r.date == e.date
  {
    var lo := if e.minimum > m then m else e.minimum;
    DateEdit(Clamp(e.date, lo, m), lo, m)
  }

  /** The seven sections of the panel. */
  datatype Section = CitySelection | DataSelection | FavouriteSelection | TimelineSelection
                   | SaveTimeline | SearchData | LoadTimeline

  /** Whether each section is shown. */
  datatype Visibility = Visibility(
    citySelection: bool, dataSelection: bool, favouriteSelection: bool, timelineSelection: bool,
    saveTimeline: bool, searchData: bool, loadTimeline: bool)

  /** Whether section `s` is shown. */
  predicate IsShown(v: Visibility, s: Section) {
    match s
    case CitySelection => v.citySelection
    case DataSelection => v.dataSelection
    case FavouriteSelection => v.favouriteSelection
    case TimelineSelection => v.timelineSelection
    case SaveTimeline => v.saveTimeline
    case SearchData => v.searchData
    case LoadTimeline => v.loadTimeline
  }

  /** The sections each tab shows: the search tab, the timeline tab and the
      load-timeline tab. */
  function TabSections(tab: int): set<Section> {
    if tab == 0 then {CitySelection, DataSelection, FavouriteSelection, SearchData}
    else if tab == 1 then {CitySelection, DataSelection, SearchData, TimelineSelection, SaveTimeline}
    else if tab == 2 then {LoadTimeline}
    else {}
  }

  /** Exactly the sections of tab `tab` are shown. */
  predicate ShowsTab(v: Visibility, tab: int) {
    forall s :: IsShown(v, s) <==> s in TabSections(tab)
  }

  /** The state of the panel the handlers read and change. `city` is the
      current text of the city combo box. */
  datatype Panel = Panel(
    tabIndex: int,
    visibility: Visibility,
    city: string,
    weatherInfo: bool,
    roadInfo: CheckState,
    subs: RoadInfo,
    favourites: Combo,
    startDate: DateEdit,
    endDate: DateEdit)

  /** The dictionary `get_current_settings` returns; the dates are `None`
      outside the timeline tab. */
  datatype Settings = Settings(
    city: string,
    weatherInfo: bool,
    roadInfo: RoadInfo,
    startDate: Option<int>,
    endDate: Option<int>)

  // ---------------------------------------------------------------------
  // The Road info checkboxes.

  /** The parent state the count rule assigns: unchecked for no checked
      sub, partially checked for one to three, checked for four. */
  function ParentFor(r: RoadInfo): CheckState {
    var n := CheckedCount(Subs(r));
    if n == 0 then Unchecked else if 0 < n < 4 then PartiallyChecked else Checked
  }

  /** `change_sub_selection_state`: the favourite combo box is reset to its
      first item and the parent follows the count of checked subs. (The
      source writes the unchecked state as `not Qt.Checked`, which is
      `False`, that is 0, `Qt.Unchecked`.) */
  function ChangeSubSelectionState(p: Panel): (r: Panel)
    ensures r.roadInfo == Unchecked <==>
      !p.subs.roadCamera && !p.subs.trafficMessages && !p.subs.roadMaintenance && !p.subs.roadCondition
    ensures r.roadInfo == Checked <==>
      p.subs.roadCamera && p.subs.trafficMessages && p.subs.roadMaintenance && p.subs.roadCondition
    ensures r.favourites == SetCurrentIndex(p.favourites, 0)
    ensures r.(roadInfo := p.roadInfo, favourites := p.favourites) == p
  {
    SubsCount(p.subs);
    p.(favourites := SetCurrentIndex(p.favourites, 0), roadInfo := ParentFor(p.subs))
  }

  /** `select_all_sub_selections`: a partially checked parent becomes
      checked, then every sub whose state differs from the parent's is
      toggled. */
  function SelectAllSubSelections(p: Panel): (r: Panel)
    ensures p.roadInfo == PartiallyChecked ==> r.roadInfo == Checked
    ensures p.roadInfo != PartiallyChecked ==> r.roadInfo == p.roadInfo
    ensures forall i :: 0 <= i < 4 ==> Subs(r.subs)[i] == IsChecked(r.roadInfo)
    ensures r.(roadInfo := p.roadInfo, subs := p.subs) == p
  {
    var parent := if p.roadInfo == PartiallyChecked then Checked else p.roadInfo;
    var on := IsChecked(parent);
    p.(roadInfo := parent,
       subs := RoadInfo(Align(p.subs.roadCamera, on), Align(p.subs.trafficMessages, on),
                        Align(p.subs.roadMaintenance, on), Align(p.subs.roadCondition, on)))
  }

  /** One iteration of the loop over the subs: toggle when it differs. */
  function Align(b: bool, target: bool): (r: bool)
    ensures r == target
  {
    if b != target then !b else b
  }

  /** The parent shows what the subs hold. */
  predicate Consistent(p: Panel) {
    p.roadInfo == ParentFor(p.subs)
  }

  /** The count rule, over the four subs. */
  lemma ParentForSpec(r: RoadInfo)
    ensures ParentFor(r) == Unchecked <==> forall i :: 0 <= i < 4 ==> !Subs(r)[i]
    ensures ParentFor(r) == Checked <==> forall i :: 0 <= i < 4 ==> Subs(r)[i]
  {
    SubsCount(r);
    var bs := Subs(r);
    assert bs[0] == r.roadCamera && bs[1] == r.trafficMessages;
    assert bs[2] == r.roadMaintenance && bs[3] == r.roadCondition;
  }

  /** After a click on the parent the count rule reproduces the parent's
      state: both handlers leave the checkboxes consistent. */
  lemma SelectAllConsistent(p: Panel)
    ensures Consistent(SelectAllSubSelections(p))
    ensures ChangeSubSelectionState(SelectAllSubSelections(p)).roadInfo == SelectAllSubSelections(p).roadInfo
    ensures Consistent(ChangeSubSelectionState(p))
  {
    var r := SelectAllSubSelections(p);
    ParentForSpec(r.subs);
  }

  /** Clicking the parent twice in a row is clicking it once. */
  lemma SelectAllIdempotent(p: Panel)
    ensures SelectAllSubSelections(SelectAllSubSelections(p)) == SelectAllSubSelections(p)
  {
  }

  /** A consistent panel is left as it is by a click on the parent when
      all or none of the subs are checked. */
  lemma SelectAllKeepsFullOrEmpty(p: Panel)
    requires Consistent(p) && p.roadInfo != PartiallyChecked
    ensures SelectAllSubSelections(p) == p
  {
    ParentForSpec(p.subs);
    var r := SelectAllSubSelections(p);
    assert Subs(r.subs) == Subs(p.subs);
  }

  // ---------------------------------------------------------------------
  // Tabs.

  /** `handle_side_panel_items_visibility` for tab `tab`: each of the three
      tabs shows its own sections and hides the rest; any other index
      changes nothing. */
  function HandleVisibility(tab: int, v: Visibility): (r: Visibility)
    ensures tab in {0, 1, 2} ==> ShowsTab(r, tab)
    ensures tab !in {0, 1, 2} ==> r == v
  {
    if tab == 0 then Visibility(true, true, true, false, false, true, false)
    else if tab == 1 then Visibility(true, true, false, true, true, true, false)
    else if tab == 2 then Visibility(false, false, false, false, false, false, true)
    else v
  }

  /** `set_tab_index`: the index is recorded and the sections of the new
      tab are shown. */
  function SetTabIndex(p: Panel, index: int): (r: Panel)
    ensures r.tabIndex == index
    ensures index in {0, 1, 2} ==> ShowsTab(r.visibility, index)
    ensures index !in {0, 1, 2} ==> r.visibility == p.visibility
    ensures r.(tabIndex := p.tabIndex, visibility := p.visibility) == p
  {
    p.(tabIndex := index, visibility := HandleVisibility(index, p.visibility))
  }

  /** The sections shown determine the visibility record. */
  lemma IsShownInjective(v: Visibility, w: Visibility)
    requires forall s :: IsShown(v, s) == IsShown(w, s)
    ensures v == w
  {
    assert IsShown(v, CitySelection) == IsShown(w, CitySelection);
    assert IsShown(v, DataSelection) == IsShown(w, DataSelection);
    assert IsShown(v, FavouriteSelection) == IsShown(w, FavouriteSelection);
    assert IsShown(v, TimelineSelection) == IsShown(w, TimelineSelection);
    assert IsShown(v, SaveTimeline) == IsShown(w, SaveTimeline);
    assert IsShown(v, SearchData) == IsShown(w, SearchData);
    assert IsShown(v, LoadTimeline) == IsShown(w, LoadTimeline);
  }

  /** For the three tabs the visibility is a function of the tab alone, so
      switching to a tab twice is switching once, whatever was shown before. */
  lemma VisibilityByTab(tab: int, v: Visibility, w: Visibility)
    requires tab in {0, 1, 2}
    ensures HandleVisibility(tab, v) == HandleVisibility(tab, w)
    ensures HandleVisibility(tab, HandleVisibility(tab, v)) == HandleVisibility(tab, v)
  {
    var a, b := HandleVisibility(tab, v), HandleVisibility(tab, w);
    assert ShowsTab(a, tab) && ShowsTab(b, tab);
    IsShownInjective(a, b);
  }

  /** The load-timeline section and the search section are never shown
      together, and the timeline section only on the timeline tab. */
  lemma TabsExclusive(tab: int, v: Visibility)
    requires tab in {0, 1, 2}
    ensures var r := HandleVisibility(tab, v);
      && !(IsShown(r, LoadTimeline) && IsShown(r, SearchData))
      && (IsShown(r, TimelineSelection) <==> tab == 1)
  {
    var r := HandleVisibility(tab, v);
    assert ShowsTab(r, tab);
    assert IsShown(r, LoadTimeline) <==> LoadTimeline in TabSections(tab);
    assert IsShown(r, SearchData) <==> SearchData in TabSections(tab);
    assert IsShown(r, TimelineSelection) <==> TimelineSelection in TabSections(tab);
  }

  // ---------------------------------------------------------------------
  // Settings and dates.

  /** `get_current_settings`. */
  function CurrentSettings(p: Panel): (s: Settings)
    ensures s.city == p.city && s.weatherInfo == p.weatherInfo
    ensures Subs(s.roadInfo) == Subs(p.subs)
    ensures s.startDate.Some? <==> p.tabIndex == 1
    ensures s.endDate.Some? <==> p.tabIndex == 1
    ensures s.startDate.Some? ==> s.startDate.value == p.startDate.date
    ensures s.endDate.Some? ==> s.endDate.value == p.endDate.date
  {
    Settings(p.city, p.weatherInfo, p.subs,
             if p.tabIndex == 1 then Some(p.startDate.date) else None,
             if p.tabIndex == 1 then Some(p.endDate.date) else None)
  }

  /** The snapshot records neither the parent checkbox, nor the visible
      sections, nor the favourites, nor the date ranges, nor which tab
      other than the timeline tab is open. */
  lemma CurrentSettingsIgnores(p: Panel, parent: CheckState, v: Visibility, c: Combo, tab: int,
                                lo1: int, hi1: int, lo2: int, hi2: int)
    requires (tab == 1) == (p.tabIndex == 1)
    ensures CurrentSettings(p.(roadInfo := parent, visibility := v, favourites := c, tabIndex := tab)) == CurrentSettings(p)
    ensures CurrentSettings(p.(startDate := p.startDate.(minimum := lo1, maximum := hi1),
                               endDate := p.endDate.(minimum := lo2, maximum := hi2))) == CurrentSettings(p)
  {
  }

  /** `set_max_min_dates`: the end date may not precede the start date and
      the start date may not follow the end date. */
  function SetMaxMinDates(p: Panel): (r: Panel)
    ensures r.endDate.minimum == p.startDate.date
    ensures r.startDate.maximum == r.endDate.date
    ensures r.(startDate := p.startDate, endDate := p.endDate) == p
  {
    var endEdit := SetMinimumDate(p.endDate, p.startDate.date);
    var startEdit := SetMaximumDate(p.startDate, endEdit.date);
    p.(startDate := startEdit, endDate := endEdit)
  }

  /** On valid date edits the start date stays, the end date moves up to
      the start date if it was earlier, and both edits stay valid with the
      start no later than the end. */
  lemma SetMaxMinDatesSpec(p: Panel)
    requires Valid(p.startDate) && Valid(p.endDate)
    ensures var r := SetMaxMinDates(p);
      && r.startDate.date == p.startDate.date
      && r.endDate.date == (if p.endDate.date < p.startDate.date then p.startDate.date else p.endDate.date)
      && r.startDate.minimum == p.startDate.minimum
      && Valid(r.startDate) && Valid(r.endDate)
      && r.startDate.date <= r.endDate.date
  {
  }

  /** Running the handler again on its own result changes nothing. */
  lemma SetMaxMinDatesIdempotent(p: Panel)
    requires Valid(p.startDate) && Valid(p.endDate)
    ensures SetMaxMinDates(SetMaxMinDates(p)) == SetMaxMinDates(p)
  {
  }

  /** The handler's signals are not blocked: when its first setter moves
      the end date, the end date's `dateChanged` runs the handler again
      before the second setter. That nested run followed by the outer
      run's second setter ends in the same state as the handler without
      the nesting. The second setter never moves the start date on valid
      edits (`SetMaxMinDatesSpec`), so the start date's signal does not
      fire. */
  lemma SetMaxMinDatesNested(p: Panel)
    requires Valid(p.startDate) && Valid(p.endDate)
    ensures var mid := p.(endDate := SetMinimumDate(p.endDate, p.startDate.date));
      var n := SetMaxMinDates(mid);
      n.(startDate := SetMaximumDate(n.startDate, n.endDate.date)) == SetMaxMinDates(p)
  {
  }

  // ---------------------------------------------------------------------
  // Favourites.

  /** No text occurs twice among the items. */
  predicate NoDuplicates(items: seq<string>) {
    forall i, j :: 0 <= i < j < |items| ==> items[i] != items[j]
  }

  /** The map and combo-box update of `set_favourite_settings`: the snapshot
      is stored under its city; the first item with that text becomes
      current, or the text is appended and selected. The file is read and
      written around this update; the map stands for its contents. */
  method SetFavouriteSettings(p: Panel, settings: map<string, Settings>)
    returns (saved: map<string, Settings>, favourites: Combo)
    ensures var key := p.city;
      && saved.Keys == settings.Keys + {key}
      && saved[key] == CurrentSettings(p)
      && (forall k :: k in settings && k != key ==> saved[k] == settings[k])
    ensures p.city in p.favourites.items ==> favourites.items == p.favourites.items
    ensures p.city !in p.favourites.items ==> favourites.items == p.favourites.items + [p.city]
    ensures 0 <= favourites.current < |favourites.items| && favourites.items[favourites.current] == p.city
    ensures forall j :: 0 <= j < favourites.current ==> favourites.items[j] != p.city
    ensures NoDuplicates(p.favourites.items) ==> NoDuplicates(favourites.items)
  {
    var selection := CurrentSettings(p);
    var key := selection.city;
    saved := settings[key := selection];
    var items := p.favourites.items;
    var i := 0;
    while i < |items|
      invariant 0 <= i <= |items|
      invariant forall j :: 0 <= j < i ==> items[j] != key
    {
      if items[i] == key {
        favourites := SetCurrentIndex(p.favourites, i);
        return;
      }
      i := i + 1;
    }
    favourites := Combo(items + [key], |items|);
  }
}

# Road Watch: formatters and side-panel logic in Dafny

Road Watch is a desktop application. It shows weather, road-condition,
maintenance and traffic-message data for five Finnish cities. This project
models two parts of it as pure Dafny functions and proves what they compute:

- The three formatters in `project/controller/model/apirequests.py`. Each
  turns a parsed Digitraffic response into the nested dictionaries the views
  draw from:
  - `format_road_condition`: buckets readings by forecast horizon ("0h",
    "2h", "4h", "6h", "12h"), then reduces each bucket. A categorical list
    becomes its most frequent value. The temperatures become their mean.
  - `format_maintenance_data`: three parallel lists of tasks, start times and
    end times.
  - `format_traffic_messages`: the situation type, name and comment of a
    message, once per coordinate list of it that holds a pair passing the
    city's box test as written (which lets some pairs outside the box pass).
- The decision logic of `project/controller/components/side_panel.py`:
  - the tri-state "Road info" checkbox and its four sub-checkboxes;
  - which sections each tab shows;
  - the settings snapshot;
  - the bounds between the start and end date edits;
  - saving a favourite.

How the model works:

- A Python exception becomes `Failure(e)`. Here `e` names the exception
  (`KeyError`, `IndexError`, `TypeError`, `ValueError`,
  `ZeroDivisionError`) that the first failing expression raises, in Python's
  evaluation order.
- JSON numbers are `real`s.
- Dates are day numbers.
- Widgets are values: a check state, a boolean, a date with its range, or a
  list of item texts with a current index.
- Qt's documented behaviour is modelled explicitly:
  - `isChecked()` is true for a partially checked box;
  - `setMinimumDate`/`setMaximumDate` keep the minimum at or below the
    maximum and move the date into the range;
  - `setCurrentIndex` with an index outside the items selects nothing.

Files:

- `Results.dfy`: `Option`, `Result` and the exception kinds.
- `Statistics.dfy`: `Counter` plus `max(…, key=itemgetter(1))` as an ordered
  tally with a first-maximum scan, and the mean. An independent `IsMode`
  reference definition is proved equivalent to it.
- `RoadCondition.dfy`: `format_road_condition`.
- `Maintenance.dfy`: `format_maintenance_data`.
- `TrafficMessages.dfy`: `format_traffic_messages`.
- `SidePanel.dfy`: the side-panel handlers.

Behaviour of the code worth noting:

- A horizon with no readings raises `ValueError`: `max()` of its empty
  daylight counter fails before the mean is reached, so the model returns
  `Failure(ValueError)`. A bucket
  that has daylight values but no temperatures would raise
  `ZeroDivisionError`, and `Statistics.Mean` models that. Such a bucket
  cannot arise from `format_road_condition`, because every reading adds to
  every list of its bucket.
- A mode tie goes to the value whose first occurrence comes earliest. The
  reason is that `Counter` keeps insertion order and `max` keeps the first
  maximum it meets. `Statistics.IsMode` states this.
- A "0h" reading that carries a `forecastConditionReason` is neither
  rejected nor an error: the code never reads that reason.
- On a forecast reading, a missing `forecastConditionReason` key raises
  `KeyError`. A `null` reason raises `TypeError`, because the code
  subscripts `None`. The model keeps the two cases apart.
- The traffic-message box test is reproduced as written. Its third
  conjunct compares the longitude with the box's maximum latitude, and the
  maximum latitude is never compared with the latitude. So for the five
  cities' boxes, a pair north of the box passes
  (`TrafficMessages.CityBoxesIgnoreLastConjunct`,
  `TrafficMessages.NorthOfBoxPasses`).

## Model

| member | source | states |
|---|---|---|
| Statistics.FirstMaximum | project/controller/model/apirequests.py:279 | the selected entry has a count no smaller than any other, and every entry before it has a strictly smaller count |
| Statistics.TallyCorrect | project/controller/model/apirequests.py:278 | the tally holds each distinct value once, with its number of occurrences, ordered by first occurrence |
| Statistics.IncrementTallies | project/controller/model/apirequests.py:278 | counting one more value keeps the tally correct for the extended list, whether the value is new or already counted |
| Statistics.Mode | project/controller/model/apirequests.py:278-279 | succeeds exactly on a non-empty list; on an empty list it fails with ValueError |
| Statistics.ModeIsMode | project/controller/model/apirequests.py:278-279 | the result occurs in the list, no value occurs more often, and no equally frequent value occurs first earlier |
| Statistics.IsModeUnique | project/controller/model/apirequests.py:278-279 | that description fixes a single value, so the reduction is deterministic |
| Statistics.ModeCharacterized | project/controller/model/apirequests.py:278-279 | the mode is `v` if and only if `v` meets that description |
| Statistics.Mean | project/controller/model/apirequests.py:282 | succeeds exactly on a non-empty list, otherwise fails with ZeroDivisionError; the result times the length is the sum |
| Statistics.SumBounds | project/controller/model/apirequests.py:282 | a sum of values between two bounds lies between the length times each bound |
| Statistics.MeanBounds | project/controller/model/apirequests.py:282-283 | the mean lies between any lower and upper bound of the temperatures |
| Statistics.SingletonReductions | project/controller/model/apirequests.py:278-283 | a one-element list reduces to its element, both for the mode and for the mean |
| RoadCondition.HorizonsDistinct | project/controller/model/apirequests.py:251-264 | the five horizon names are distinct and are exactly the keys of `conditions` |
| RoadCondition.InitialShaped | project/controller/model/apirequests.py:251-264 | the starting dictionary has the five horizons, each with empty lists, and reason lists only for the forecast horizons |
| RoadCondition.ReasonOf | project/controller/model/apirequests.py:272-275 | reading the reason succeeds exactly when it is an object; a missing key raises KeyError for `forecastConditionReason`, and `null` raises TypeError |
| RoadCondition.Route | project/controller/model/apirequests.py:268-275 | a successful step keeps the dictionary's keys |
| RoadCondition.RouteFails | project/controller/model/apirequests.py:268-275 | one reading's step succeeds iff its name is a horizon and, unless it is "0h", it carries a reason; otherwise it raises a KeyError for the unknown name or for a missing `forecastConditionReason`, or a TypeError for a `null` one |
| RoadCondition.RouteValue | project/controller/model/apirequests.py:268-275 | a well-routed reading's values are appended to the bucket it names and nowhere else |
| RoadCondition.RouteShaped | project/controller/model/apirequests.py:268-275 | the step keeps the horizon keys, and keeps the reason lists in exactly the forecast buckets |
| RoadCondition.RouteSpec | project/controller/model/apirequests.py:268-275 | after the step, each bucket is the old one extended by the readings routed to it |
| RoadCondition.Collect | project/controller/model/apirequests.py:266-275 | a successful collecting loop keeps the dictionary's keys |
| RoadCondition.CollectSkip | project/controller/model/apirequests.py:266-275 | a well-routed first reading is routed, the shape is kept, and the loop continues with the remaining readings |
| RoadCondition.CollectHeadError | project/controller/model/apirequests.py:266-275 | a badly routed first reading stops the loop with its own exception (KeyError, or TypeError for a `null` reason) |
| RoadCondition.CollectSucceeds | project/controller/model/apirequests.py:266-275 | the collecting loop succeeds iff every reading is well routed, and it keeps the shape |
| RoadCondition.CollectAppends | project/controller/model/apirequests.py:266-275 | over well-routed readings, every bucket ends as its start extended by the readings naming it, in input order |
| RoadCondition.CollectFirstError | project/controller/model/apirequests.py:266-275 | the loop raises the error of the first badly routed reading |
| RoadCondition.ReasonListsFull | project/controller/model/apirequests.py:271-275 | in a forecast bucket the two reason lists are as long as the bucket's group of readings |
| RoadCondition.CollectedBucket | project/controller/model/apirequests.py:251-275 | each collected bucket holds exactly its horizon's daylight, temperature and overall values in order (plus reason values for forecast horizons); it is non-empty iff the horizon has a reading |
| RoadCondition.CollectedBuckets | project/controller/model/apirequests.py:251-275 | the same for all five buckets of the collected dictionary |
| RoadCondition.ReduceBucketFails | project/controller/model/apirequests.py:277-297 | a bucket reduces iff every list it has is non-empty; an empty daylight list raises ValueError |
| RoadCondition.ReduceOptionalSummarises | project/controller/model/apirequests.py:289-297 | a present non-empty reason list becomes its one-element mode, and an absent one stays absent |
| RoadCondition.ReduceBucketSummarises | project/controller/model/apirequests.py:277-297 | a filled bucket becomes one-element lists: the mode of each categorical list and the mean of the temperatures |
| RoadCondition.ReduceAll | project/controller/model/apirequests.py:277-297 | the reducing loop keeps the dictionary's keys |
| RoadCondition.ReduceAllSucceeds | project/controller/model/apirequests.py:277-297 | the reducing loop succeeds iff every bucket is filled, and over collected buckets it can only fail with ValueError |
| RoadCondition.ReduceAllSpec | project/controller/model/apirequests.py:277-297 | every named bucket is replaced by its summary and every other key is unchanged |
| RoadCondition.FormatRoadCondition | project/controller/model/apirequests.py:239-300 | the result maps just the city to the five horizons |
| RoadCondition.FormatRoadConditionSucceeds | project/controller/model/apirequests.py:239-300 | the function returns iff every reading is well routed and every horizon has at least one reading |
| RoadCondition.FormatRoadConditionSpec | project/controller/model/apirequests.py:239-300 | each horizon's output summarises exactly the readings naming it: the modes, the mean temperature, and reason modes for the forecast horizons |
| RoadCondition.FormatRoadConditionShape | project/controller/model/apirequests.py:251-299 | every list of every output bucket holds exactly one value; the precipitation and road-condition lists exist in every bucket except "0h" |
| RoadCondition.UnknownHorizonFails | project/controller/model/apirequests.py:268 | a reading with an unknown `forecastName`, after only well-routed ones, raises a KeyError for that name |
| RoadCondition.NullReasonFails | project/controller/model/apirequests.py:271-273 | a forecast reading whose reason is `null`, after only well-routed ones, makes the function raise TypeError |
| RoadCondition.EmptyHorizonFails | project/controller/model/apirequests.py:277-279 | a horizon with no readings makes the function raise ValueError |
| Maintenance.FormatMaintenanceData | project/controller/model/apirequests.py:152-169 | the result maps just the city to three lists as long as the features; each position holds that feature's tasks, start time and end time |
| Maintenance.ListsUnique | project/controller/model/apirequests.py:161-168 | these lists are determined by the features |
| Maintenance.ListsConcat | project/controller/model/apirequests.py:163-166 | the lists of two feature sequences in turn are the concatenation of their lists, so the output order is the feature order |
| TrafficMessages.CityBox | project/controller/model/apirequests.py:38-42 | a box exists exactly for the five cities; any other name raises a KeyError for that name |
| TrafficMessages.MessageOf | project/controller/model/apirequests.py:213-215 | the message takes the feature's situation type and the first announcement's first feature's name and comment; it raises IndexError iff either list is empty |
| TrafficMessages.PairOutcomeSpec | project/controller/model/apirequests.py:210-212 | an element passes iff it is a pair of numbers inside the box as written; it raises TypeError exactly where `len` meets a number or a comparison meets a list |
| TrafficMessages.ScanPairsSpec | project/controller/model/apirequests.py:209-216 | the innermost loop reports a hit iff some element passes after only rejected ones, reports no hit iff all are rejected, and otherwise raises TypeError |
| TrafficMessages.ScanPairsHit | project/controller/model/apirequests.py:209-216 | when the inner loop completes, it reports a hit iff the coordinate list holds a passing pair |
| TrafficMessages.EntryMessages | project/controller/model/apirequests.py:207-216 | one coordinate entry contributes at most one message, because of the `break` |
| TrafficMessages.EntriesMessages | project/controller/model/apirequests.py:207-216 | a geometry contributes at most one message per coordinate entry |
| TrafficMessages.EntriesMessagesSpec | project/controller/model/apirequests.py:207-216 | a geometry contributes one copy of the feature's message per coordinate list holding a passing pair |
| TrafficMessages.FeatureMessagesSpec | project/controller/model/apirequests.py:206-216 | a feature with null geometry contributes nothing; otherwise one message per matching coordinate list, each being the feature's message |
| TrafficMessages.MissingAnnouncementFails | project/controller/model/apirequests.py:214 | a match on a feature without announcements, or whose first announcement has no features, raises IndexError |
| TrafficMessages.FormatFeaturesConcat | project/controller/model/apirequests.py:205-216 | the feature loop distributes over concatenation: the first failing part decides the error, otherwise the messages concatenate in order |
| TrafficMessages.FormatFeaturesSound | project/controller/model/apirequests.py:205-216 | every listed message is the message of some feature holding a passing coordinate pair |
| TrafficMessages.Unzip | project/controller/model/apirequests.py:213-215 | the three lists are as long as the messages and hold each message's fields at its position |
| TrafficMessages.FormatTrafficMessages | project/controller/model/apirequests.py:192-219 | an unknown city raises a KeyError for the city; a result maps just the city to three lists of equal length |
| TrafficMessages.FormatTrafficMessagesSound | project/controller/model/apirequests.py:192-219 | a result implies the city is known, and position k of the three lists holds the situation type, name and comment of one matching feature |
| TrafficMessages.NorthOfBoxPasses | project/controller/model/apirequests.py:211-212 | with Tampere's box, the pair (23.7, 70.0), far north of it, passes the test |
| TrafficMessages.CityBoxesIgnoreLastConjunct | project/controller/model/apirequests.py:211-212 | for the five cities' boxes, the test as written is exactly "longitude strictly inside, latitude above the minimum" |
| SidePanel.SubsCount | project/controller/components/side_panel.py:297 | the number of checked subs is the sum over the four boxes |
| SidePanel.ParentForSpec | project/controller/components/side_panel.py:297-309 | the count rule gives unchecked iff no sub is checked, and checked iff all four are |
| SidePanel.ChangeSubSelectionState | project/controller/components/side_panel.py:289-309 | the parent becomes unchecked iff no sub is checked and checked iff all are (partially checked otherwise); the favourites box goes to index 0; nothing else changes |
| SidePanel.Align | project/controller/components/side_panel.py:283-285 | toggling a box that differs from the parent leaves it equal to the parent |
| SidePanel.SelectAllSubSelections | project/controller/components/side_panel.py:271-286 | a partially checked parent becomes checked, any other state stays; every sub then equals the parent's checked state; nothing else changes |
| SidePanel.SelectAllConsistent | project/controller/components/side_panel.py:271-309 | after either handler, the parent's state is the one the count rule assigns to the subs |
| SidePanel.SelectAllIdempotent | project/controller/components/side_panel.py:271-286 | a second run of the parent's handler changes nothing |
| SidePanel.SelectAllKeepsFullOrEmpty | project/controller/components/side_panel.py:271-286 | on a consistent panel with the parent checked or unchecked, the parent's handler changes nothing |
| SidePanel.SetMinimumDate | project/controller/components/side_panel.py:319 | the new minimum is set, the maximum is raised to it if it was lower, and the date stays in range: an earlier date moves to the minimum, an in-range date stays |
| SidePanel.SetMaximumDate | project/controller/components/side_panel.py:322 | the new maximum is set, the minimum is lowered to it if it was higher, and the date stays in range: a later date moves to the maximum, an in-range date stays |
| SidePanel.HandleVisibility | project/controller/components/side_panel.py:325-354 | tab 0 shows city, data, favourites and search; tab 1 shows city, data, search, timeline and save-timeline; tab 2 shows only load-timeline; any other index changes nothing |
| SidePanel.SetTabIndex | project/controller/components/side_panel.py:37-45 | the index is recorded, the new tab's sections are shown, and nothing else changes |
| SidePanel.VisibilityByTab | project/controller/components/side_panel.py:325-354 | for the three tabs the shown sections depend on the tab alone, and switching to the same tab again changes nothing |
| SidePanel.TabsExclusive | project/controller/components/side_panel.py:325-354 | search and load-timeline are never shown together, and the timeline selection is shown only on tab 1 |
| SidePanel.CurrentSettings | project/controller/components/side_panel.py:357-376 | the snapshot holds the city text, the weather flag and the four subs; it holds the two dates iff tab 1 is open |
| SidePanel.CurrentSettingsIgnores | project/controller/components/side_panel.py:357-376 | the snapshot does not depend on the parent checkbox, the shown sections, the favourites, the minimum and maximum of either date edit, or which other tab is open |
| SidePanel.SetMaxMinDates | project/controller/components/side_panel.py:312-322 | the end's minimum becomes the start date and the start's maximum becomes the resulting end date; nothing else changes |
| SidePanel.SetMaxMinDatesSpec | project/controller/components/side_panel.py:312-322 | on valid date edits the start date stays, an end date before it moves up to it, and both edits stay valid with start no later than end |
| SidePanel.SetMaxMinDatesIdempotent | project/controller/components/side_panel.py:312-322 | on valid date edits, running the handler a second time on its result changes nothing |
| SidePanel.SetMaxMinDatesNested | project/controller/components/side_panel.py:318-322 | on valid date edits, the nested run that the end date's change triggers between the two setters, followed by the outer run's second setter, ends in the same state as the handler without nesting |
| SidePanel.SetFavouriteSettings | project/controller/components/side_panel.py:379-403 | the snapshot is stored under its city and every other entry is kept; the city is appended to the favourites iff absent; the current index is its first occurrence; distinct items stay distinct |

## Left out

- HTTP requests (`get_road_condition`, `get_traffic_messages` and the
  others): network I/O. The formatters take the parsed response as input.
- Reading and writing JSON files, both the saved responses and
  `settings.json`: file I/O. `SidePanel.SetFavouriteSettings` takes the
  file's dictionary as a map and returns the new one.
- Parsing the numeric strings of the coordinate tables and
  `float(roadTemperature)`: the values are exact reals here. IEEE rounding
  of the sums and means is not modelled.
- `RoadCondition.FormatRoadConditionSpec` states the mean as an exact real
  quotient. It does not model Python's floating-point rounding, because the
  model has no floats.
- JSON values of other types in the traffic coordinates: strings, booleans
  and nulls in coordinate lists are not modelled, because the response
  schema holds only numbers and nested lists there. A geometry is either
  null (`None`) or an object with `coordinates`.
- A missing key in a typed record field, such as a reading without
  `daylight` or a feature without `properties`: the datatypes hold these
  fields, so such input cannot be written. The keys whose absence the code
  meets in practice are modelled: an unknown `forecastName`, a missing
  `forecastConditionReason`, and an unknown city. The same holds for JSON
  `null` in those fields. The exception is `forecastConditionReason`,
  whose `null` is modelled.
- `load_favourite_settings` and `initialize_favourite_selection_combo_box`:
  they read `settings.json`. The favourites box's `currentIndexChanged`
  signal calls `load_favourite_settings`, which is left out too. That
  function reads `settings.json` and then returns without changing any
  widget when the current text is "Select view". When the
  first item is a saved favourite instead, the resets to index 0 in
  `SidePanel.ChangeSubSelectionState` would also load that favourite's
  settings. That chain is not modelled, because what the items hold depends
  on `settings.json`, and `settings.json` is not part of this model.
- `city_selection_combo_box_changed` and `weather_info_checkbox_changed`:
  each is a single `setCurrentIndex(0)` on the favourites box, the same
  reset that `SidePanel.ChangeSubSelectionState` models. They are not
  modelled separately.
- `clear_all_info_selections`: it unchecks the weather and "Road info"
  boxes, and nothing in the code calls it, so it is not modelled.
- Qt's click cycle of the tristate checkbox, layouts, fonts and signal
  delivery: a handler is modelled as a function of the state it finds when
  it runs.
- ISO formatting of the dates in the snapshot: dates are day numbers.
- The graph widget, the map views and the windows: display code.

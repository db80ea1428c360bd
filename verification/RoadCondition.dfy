/** `format_road_condition`: road-condition readings are routed into five
    forecast-horizon buckets by their `forecastName`, and each bucket's lists
    are then reduced to one value each (the mode of a categorical list, the
    mean of the temperatures).

    The buckets are the dictionaries of the source: the 0h bucket has no
    `precipitationCondition` and no `roadCondition` list, which the model
    writes as `None`. Every Python exception the function can raise on its
    parsed input becomes a `Failure` naming it. */
module RoadCondition {
  import opened Results
  import Statistics

  /** A categorical value as the service sends it (daylight, condition names). */
  type Label = string

  /** The `forecastConditionReason` object of a forecast reading. */
  datatype ConditionReason = ConditionReason(precipitationCondition: Label, roadCondition: Label)

  /** The `forecastConditionReason` entry of a reading: the key may be
      absent, hold JSON `null`, or hold the reason object. */
  datatype ReasonField = NoReason | NullReason | Reason(value: ConditionReason)

  /** `reading['forecastConditionReason']` followed by a subscript of the
      result: a missing key raises KeyError, and subscripting `None` raises
      TypeError. */
  function ReasonOf(f: ReasonField): (r: Result<ConditionReason>)
    ensures r.Success? <==> f.Reason?
    ensures f.Reason? ==> r.value == f.value
    ensures f.NoReason? ==> r.error == KeyError("forecastConditionReason")
    ensures f.NullReason? ==> r.error == TypeError
  {
    match f
    case NoReason => Failure(KeyError("forecastConditionReason"))
    case NullReason => Failure(TypeError)
    case Reason(c) => Success(c)
  }

  /** One element of a station's `roadConditions` list. The reason of a
      "0h" reading is never read. */
  datatype Reading = Reading(
    forecastName: string,
    daylight: Label,
    roadTemperature: real,
    overallRoadCondition: Label,
    forecastConditionReason: ReasonField)

  /** One element of the response's `weatherData` list. */
  datatype Station = Station(roadConditions: seq<Reading>)

  /** The parsed response of the road-conditions endpoint. */
  datatype ConditionData = ConditionData(weatherData: seq<Station>)

  /** The per-horizon dictionary of lists. */
  datatype Bucket = Bucket(
    daylight: seq<Label>,
    roadTemperature: seq<real>,
    overallRoadCondition: seq<Label>,
    precipitationCondition: Option<seq<Label>>,
    roadCondition: Option<seq<Label>>)

  /** The `conditions` dictionary, keyed by forecast name. */
  type Conditions = map<string, Bucket>

  /** The name of the current-conditions horizon. */
  const Now: string := "0h"

  /** The horizons in the insertion order of the `conditions` dictionary. */
  const Horizons: seq<string> := ["0h", "2h", "4h", "6h", "12h"]

  const HorizonSet: set<string> := {"0h", "2h", "4h", "6h", "12h"}

  /** A bucket with no readings yet; forecast buckets carry the two reason lists. */
  function EmptyBucket(forecast: bool): Bucket {
    if forecast then Bucket([], [], [], Some([]), Some([])) else Bucket([], [], [], None, None)
  }

  /** The `conditions` dictionary the function starts from. */
  const InitialConditions: Conditions :=
    map["0h" := EmptyBucket(false), "2h" := EmptyBucket(true), "4h" := EmptyBucket(true),
        "6h" := EmptyBucket(true), "12h" := EmptyBucket(true)]

  /** The readings in the order the two nested loops visit them. */
  function Readings(stations: seq<Station>): seq<Reading> {
    if |stations| == 0 then [] else stations[0].roadConditions + Readings(stations[1..])
  }

  /** Appending the reading's daylight, temperature and overall condition. */
  function AppendMeasurements(b: Bucket, r: Reading): Bucket {
    b.(daylight := b.daylight + [r.daylight],
       roadTemperature := b.roadTemperature + [r.roadTemperature],
       overallRoadCondition := b.overallRoadCondition + [r.overallRoadCondition])
  }

  /** Appending the two values of the reading's reason object, with the
      lookups in the order Python evaluates them: the bucket's list first,
      then the reading's reason object. */
  function AppendReason(b: Bucket, r: Reading): Result<Bucket> {
    var precipitation :- Lookup(b.precipitationCondition, "precipitationCondition");
    var reason :- ReasonOf(r.forecastConditionReason);
    var road :- Lookup(b.roadCondition, "roadCondition");
    Success(b.(precipitationCondition := Some(precipitation + [reason.precipitationCondition]),
               roadCondition := Some(road + [reason.roadCondition])))
  }

  /** The body of the inner loop: append the reading's values to the lists
      of the bucket its `forecastName` names, the reason values only when
      that name is not "0h". */
  function Route(conds: Conditions, r: Reading): (res: Result<Conditions>)
    ensures res.Success? ==> res.value.Keys == conds.Keys
  {
    var name := r.forecastName;
    if name !in conds then Failure(KeyError(name))
    else
      var measured := AppendMeasurements(conds[name], r);
      var b :- if name != Now then AppendReason(measured, r) else Success(measured);
      Success(conds[name := b])
  }

  /** The collecting loop over all readings, in order. */
  function Collect(conds: Conditions, rs: seq<Reading>): (res: Result<Conditions>)
    ensures res.Success? ==> res.value.Keys == conds.Keys
    decreases |rs|
  {
    if |rs| == 0 then Success(conds)
    else
      var next :- Route(conds, rs[0]);
      Collect(next, rs[1..])
  }

  /** The reduction of an optional list: absent stays absent. */
  function ReduceOptional(o: Option<seq<Label>>): Result<Option<seq<Label>>> {
    if o.None? then Success(None)
    else
      var m :- Statistics.Mode(o.value);
      Success(Some([m]))
  }

  /** The body of the reducing loop for one bucket, in the source's order:
      daylight, temperature, overall condition, then the reason lists. */
  function ReduceBucket(b: Bucket): Result<Bucket> {
    var daylight :- Statistics.Mode(b.daylight);
    var temperature :- Statistics.Mean(b.roadTemperature);
    var overall :- Statistics.Mode(b.overallRoadCondition);
    var precipitation :- ReduceOptional(b.precipitationCondition);
    var road :- ReduceOptional(b.roadCondition);
    Success(Bucket([daylight], [temperature], [overall], precipitation, road))
  }

  /** The reducing loop over the buckets named by `names`, in order. */
  function ReduceAll(conds: Conditions, names: seq<string>): (res: Result<Conditions>)
    requires forall n :: n in names ==> n in conds
    ensures res.Success? ==> res.value.Keys == conds.Keys
  {
    if |names| == 0 then Success(conds)
    else
      var b :- ReduceBucket(conds[names[0]]);
      ReduceAll(conds[names[0] := b], names[1..])
  }

  /** `format_road_condition(city, condition_data)`. */
  function FormatRoadCondition(city: string, data: ConditionData): (res: Result<map<string, Conditions>>)
    ensures res.Success? ==> res.value.Keys == {city} && res.value[city].Keys == HorizonSet
  {
    var collected :- Collect(InitialConditions, Readings(data.weatherData));
    var reduced :- ReduceAll(collected, Horizons);
    Success(map[city := reduced])
  }

  // ---------------------------------------------------------------------
  // Reference definitions: the readings of a horizon and their fields.

  /** A reading the collecting loop accepts: its name is one of the five
      horizons, and a forecast reading carries its reason object. */
  ghost predicate WellRouted(r: Reading) {
    r.forecastName in HorizonSet && (r.forecastName != Now ==> r.forecastConditionReason.Reason?)
  }

  /** The exception the collecting loop raises on a badly routed reading: a
      KeyError for its unknown name or for the reason object it lacks, or a
      TypeError for a reason that is `null`. */
  function RoutingError(r: Reading): Exception {
    if r.forecastName !in HorizonSet then KeyError(r.forecastName)
    else if r.forecastConditionReason.NoReason? then KeyError("forecastConditionReason")
    else TypeError
  }

  /** The readings whose `forecastName` is `name`, in input order. */
  function ForHorizon(rs: seq<Reading>, name: string): seq<Reading> {
    if |rs| == 0 then []
    else (if rs[0].forecastName == name then [rs[0]] else []) + ForHorizon(rs[1..], name)
  }

  function Daylights(rs: seq<Reading>): (ls: seq<Label>)
    ensures |ls| == |rs|
  {
    if |rs| == 0 then [] else [rs[0].daylight] + Daylights(rs[1..])
  }

  function Temperatures(rs: seq<Reading>): (ts: seq<real>)
    ensures |ts| == |rs|
  {
    if |rs| == 0 then [] else [rs[0].roadTemperature] + Temperatures(rs[1..])
  }

  function OverallConditions(rs: seq<Reading>): (ls: seq<Label>)
    ensures |ls| == |rs|
  {
    if |rs| == 0 then [] else [rs[0].overallRoadCondition] + OverallConditions(rs[1..])
  }

  /** The reading's precipitation condition, if it carries a reason. */
  function PrecipitationOf(r: Reading): seq<Label> {
    if r.forecastConditionReason.Reason? then [r.forecastConditionReason.value.precipitationCondition] else []
  }

  /** The reading's road condition, if it carries a reason. */
  function RoadConditionOf(r: Reading): seq<Label> {
    if r.forecastConditionReason.Reason? then [r.forecastConditionReason.value.roadCondition] else []
  }

  /** The precipitation conditions of the readings that carry a reason. */
  function Precipitations(rs: seq<Reading>): seq<Label> {
    if |rs| == 0 then [] else PrecipitationOf(rs[0]) + Precipitations(rs[1..])
  }

  /** The road conditions of the readings that carry a reason. */
  function RoadConditions(rs: seq<Reading>): seq<Label> {
    if |rs| == 0 then [] else RoadConditionOf(rs[0]) + RoadConditions(rs[1..])
  }

  /** An optional list with `xs` appended when it is present. */
  function ExtendList(o: Option<seq<Label>>, xs: seq<Label>): Option<seq<Label>> {
    if o.Some? then Some(o.value + xs) else None
  }

  /** `b` with the values of `group` appended to each list it has. */
  ghost function Extend(b: Bucket, group: seq<Reading>): Bucket {
    Bucket(b.daylight + Daylights(group),
           b.roadTemperature + Temperatures(group),
           b.overallRoadCondition + OverallConditions(group),
           ExtendList(b.precipitationCondition, Precipitations(group)),
           ExtendList(b.roadCondition, RoadConditions(group)))
  }

  /** The shape of `conditions`: the five horizon keys, and reason lists in
      exactly the forecast buckets. */
  ghost predicate Shaped(conds: Conditions) {
    && conds.Keys == HorizonSet
    && (forall k :: k in conds ==> (conds[k].precipitationCondition.None? <==> k == Now))
    && (forall k :: k in conds ==> (conds[k].roadCondition.None? <==> k == Now))
  }

  /** `after` is `before` with the values of the readings `rs` appended to
      the bucket each of them names, and to no other. */
  ghost predicate Appended(before: Conditions, after: Conditions, rs: seq<Reading>) {
    && after.Keys == before.Keys
    && forall k :: k in before ==> after[k] == Extend(before[k], ForHorizon(rs, k))
  }

  lemma Associative<T>(a: seq<T>, b: seq<T>, c: seq<T>)
    ensures a + (b + c) == (a + b) + c
  {
  }

  /** The field projections distribute over concatenation. */
  lemma {:induction false} DaylightsDistribute(xs: seq<Reading>, ys: seq<Reading>)
    ensures Daylights(xs + ys) == Daylights(xs) + Daylights(ys)
  {
    if |xs| == 0 {
      assert xs + ys == ys;
    } else {
      DaylightsDistribute(xs[1..], ys);
      assert (xs + ys)[1..] == xs[1..] + ys;
      assert (xs + ys)[0] == xs[0];
      var h := [xs[0].daylight];
      assert Daylights(xs + ys) == h + Daylights(xs[1..] + ys);
      Associative(h, Daylights(xs[1..]), Daylights(ys));
    }
  }

  lemma {:induction false} TemperaturesDistribute(xs: seq<Reading>, ys: seq<Reading>)
    ensures Temperatures(xs + ys) == Temperatures(xs) + Temperatures(ys)
  {
    if |xs| == 0 {
      assert xs + ys == ys;
    } else {
      TemperaturesDistribute(xs[1..], ys);
      assert (xs + ys)[1..] == xs[1..] + ys;
      assert (xs + ys)[0] == xs[0];
      var h := [xs[0].roadTemperature];
      assert Temperatures(xs + ys) == h + Temperatures(xs[1..] + ys);
      Associative(h, Temperatures(xs[1..]), Temperatures(ys));
    }
  }

  lemma {:induction false} OverallConditionsDistribute(xs: seq<Reading>, ys: seq<Reading>)
    ensures OverallConditions(xs + ys) == OverallConditions(xs) + OverallConditions(ys)
  {
    if |xs| == 0 {
      assert xs + ys == ys;
    } else {
      OverallConditionsDistribute(xs[1..], ys);
      assert (xs + ys)[1..] == xs[1..] + ys;
      assert (xs + ys)[0] == xs[0];
      var h := [xs[0].overallRoadCondition];
      assert OverallConditions(xs + ys) == h + OverallConditions(xs[1..] + ys);
      Associative(h, OverallConditions(xs[1..]), OverallConditions(ys));
    }
  }

  lemma {:induction false} PrecipitationsDistribute(xs: seq<Reading>, ys: seq<Reading>)
    ensures Precipitations(xs + ys) == Precipitations(xs) + Precipitations(ys)
  {
    if |xs| == 0 {
      assert xs + ys == ys;
    } else {
      PrecipitationsDistribute(xs[1..], ys);
      assert (xs + ys)[1..] == xs[1..] + ys;
      assert (xs + ys)[0] == xs[0];
      var h := PrecipitationOf(xs[0]);
      assert Precipitations(xs + ys) == h + Precipitations(xs[1..] + ys);
      Associative(h, Precipitations(xs[1..]), Precipitations(ys));
    }
  }

  lemma {:induction false} RoadConditionsDistribute(xs: seq<Reading>, ys: seq<Reading>)
    ensures RoadConditions(xs + ys) == RoadConditions(xs) + RoadConditions(ys)
  {
    if |xs| == 0 {
      assert xs + ys == ys;
    } else {
      RoadConditionsDistribute(xs[1..], ys);
      assert (xs + ys)[1..] == xs[1..] + ys;
      assert (xs + ys)[0] == xs[0];
      var h := RoadConditionOf(xs[0]);
      assert RoadConditions(xs + ys) == h + RoadConditions(xs[1..] + ys);
      Associative(h, RoadConditions(xs[1..]), RoadConditions(ys));
    }
  }

  lemma ExtendListTwice(o: Option<seq<Label>>, xs: seq<Label>, ys: seq<Label>)
    ensures ExtendList(ExtendList(o, xs), ys) == ExtendList(o, xs + ys)
  {
    if o.Some? {
      assert o.value + xs + ys == o.value + (xs + ys);
    }
  }

  /** Extending by two groups in turn is extending by their concatenation,
      field by field. */
  lemma ExtendTwiceDaylight(b: Bucket, g1: seq<Reading>, g2: seq<Reading>)
    ensures Extend(Extend(b, g1), g2).daylight == Extend(b, g1 + g2).daylight
  {
    DaylightsDistribute(g1, g2);
  }

  lemma ExtendTwiceTemperature(b: Bucket, g1: seq<Reading>, g2: seq<Reading>)
    ensures Extend(Extend(b, g1), g2).roadTemperature == Extend(b, g1 + g2).roadTemperature
  {
    TemperaturesDistribute(g1, g2);
  }

  lemma ExtendTwiceOverall(b: Bucket, g1: seq<Reading>, g2: seq<Reading>)
    ensures Extend(Extend(b, g1), g2).overallRoadCondition == Extend(b, g1 + g2).overallRoadCondition
  {
    OverallConditionsDistribute(g1, g2);
  }

  lemma ExtendTwiceReasons(b: Bucket, g1: seq<Reading>, g2: seq<Reading>)
    ensures Extend(Extend(b, g1), g2).precipitationCondition == Extend(b, g1 + g2).precipitationCondition
    ensures Extend(Extend(b, g1), g2).roadCondition == Extend(b, g1 + g2).roadCondition
  {
    PrecipitationsDistribute(g1, g2);
    ExtendListTwice(b.precipitationCondition, Precipitations(g1), Precipitations(g2));
    RoadConditionsDistribute(g1, g2);
    ExtendListTwice(b.roadCondition, RoadConditions(g1), RoadConditions(g2));
  }

  /** Extending by two groups in turn is extending by their concatenation. */
  lemma ExtendTwice(b: Bucket, g1: seq<Reading>, g2: seq<Reading>)
    ensures Extend(Extend(b, g1), g2) == Extend(b, g1 + g2)
  {
    ExtendTwiceDaylight(b, g1, g2);
    ExtendTwiceTemperature(b, g1, g2);
    ExtendTwiceOverall(b, g1, g2);
    ExtendTwiceReasons(b, g1, g2);
  }

  /** Extending an optional list by nothing changes nothing. */
  lemma ExtendListEmpty(o: Option<seq<Label>>)
    ensures ExtendList(o, []) == o
  {
    if o.Some? {
      assert o.value + [] == o.value;
    }
  }

  /** Extending by no readings changes nothing. */
  lemma ExtendEmpty(b: Bucket)
    ensures Extend(b, []) == b
  {
    assert b.daylight + [] == b.daylight;
    assert b.roadTemperature + [] == b.roadTemperature;
    assert b.overallRoadCondition + [] == b.overallRoadCondition;
    assert Precipitations([]) == [] && RoadConditions([]) == [];
    ExtendListEmpty(b.precipitationCondition);
    ExtendListEmpty(b.roadCondition);
  }

  /** The readings of a horizon among `[r] + rest`. */
  lemma ForHorizonCons(rs: seq<Reading>, k: string)
    requires |rs| > 0
    ensures ForHorizon(rs, k) == ForHorizon([rs[0]], k) + ForHorizon(rs[1..], k)
    ensures ForHorizon([rs[0]], k) == if rs[0].forecastName == k then [rs[0]] else []
  {
    assert [rs[0]][1..] == [];
  }

  /** A well-routed step appends the reading to the bucket its name names. */
  lemma RouteValue(conds: Conditions, r: Reading)
    requires Shaped(conds) && WellRouted(r)
    ensures Route(conds, r) == Success(conds[r.forecastName := Extend(conds[r.forecastName], [r])])
  {
    var b := conds[r.forecastName];
    assert [r][1..] == [];
    assert Daylights([r]) == [r.daylight];
    assert Temperatures([r]) == [r.roadTemperature];
    assert OverallConditions([r]) == [r.overallRoadCondition];
    if r.forecastName != Now {
      var c := r.forecastConditionReason.value;
      assert Precipitations([r]) == [c.precipitationCondition];
      assert RoadConditions([r]) == [c.roadCondition];
    }
  }

  /** One routing step fails exactly on a badly routed reading, with a
      KeyError for the unknown name or for the missing reason object, or a
      TypeError for a `null` reason. */
  lemma RouteFails(conds: Conditions, r: Reading)
    requires Shaped(conds)
    ensures Route(conds, r).Success? <==> WellRouted(r)
    ensures !WellRouted(r) ==> Route(conds, r).error == RoutingError(r)
  {
  }

  /** A successful routing step keeps the shape of the dictionary. */
  lemma RouteShaped(conds: Conditions, r: Reading)
    requires Shaped(conds) && WellRouted(r)
    ensures Shaped(Route(conds, r).value)
  {
    RouteValue(conds, r);
  }

  /** A successful routing step appends the reading to its own bucket only. */
  lemma RouteSpec(conds: Conditions, r: Reading)
    requires Shaped(conds) && WellRouted(r)
    ensures Appended(conds, Route(conds, r).value, [r])
  {
    RouteValue(conds, r);
    var after := Route(conds, r).value;
    forall k | k in conds
      ensures after[k] == Extend(conds[k], ForHorizon([r], k))
    {
      ForHorizonCons([r], k);
      if k != r.forecastName {
        ExtendEmpty(conds[k]);
      }
    }
  }

  /** One iteration of the collecting loop. */
  lemma CollectStep(conds: Conditions, rs: seq<Reading>)
    requires |rs| > 0
    ensures Route(conds, rs[0]).Failure? ==> Collect(conds, rs) == Failure(Route(conds, rs[0]).error)
    ensures Route(conds, rs[0]).Success? ==> Collect(conds, rs) == Collect(Route(conds, rs[0]).value, rs[1..])
  {
  }

  /** Appending no readings changes nothing. */
  lemma AppendedNothing(conds: Conditions)
    ensures Appended(conds, conds, [])
  {
    forall k | k in conds
      ensures conds[k] == Extend(conds[k], ForHorizon([], k))
    {
      ExtendEmpty(conds[k]);
    }
  }

  /** Appending the first reading and then the rest is appending them all. */
  lemma AppendedCons(before: Conditions, mid: Conditions, after: Conditions, rs: seq<Reading>)
    requires |rs| > 0
    requires Appended(before, mid, [rs[0]]) && Appended(mid, after, rs[1..])
    ensures Appended(before, after, rs)
  {
    forall k | k in before
      ensures after[k] == Extend(before[k], ForHorizon(rs, k))
    {
      ForHorizonCons(rs, k);
      ExtendTwice(before[k], ForHorizon([rs[0]], k), ForHorizon(rs[1..], k));
    }
  }

  /** A well-routed first reading is routed and the loop goes on with the
      rest. */
  lemma CollectSkip(conds: Conditions, rs: seq<Reading>)
    requires Shaped(conds) && |rs| > 0 && WellRouted(rs[0])
    ensures Route(conds, rs[0]).Success? && Shaped(Route(conds, rs[0]).value)
    ensures Collect(conds, rs) == Collect(Route(conds, rs[0]).value, rs[1..])
  {
    RouteFails(conds, rs[0]);
    RouteShaped(conds, rs[0]);
    CollectStep(conds, rs);
  }

  /** A badly routed first reading stops the loop with its error. */
  lemma CollectHeadError(conds: Conditions, rs: seq<Reading>)
    requires Shaped(conds) && |rs| > 0 && !WellRouted(rs[0])
    ensures Collect(conds, rs) == Failure(RoutingError(rs[0]))
  {
    RouteFails(conds, rs[0]);
    CollectStep(conds, rs);
  }

  /** The well-routed prefix of `rs`, shifted by one, is a well-routed
      prefix of `rs[1..]`. */
  lemma RoutedPrefixTail(rs: seq<Reading>, i: nat)
    requires 0 < i <= |rs|
    requires forall j :: 0 <= j < i ==> WellRouted(rs[j])
    ensures forall j :: 0 <= j < i - 1 ==> WellRouted(rs[1..][j])
  {
    assert forall j :: 0 <= j < i - 1 ==> rs[1..][j] == rs[j + 1];
  }

  /** The collecting loop succeeds exactly when every reading is well
      routed, and keeps the shape of the dictionary. */
  lemma {:induction false} CollectSucceeds(conds: Conditions, rs: seq<Reading>)
    requires Shaped(conds)
    ensures Collect(conds, rs).Success? <==> forall i :: 0 <= i < |rs| ==> WellRouted(rs[i])
    ensures Collect(conds, rs).Success? ==> Shaped(Collect(conds, rs).value)
    decreases |rs|
  {
    if |rs| > 0 {
      if WellRouted(rs[0]) {
        CollectSkip(conds, rs);
        CollectSucceeds(Route(conds, rs[0]).value, rs[1..]);
        assert forall i :: 0 < i < |rs| ==> rs[1..][i - 1] == rs[i];
      } else {
        CollectHeadError(conds, rs);
      }
    }
  }

  /** Over well-routed readings the collecting loop appends each reading's
      values to its own bucket, in input order. */
  lemma {:induction false} CollectAppends(conds: Conditions, rs: seq<Reading>)
    requires Shaped(conds)
    requires forall i :: 0 <= i < |rs| ==> WellRouted(rs[i])
    ensures Collect(conds, rs).Success? && Appended(conds, Collect(conds, rs).value, rs)
    decreases |rs|
  {
    if |rs| == 0 {
      AppendedNothing(conds);
    } else {
      CollectSkip(conds, rs);
      RouteSpec(conds, rs[0]);
      var next := Route(conds, rs[0]).value;
      RoutedPrefixTail(rs, |rs|);
      CollectAppends(next, rs[1..]);
      AppendedCons(conds, next, Collect(conds, rs).value, rs);
    }
  }

  /** The first badly routed reading decides the exception: a KeyError for
      its unknown `forecastName` or for the reason object it lacks, or a
      TypeError for a `null` reason. */
  lemma {:induction false} CollectFirstError(conds: Conditions, rs: seq<Reading>, i: nat)
    requires Shaped(conds)
    requires i < |rs| && !WellRouted(rs[i])
    requires forall j :: 0 <= j < i ==> WellRouted(rs[j])
    ensures Collect(conds, rs) == Failure(RoutingError(rs[i]))
    decreases i
  {
    if i == 0 {
      CollectHeadError(conds, rs);
    } else {
      CollectSkip(conds, rs);
      RoutedPrefixTail(rs, i);
      assert rs[1..][i - 1] == rs[i];
      CollectFirstError(Route(conds, rs[0]).value, rs[1..], i - 1);
    }
  }

  /** Every list of the bucket is non-empty: the bucket can be reduced. */
  ghost predicate Filled(b: Bucket) {
    && |b.daylight| > 0
    && |b.roadTemperature| > 0
    && |b.overallRoadCondition| > 0
    && (b.precipitationCondition.Some? ==> |b.precipitationCondition.value| > 0)
    && (b.roadCondition.Some? ==> |b.roadCondition.value| > 0)
  }

  /** `reduced` holds one value per list of `b`: the earliest most frequent
      value of each categorical list and the mean of the temperatures; the
      reason lists are present exactly when they were present in `b`. */
  ghost predicate Summarises(reduced: Bucket, b: Bucket) {
    && |reduced.daylight| == 1 && Statistics.IsMode(b.daylight, reduced.daylight[0])
    && |reduced.roadTemperature| == 1
    && |b.roadTemperature| > 0 && reduced.roadTemperature[0] == Statistics.Sum(b.roadTemperature) / (|b.roadTemperature| as real)
    && |reduced.overallRoadCondition| == 1 && Statistics.IsMode(b.overallRoadCondition, reduced.overallRoadCondition[0])
    && (reduced.precipitationCondition.Some? <==> b.precipitationCondition.Some?)
    && (b.precipitationCondition.Some? ==>
          |reduced.precipitationCondition.value| == 1
          && Statistics.IsMode(b.precipitationCondition.value, reduced.precipitationCondition.value[0]))
    && (reduced.roadCondition.Some? <==> b.roadCondition.Some?)
    && (b.roadCondition.Some? ==>
          |reduced.roadCondition.value| == 1
          && Statistics.IsMode(b.roadCondition.value, reduced.roadCondition.value[0]))
  }

  /** A bucket reduces exactly when every list is non-empty; an empty
      daylight list makes `max` raise ValueError before anything else. */
  lemma ReduceBucketFails(b: Bucket)
    ensures ReduceBucket(b).Success? <==> Filled(b)
    ensures |b.daylight| == 0 ==> ReduceBucket(b) == Failure(ValueError)
  {
  }

  /** The reduction of an optional list of a filled bucket summarises it. */
  lemma ReduceOptionalSummarises(o: Option<seq<Label>>)
    requires o.Some? ==> |o.value| > 0
    ensures ReduceOptional(o).Success?
    ensures ReduceOptional(o).value.Some? <==> o.Some?
    ensures o.Some? ==>
      |ReduceOptional(o).value.value| == 1 && Statistics.IsMode(o.value, ReduceOptional(o).value.value[0])
  {
    if o.Some? {
      Statistics.ModeIsMode(o.value);
    }
  }

  /** A filled bucket reduces to its summary. */
  lemma ReduceBucketSummarises(b: Bucket)
    requires Filled(b)
    ensures ReduceBucket(b).Success? && Summarises(ReduceBucket(b).value, b)
  {
    var daylight := Statistics.Mode(b.daylight).value;
    var temperature := Statistics.Mean(b.roadTemperature).value;
    var overall := Statistics.Mode(b.overallRoadCondition).value;
    ReduceOptionalSummarises(b.precipitationCondition);
    ReduceOptionalSummarises(b.roadCondition);
    var precipitation := ReduceOptional(b.precipitationCondition).value;
    var road := ReduceOptional(b.roadCondition).value;
    var r := Bucket([daylight], [temperature], [overall], precipitation, road);
    assert ReduceBucket(b) == Success(r);
    assert Statistics.IsMode(b.daylight, r.daylight[0]) by {
      Statistics.ModeIsMode(b.daylight);
    }
    assert Statistics.IsMode(b.overallRoadCondition, r.overallRoadCondition[0]) by {
      Statistics.ModeIsMode(b.overallRoadCondition);
    }
  }

  /** All lists of a bucket are empty together, as in every collected bucket. */
  ghost predicate Uniform(b: Bucket) {
    !Filled(b) ==> |b.daylight| == 0
  }

  /** The reducing loop succeeds exactly when every named bucket is
      filled; over uniform buckets it fails only with ValueError. */
  lemma {:induction false} ReduceAllSucceeds(conds: Conditions, names: seq<string>)
    requires forall n :: n in names ==> n in conds
    requires forall i, j :: 0 <= i < j < |names| ==> names[i] != names[j]
    ensures ReduceAll(conds, names).Success? <==> forall n :: n in names ==> Filled(conds[n])
    ensures (forall n :: n in names ==> Uniform(conds[n])) ==>
      (ReduceAll(conds, names).Failure? ==> ReduceAll(conds, names).error == ValueError)
  {
    if |names| > 0 {
      var n := names[0];
      ReduceBucketFails(conds[n]);
      if Filled(conds[n]) {
        var next := conds[n := ReduceBucket(conds[n]).value];
        DistinctTail(names);
        assert forall m :: m in names[1..] ==> m in names && next[m] == conds[m];
        ReduceAllSucceeds(next, names[1..]);
      }
    }
  }

  /** The names after the first of a list of distinct names are distinct
      and do not include the first. */
  lemma DistinctTail(names: seq<string>)
    requires |names| > 0
    requires forall i, j :: 0 <= i < j < |names| ==> names[i] != names[j]
    ensures forall i, j :: 0 <= i < j < |names[1..]| ==> names[1..][i] != names[1..][j]
    ensures names[0] !in names[1..]
    ensures forall m :: m in names <==> m == names[0] || m in names[1..]
  {
    assert forall i :: 0 <= i < |names[1..]| ==> names[1..][i] == names[i + 1];
    assert names == [names[0]] + names[1..];
  }

  /** A successful reducing loop over distinct names replaces each named
      bucket by its summary and leaves the others alone. */
  lemma {:induction false} ReduceAllSpec(conds: Conditions, names: seq<string>)
    requires forall n :: n in names ==> n in conds
    requires forall i, j :: 0 <= i < j < |names| ==> names[i] != names[j]
    requires ReduceAll(conds, names).Success?
    ensures forall n :: n in names ==> Summarises(ReduceAll(conds, names).value[n], conds[n])
    ensures forall k :: k in conds && k !in names ==> ReduceAll(conds, names).value[k] == conds[k]
  {
    if |names| > 0 {
      var n := names[0];
      ReduceBucketFails(conds[n]);
      ReduceBucketSummarises(conds[n]);
      var next := conds[n := ReduceBucket(conds[n]).value];
      DistinctTail(names);
      assert forall m :: m in names[1..] ==> m in names && next[m] == conds[m];
      ReduceAllSpec(next, names[1..]);
    }
  }

  /** The lists a horizon's bucket holds once `group` has been collected
      into it from empty: the fields of the group's readings, and the two
      reason lists exactly for a forecast horizon. */
  ghost function Gathered(k: string, group: seq<Reading>): Bucket {
    Bucket(Daylights(group), Temperatures(group), OverallConditions(group),
           if k != Now then Some(Precipitations(group)) else None,
           if k != Now then Some(RoadConditions(group)) else None)
  }

  /** What the function promises about one horizon's output bucket: it
      summarises the lists gathered from that horizon's readings. */
  ghost predicate Describes(out: Bucket, k: string, group: seq<Reading>) {
    Summarises(out, Gathered(k, group))
  }

  /** One value per list, and reason lists exactly outside "0h". */
  predicate ShapedSummary(b: Bucket, k: string) {
    && |b.daylight| == 1 && |b.roadTemperature| == 1 && |b.overallRoadCondition| == 1
    && (b.precipitationCondition.Some? <==> k != Now)
    && (b.roadCondition.Some? <==> k != Now)
    && (b.precipitationCondition.Some? ==> |b.precipitationCondition.value| == 1)
    && (b.roadCondition.Some? ==> |b.roadCondition.value| == 1)
  }

  /** Every reading of a forecast horizon carries a reason once all
      readings are well routed, so the reason lists are as long as the group. */
  lemma {:induction false} ReasonListsFull(rs: seq<Reading>, k: string)
    requires k != Now
    requires forall i :: 0 <= i < |rs| ==> WellRouted(rs[i])
    ensures |Precipitations(ForHorizon(rs, k))| == |ForHorizon(rs, k)|
    ensures |RoadConditions(ForHorizon(rs, k))| == |ForHorizon(rs, k)|
  {
    if |rs| > 0 {
      assert forall i :: 0 <= i < |rs[1..]| ==> rs[1..][i] == rs[i + 1];
      ReasonListsFull(rs[1..], k);
      ForHorizonCons(rs, k);
      var head := ForHorizon([rs[0]], k);
      PrecipitationsDistribute(head, ForHorizon(rs[1..], k));
      RoadConditionsDistribute(head, ForHorizon(rs[1..], k));
      assert [rs[0]][1..] == [];
    }
  }

  lemma HorizonsDistinct()
    ensures forall i, j :: 0 <= i < j < |Horizons| ==> Horizons[i] != Horizons[j]
    ensures forall n :: n in Horizons <==> n in HorizonSet
  {
  }

  lemma InitialShaped()
    ensures Shaped(InitialConditions)
    ensures forall k :: k in InitialConditions ==> InitialConditions[k] == EmptyBucket(k != Now)
  {
  }

  /** The bucket collected for horizon `k` from the initial dictionary. */
  lemma ExtendEmptyBucket(k: string, g: seq<Reading>)
    ensures Extend(EmptyBucket(k != Now), g) == Gathered(k, g)
  {
    var e := Extend(EmptyBucket(k != Now), g);
    assert e.daylight == Daylights(g) by {
      assert [] + Daylights(g) == Daylights(g);
    }
    assert e.roadTemperature == Temperatures(g) by {
      assert [] + Temperatures(g) == Temperatures(g);
    }
    assert e.overallRoadCondition == OverallConditions(g) by {
      assert [] + OverallConditions(g) == OverallConditions(g);
    }
    assert e.precipitationCondition == Gathered(k, g).precipitationCondition by {
      assert [] + Precipitations(g) == Precipitations(g);
    }
    assert e.roadCondition == Gathered(k, g).roadCondition by {
      assert [] + RoadConditions(g) == RoadConditions(g);
    }
  }

  /** After collecting well-routed readings from the initial dictionary,
      each horizon's bucket holds exactly the lists of that horizon's
      readings; it is filled exactly when the horizon has a reading. */
  lemma CollectedBucket(rs: seq<Reading>, c: Conditions, k: string)
    requires forall i :: 0 <= i < |rs| ==> WellRouted(rs[i])
    requires Appended(InitialConditions, c, rs)
    requires k in HorizonSet
    ensures Uniform(c[k])
    ensures Filled(c[k]) <==> |ForHorizon(rs, k)| > 0
    ensures c[k] == Gathered(k, ForHorizon(rs, k))
  {
    InitialShaped();
    var g := ForHorizon(rs, k);
    ExtendEmptyBucket(k, g);
    if k != Now {
      ReasonListsFull(rs, k);
    }
  }

  /** Collecting well-routed readings from the initial dictionary gathers
      each horizon's readings into its bucket. */
  lemma CollectedBuckets(rs: seq<Reading>)
    requires forall i :: 0 <= i < |rs| ==> WellRouted(rs[i])
    ensures Collect(InitialConditions, rs).Success?
    ensures var c := Collect(InitialConditions, rs).value;
      && c.Keys == HorizonSet
      && forall k :: k in HorizonSet ==>
        && c[k] == Gathered(k, ForHorizon(rs, k))
        && Uniform(c[k])
        && (Filled(c[k]) <==> |ForHorizon(rs, k)| > 0)
  {
    InitialShaped();
    CollectAppends(InitialConditions, rs);
    var c := Collect(InitialConditions, rs).value;
    forall k | k in HorizonSet
      ensures c[k] == Gathered(k, ForHorizon(rs, k))
      ensures Uniform(c[k])
      ensures Filled(c[k]) <==> |ForHorizon(rs, k)| > 0
    {
      CollectedBucket(rs, c, k);
    }
  }

  /** The whole function succeeds exactly when every reading names one of
      the five horizons (forecast readings with their reason object) and
      every horizon has at least one reading. */
  lemma FormatRoadConditionSucceeds(city: string, data: ConditionData)
    ensures var rs := Readings(data.weatherData);
      FormatRoadCondition(city, data).Success? <==>
        (forall i :: 0 <= i < |rs| ==> WellRouted(rs[i])) && (forall k :: k in HorizonSet ==> |ForHorizon(rs, k)| > 0)
  {
    var rs := Readings(data.weatherData);
    InitialShaped();
    CollectSucceeds(InitialConditions, rs);
    if forall i :: 0 <= i < |rs| ==> WellRouted(rs[i]) {
      CollectedBuckets(rs);
      HorizonsDistinct();
      ReduceAllSucceeds(Collect(InitialConditions, rs).value, Horizons);
    }
  }

  /** On success the function maps `city` to the five horizon keys, and
      each horizon's bucket summarises exactly the readings whose
      `forecastName` names it. */
  lemma FormatRoadConditionSpec(city: string, data: ConditionData)
    requires FormatRoadCondition(city, data).Success?
    ensures var m := FormatRoadCondition(city, data).value;
      && m.Keys == {city} && m[city].Keys == HorizonSet
      && forall k :: k in HorizonSet ==> Describes(m[city][k], k, ForHorizon(Readings(data.weatherData), k))
  {
    var rs := Readings(data.weatherData);
    FormatRoadConditionSucceeds(city, data);
    CollectedBuckets(rs);
    HorizonsDistinct();
    ReduceAllSucceeds(Collect(InitialConditions, rs).value, Horizons);
    ReduceAllSpec(Collect(InitialConditions, rs).value, Horizons);
  }

  /** The shape of a result: every list of every bucket holds exactly one
      value, and the two reason lists are present in all buckets but "0h". */
  lemma FormatRoadConditionShape(city: string, data: ConditionData)
    requires FormatRoadCondition(city, data).Success?
    ensures var m := FormatRoadCondition(city, data).value;
      forall k :: k in m[city] ==> ShapedSummary(m[city][k], k)
  {
    FormatRoadConditionSpec(city, data);
    var m := FormatRoadCondition(city, data).value;
    forall k | k in m[city]
      ensures ShapedSummary(m[city][k], k)
    {
      assert Describes(m[city][k], k, ForHorizon(Readings(data.weatherData), k));
    }
  }

  /** A reading whose `forecastName` is not one of the five horizons makes
      the function raise a KeyError for that name, provided every reading
      before it is well routed. */
  lemma UnknownHorizonFails(city: string, data: ConditionData, i: nat)
    requires var rs := Readings(data.weatherData);
      i < |rs| && rs[i].forecastName !in HorizonSet && forall j :: 0 <= j < i ==> WellRouted(rs[j])
    ensures FormatRoadCondition(city, data) == Failure(KeyError(Readings(data.weatherData)[i].forecastName))
  {
    InitialShaped();
    CollectFirstError(InitialConditions, Readings(data.weatherData), i);
  }

  /** A forecast reading whose `forecastConditionReason` is `null` makes the
      function raise TypeError, provided every reading before it is well
      routed. */
  lemma NullReasonFails(city: string, data: ConditionData, i: nat)
    requires var rs := Readings(data.weatherData);
      && i < |rs| && rs[i].forecastName in HorizonSet && rs[i].forecastName != Now
      && rs[i].forecastConditionReason.NullReason?
      && forall j :: 0 <= j < i ==> WellRouted(rs[j])
    ensures FormatRoadCondition(city, data) == Failure(TypeError)
  {
    InitialShaped();
    CollectFirstError(InitialConditions, Readings(data.weatherData), i);
  }

  /** A horizon without readings makes the function raise ValueError (from
      `max` of an empty counter) when every reading is well routed. */
  lemma EmptyHorizonFails(city: string, data: ConditionData, k: string)
    requires var rs := Readings(data.weatherData);
      (forall i :: 0 <= i < |rs| ==> WellRouted(rs[i])) && k in HorizonSet && |ForHorizon(rs, k)| == 0
    ensures FormatRoadCondition(city, data) == Failure(ValueError)
  {
    var rs := Readings(data.weatherData);
    CollectedBuckets(rs);
    HorizonsDistinct();
    ReduceAllSucceeds(Collect(InitialConditions, rs).value, Horizons);
  }
}

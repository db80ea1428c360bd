/** `format_maintenance_data`: the features of a maintenance-tracking
    response are flattened into three parallel lists, one entry per feature
    and in feature order. */
module Maintenance {

  /** The `properties` object of one maintenance feature. */
  datatype Properties = Properties(tasks: seq<string>, startTime: string, endTime: string)

  /** One element of the response's `features` list. */
  datatype Feature = Feature(properties: Properties)

  /** The parsed response of the maintenance-tracking endpoint. */
  datatype Collection = Collection(features: seq<Feature>)

  /** The `{"tasks": …, "startTime": …, "endTime": …}` dictionary. */
  datatype Tracking = Tracking(tasks: seq<seq<string>>, startTime: seq<string>, endTime: seq<string>)

  /** The three lists hold, at every position, the fields of the feature at
      that position. */
  ghost predicate Lists(t: Tracking, features: seq<Feature>) {
    && |t.tasks| == |features| && |t.startTime| == |features| && |t.endTime| == |features|
    && forall i :: 0 <= i < |features| ==>
      && t.tasks[i] == features[i].properties.tasks
      && t.startTime[i] == features[i].properties.startTime
      && t.endTime[i] == features[i].properties.endTime
  }

  /** `format_maintenance_data(city, maintenance_data)`: one loop over the
      features appends each feature's tasks, start time and end time. */
  method FormatMaintenanceData(city: string, data: Collection) returns (r: map<string, Tracking>)
    ensures r.Keys == {city}
    ensures Lists(r[city], data.features)
  {
    var t := Tracking([], [], []);
    var i := 0;
    while i < |data.features|
      invariant 0 <= i <= |data.features|
      invariant Lists(t, data.features[..i])
    {
      var p := data.features[i].properties;
      t := Tracking(t.tasks + [p.tasks], t.startTime + [p.startTime], t.endTime + [p.endTime]);
      i := i + 1;
    }
    assert data.features[..i] == data.features;
    r := map[city := t];
  }

  /** The lists of a collection are determined by its features: two
      trackings that both list the same features are equal. */
  lemma ListsUnique(t: Tracking, u: Tracking, features: seq<Feature>)
    requires Lists(t, features) && Lists(u, features)
    ensures t == u
  {
    assert t.tasks == u.tasks;
    assert t.startTime == u.startTime;
    assert t.endTime == u.endTime;
  }

  /** The lists of two collections in turn are the concatenated lists: the
      output order follows the feature order. */
  lemma ListsConcat(t: Tracking, u: Tracking, xs: seq<Feature>, ys: seq<Feature>)
    requires Lists(t, xs) && Lists(u, ys)
    ensures Lists(Tracking(t.tasks + u.tasks, t.startTime + u.startTime, t.endTime + u.endTime), xs + ys)
  {
    var v := Tracking(t.tasks + u.tasks, t.startTime + u.startTime, t.endTime + u.endTime);
    forall i | 0 <= i < |xs + ys|
      ensures v.tasks[i] == (xs + ys)[i].properties.tasks
      ensures v.startTime[i] == (xs + ys)[i].properties.startTime
      ensures v.endTime[i] == (xs + ys)[i].properties.endTime
    {
      if i >= |xs| {
        assert (xs + ys)[i] == ys[i - |xs|];
      }
    }
  }
}

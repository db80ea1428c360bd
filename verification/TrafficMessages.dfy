/** `format_traffic_messages`: three parallel lists (situation type,
    announcement name, announcement comment) holding a feature's message
    once per coordinate list of its geometry that holds a pair passing the
    city's box test as written; that test lets some pairs outside the box
    pass (`NorthOfBoxPasses`).

    The input is a GeoJSON FeatureCollection; each position is
    `[longitude, latitude]` (section 3.1.1 of RFC 7946). The function walks
    `geometry.coordinates` two levels deep: entries that are not lists are
    skipped, and inside a list entry each element of length 2 is compared
    against the box until the first one that passes (the `break` leaves only
    that innermost loop). The box test is modelled exactly as the code
    writes it: the longitude is compared with both longitude bounds, the
    latitude with the lower latitude bound, and then the longitude again
    with the upper latitude bound. */
module TrafficMessages {
  import opened Results

  /** A JSON value inside `geometry.coordinates`: a number or a list. */
  datatype Json = JNum(n: real) | JList(items: seq<Json>)

  datatype Geometry = Geometry(coordinates: seq<Json>)

  /** One element of an announcement's `features` list. */
  datatype AnnouncementFeature = AnnouncementFeature(name: string)

  datatype Announcement = Announcement(features: seq<AnnouncementFeature>, comment: string)

  datatype Properties = Properties(situationType: string, announcements: seq<Announcement>)

  /** One traffic-message feature; its `geometry` may be `null`. */
  datatype Feature = Feature(geometry: Option<Geometry>, properties: Properties)

  /** The parsed response of the traffic-message endpoint. */
  datatype Collection = Collection(features: seq<Feature>)

  /** The three values appended for one matching coordinate list. */
  datatype Message = Message(situationType: string, name: string, comment: string)

  /** The `{"situationType": …, "name": …, "comment": …}` dictionary. */
  datatype Messages = Messages(situationType: seq<string>, name: seq<string>, comment: seq<string>)

  /** A bounding box in the order of the source's strings:
      minimum longitude, minimum latitude, maximum longitude, maximum latitude. */
  datatype Box = Box(minLon: real, minLat: real, maxLon: real, maxLat: real)

  const Cities: set<string> := {"TAMPERE", "HELSINKI", "OULU", "TURKU", "LAPPEENRANTA"}

  /** The `digitrafi_coordinates` table, parsed: a city outside the table
      raises KeyError. */
  function CityBox(city: string): (r: Result<Box>)
    ensures r.Success? <==> city in Cities
    ensures r.Failure? ==> r.error == KeyError(city)
  {
    if city == "TAMPERE" then Success(Box(23.652361, 61.435179, 23.865908, 61.520098))
    else if city == "HELSINKI" then Success(Box(24.785044, 60.134141, 25.172312, 60.286969))
    else if city == "OULU" then Success(Box(25.398253, 64.987359, 25.562361, 65.037538))
    else if city == "TURKU" then Success(Box(22.197470, 60.422136, 22.344069, 60.474289))
    else if city == "LAPPEENRANTA" then Success(Box(28.106238, 61.025745, 28.272406, 61.071282))
    else Failure(KeyError(city))
  }

  /** The condition of the innermost `if`, with Python's short-circuit
      evaluation: a list where a number is compared raises TypeError, but
      only if the comparison is reached. */
  function PairTest(box: Box, x: Json, y: Json): Result<bool> {
    if x.JList? then Failure(TypeError)
    else if !(box.minLon < x.n && x.n < box.maxLon) then Success(false)
    else if y.JList? then Failure(TypeError)
    else Success(y.n > box.minLat && x.n < box.maxLat)
  }

  /** One iteration of the innermost loop: `len` of a number raises
      TypeError, an element whose length is not 2 is skipped. */
  function PairOutcome(box: Box, p: Json): Result<bool> {
    if p.JNum? then Failure(TypeError)
    else if |p.items| != 2 then Success(false)
    else PairTest(box, p.items[0], p.items[1])
  }

  /** The innermost loop over one coordinate list: it stops at the first
      element that passes the test. */
  function ScanPairs(box: Box, ps: seq<Json>): Result<bool> {
    if |ps| == 0 then Success(false)
    else
      var hit :- PairOutcome(box, ps[0]);
      if hit then Success(true) else ScanPairs(box, ps[1..])
  }

  /** The three values appended on a match: the name and comment come from
      the first announcement and its first feature, raising IndexError when
      either list is empty. */
  function MessageOf(props: Properties): (r: Result<Message>)
    ensures r.Success? <==> |props.announcements| > 0 && |props.announcements[0].features| > 0
    ensures r.Failure? ==> r.error == IndexError
    ensures r.Success? ==>
      && r.value.situationType == props.situationType
      && r.value.name == props.announcements[0].features[0].name
      && r.value.comment == props.announcements[0].comment
  {
    if |props.announcements| == 0 then Failure(IndexError)
    else
      var a := props.announcements[0];
      if |a.features| == 0 then Failure(IndexError)
      else Success(Message(props.situationType, a.features[0].name, a.comment))
  }

  /** One iteration of the middle loop: a non-list entry is skipped; a
      list entry with a matching element contributes one message. */
  function EntryMessages(box: Box, props: Properties, e: Json): (r: Result<seq<Message>>)
    ensures r.Success? ==> |r.value| <= 1
  {
    if e.JNum? then Success([])
    else
      var hit :- ScanPairs(box, e.items);
      if !hit then Success([])
      else
        var m :- MessageOf(props);
        Success([m])
  }

  /** The middle loop over the entries of `geometry.coordinates`. */
  function EntriesMessages(box: Box, props: Properties, es: seq<Json>): (r: Result<seq<Message>>)
    ensures r.Success? ==> |r.value| <= |es|
  {
    if |es| == 0 then Success([])
    else
      var head :- EntryMessages(box, props, es[0]);
      var rest :- EntriesMessages(box, props, es[1..]);
      Success(head + rest)
  }

  /** The body of the outer loop: a feature with `null` geometry
      contributes nothing. */
  function FeatureMessages(box: Box, f: Feature): Result<seq<Message>> {
    if f.geometry.None? then Success([])
    else EntriesMessages(box, f.properties, f.geometry.value.coordinates)
  }

  /** The outer loop over the features, in order. */
  function FormatFeatures(box: Box, fs: seq<Feature>): Result<seq<Message>> {
    if |fs| == 0 then Success([])
    else
      var head :- FeatureMessages(box, fs[0]);
      var rest :- FormatFeatures(box, fs[1..]);
      Success(head + rest)
  }

  /** The three lists the loop appends to, one position per message. */
  function Unzip(ms: seq<Message>): (m: Messages)
    ensures |m.situationType| == |ms| && |m.name| == |ms| && |m.comment| == |ms|
    ensures forall k :: 0 <= k < |ms| ==>
      m.situationType[k] == ms[k].situationType && m.name[k] == ms[k].name && m.comment[k] == ms[k].comment
  {
    Messages(seq(|ms|, k requires 0 <= k < |ms| => ms[k].situationType),
             seq(|ms|, k requires 0 <= k < |ms| => ms[k].name),
             seq(|ms|, k requires 0 <= k < |ms| => ms[k].comment))
  }

  /** `format_traffic_messages(city, all_traffic_messages)`. */
  function FormatTrafficMessages(city: string, data: Collection): (r: Result<map<string, Messages>>)
    ensures city !in Cities ==> r == Failure(KeyError(city))
    ensures r.Success? ==>
      && r.value.Keys == {city}
      && |r.value[city].situationType| == |r.value[city].name| == |r.value[city].comment|
  {
    var box :- CityBox(city);
    var ms :- FormatFeatures(box, data.features);
    Success(map[city := Unzip(ms)])
  }

  // ---------------------------------------------------------------------
  // Reference definitions.

  /** The box test as the code writes it. */
  ghost predicate InBoxAsWritten(box: Box, lon: real, lat: real) {
    box.minLon < lon < box.maxLon && lat > box.minLat && lon < box.maxLat
  }

  /** A coordinate pair of two numbers that passes the box test. */
  ghost predicate Hit(box: Box, p: Json) {
    p.JList? && |p.items| == 2 && p.items[0].JNum? && p.items[1].JNum?
    && InBoxAsWritten(box, p.items[0].n, p.items[1].n)
  }

  /** A coordinate list that holds a passing pair. */
  ghost predicate EntryHits(box: Box, e: Json) {
    e.JList? && exists i :: 0 <= i < |e.items| && Hit(box, e.items[i])
  }

  /** A feature whose geometry has a coordinate list holding a passing pair. */
  ghost predicate FeatureHits(box: Box, f: Feature) {
    f.geometry.Some? && exists i :: 0 <= i < |f.geometry.value.coordinates| && EntryHits(box, f.geometry.value.coordinates[i])
  }

  /** The number of coordinate lists that hold a passing pair. */
  ghost function HitEntries(box: Box, es: seq<Json>): (n: nat)
    ensures n <= |es|
  {
    if |es| == 0 then 0 else (if EntryHits(box, es[0]) then 1 else 0) + HitEntries(box, es[1..])
  }

  /** The first `n` elements are all examined and rejected without error. */
  ghost predicate Rejected(box: Box, ps: seq<Json>, n: int) {
    forall j :: 0 <= j < n && j < |ps| ==> PairOutcome(box, ps[j]) == Success(false)
  }

  /** One element passes exactly when it is a pair of numbers inside the
      box as written; evaluating it fails exactly when a number stands where
      `len` needs a list or a list stands where a comparison needs a number. */
  lemma PairOutcomeSpec(box: Box, p: Json)
    ensures PairOutcome(box, p) == Success(true) <==> Hit(box, p)
    ensures PairOutcome(box, p).Failure? ==> PairOutcome(box, p).error == TypeError
    ensures PairOutcome(box, p).Failure? <==>
      p.JNum? || (|p.items| == 2 && (p.items[0].JList? ||
        (box.minLon < p.items[0].n < box.maxLon && p.items[1].JList?)))
  {
  }

  /** The innermost loop finds a match exactly when some element passes
      and every element before it is rejected without error; it finds none
      exactly when every element is rejected. */
  lemma {:induction false} ScanPairsSpec(box: Box, ps: seq<Json>)
    ensures ScanPairs(box, ps) == Success(true) <==>
      exists i :: 0 <= i < |ps| && Hit(box, ps[i]) && Rejected(box, ps, i)
    ensures ScanPairs(box, ps) == Success(false) <==> Rejected(box, ps, |ps|)
    ensures ScanPairs(box, ps).Failure? ==> ScanPairs(box, ps).error == TypeError
  {
    if |ps| > 0 {
      ScanPairsSpec(box, ps[1..]);
      PairOutcomeSpec(box, ps[0]);
      var tail := ps[1..];
      assert forall j :: 0 <= j < |tail| ==> tail[j] == ps[j + 1];
      if ScanPairs(box, ps) == Success(true) && !Hit(box, ps[0]) {
        var i :| 0 <= i < |tail| && Hit(box, tail[i]) && Rejected(box, tail, i);
        assert Hit(box, ps[i + 1]) && Rejected(box, ps, i + 1);
      }
      if exists i :: 0 <= i < |ps| && Hit(box, ps[i]) && Rejected(box, ps, i) {
        var i :| 0 <= i < |ps| && Hit(box, ps[i]) && Rejected(box, ps, i);
        if i > 0 {
          assert Hit(box, tail[i - 1]) && Rejected(box, tail, i - 1);
        }
      }
    }
  }

  /** Once the innermost loop completes, its answer is whether the list
      holds a passing pair. */
  lemma ScanPairsHit(box: Box, e: Json)
    requires e.JList? && ScanPairs(box, e.items).Success?
    ensures ScanPairs(box, e.items).value <==> EntryHits(box, e)
  {
    ScanPairsSpec(box, e.items);
    if !ScanPairs(box, e.items).value {
      forall i | 0 <= i < |e.items|
        ensures !Hit(box, e.items[i])
      {
        PairOutcomeSpec(box, e.items[i]);
      }
    }
  }

  /** A feature's messages are one copy of its message per coordinate list
      holding a passing pair: never more than the number of entries of
      `geometry.coordinates`. */
  lemma {:induction false} EntriesMessagesSpec(box: Box, props: Properties, es: seq<Json>)
    requires EntriesMessages(box, props, es).Success?
    ensures |EntriesMessages(box, props, es).value| == HitEntries(box, es)
    ensures forall k :: 0 <= k < |EntriesMessages(box, props, es).value| ==>
      MessageOf(props) == Success(EntriesMessages(box, props, es).value[k])
  {
    if |es| > 0 {
      EntriesMessagesSpec(box, props, es[1..]);
      if es[0].JList? {
        ScanPairsHit(box, es[0]);
      }
    }
  }

  /** The messages of one feature: none for a `null` geometry, otherwise
      one copy of the feature's message per matching coordinate list. */
  lemma FeatureMessagesSpec(box: Box, f: Feature)
    requires FeatureMessages(box, f).Success?
    ensures f.geometry.None? ==> FeatureMessages(box, f).value == []
    ensures f.geometry.Some? ==>
      |FeatureMessages(box, f).value| == HitEntries(box, f.geometry.value.coordinates)
    ensures forall k :: 0 <= k < |FeatureMessages(box, f).value| ==>
      MessageOf(f.properties) == Success(FeatureMessages(box, f).value[k])
  {
    if f.geometry.Some? {
      EntriesMessagesSpec(box, f.properties, f.geometry.value.coordinates);
    }
  }

  /** A coordinate list with a passing pair, reached without error, makes a
      feature without an announcement (or whose first announcement has no
      feature) raise IndexError. */
  lemma {:induction false} MissingAnnouncementFails(box: Box, props: Properties, es: seq<Json>, i: nat)
    requires i < |es| && EntryHits(box, es[i])
    requires forall j :: 0 <= j < i ==> EntryMessages(box, props, es[j]) == Success([])
    requires ScanPairs(box, es[i].items).Success?
    requires MessageOf(props).Failure?
    ensures EntriesMessages(box, props, es) == Failure(IndexError)
    decreases i
  {
    if i == 0 {
      ScanPairsHit(box, es[0]);
    } else {
      var tail := es[1..];
      assert tail[i - 1] == es[i];
      assert forall j :: 0 <= j < i - 1 ==> tail[j] == es[j + 1];
      MissingAnnouncementFails(box, props, tail, i - 1);
    }
  }

  /** A feature contributes a message only if it holds a passing pair. */
  lemma {:induction false} HitEntriesPositive(box: Box, es: seq<Json>)
    requires HitEntries(box, es) > 0
    ensures exists i :: 0 <= i < |es| && EntryHits(box, es[i])
  {
    if !EntryHits(box, es[0]) {
      HitEntriesPositive(box, es[1..]);
      var i :| 0 <= i < |es[1..]| && EntryHits(box, es[1..][i]);
      assert EntryHits(box, es[i + 1]);
    }
  }

  /** The outer loop over `xs + ys` is the loop over `xs` followed by the
      loop over `ys`: output order follows feature order, and the first
      failure in feature order is the one raised. */
  lemma {:induction false} FormatFeaturesConcat(box: Box, xs: seq<Feature>, ys: seq<Feature>)
    ensures FormatFeatures(box, xs).Failure? ==> FormatFeatures(box, xs + ys) == FormatFeatures(box, xs)
    ensures FormatFeatures(box, xs).Success? && FormatFeatures(box, ys).Failure? ==>
      FormatFeatures(box, xs + ys) == FormatFeatures(box, ys)
    ensures FormatFeatures(box, xs).Success? && FormatFeatures(box, ys).Success? ==>
      FormatFeatures(box, xs + ys) == Success(FormatFeatures(box, xs).value + FormatFeatures(box, ys).value)
  {
    if |xs| == 0 {
      assert xs + ys == ys;
      if FormatFeatures(box, ys).Success? {
        assert [] + FormatFeatures(box, ys).value == FormatFeatures(box, ys).value;
      }
    } else {
      assert (xs + ys)[0] == xs[0];
      assert (xs + ys)[1..] == xs[1..] + ys;
      FormatFeaturesConcat(box, xs[1..], ys);
      if FormatFeatures(box, xs).Success? && FormatFeatures(box, ys).Success? {
        var h := FeatureMessages(box, xs[0]).value;
        assert h + (FormatFeatures(box, xs[1..]).value + FormatFeatures(box, ys).value)
            == (h + FormatFeatures(box, xs[1..]).value) + FormatFeatures(box, ys).value;
      }
    }
  }

  /** `msg` is the message of one of the features `fs` that holds a
      passing coordinate pair. */
  ghost predicate ListedFrom(box: Box, fs: seq<Feature>, msg: Message) {
    exists i :: 0 <= i < |fs| && FeatureHits(box, fs[i]) && MessageOf(fs[i].properties) == Success(msg)
  }

  /** Every listed message is the message of some feature that holds a
      passing coordinate pair. */
  lemma {:induction false} FormatFeaturesSound(box: Box, fs: seq<Feature>)
    requires FormatFeatures(box, fs).Success?
    ensures forall k :: 0 <= k < |FormatFeatures(box, fs).value| ==> ListedFrom(box, fs, FormatFeatures(box, fs).value[k])
  {
    if |fs| > 0 {
      var ms := FormatFeatures(box, fs).value;
      var head := FeatureMessages(box, fs[0]).value;
      var rest := FormatFeatures(box, fs[1..]).value;
      FormatFeaturesSound(box, fs[1..]);
      FeatureMessagesSpec(box, fs[0]);
      if |head| > 0 {
        HitEntriesPositive(box, fs[0].geometry.value.coordinates);
      }
      forall k | 0 <= k < |ms|
        ensures ListedFrom(box, fs, ms[k])
      {
        if k < |head| {
          assert ms[k] == head[k];
          assert FeatureHits(box, fs[0]) && MessageOf(fs[0].properties) == Success(ms[k]);
        } else {
          assert ms[k] == rest[k - |head|];
          assert ListedFrom(box, fs[1..], rest[k - |head|]);
          var i :| 0 <= i < |fs[1..]| && FeatureHits(box, fs[1..][i]) && MessageOf(fs[1..][i].properties) == Success(rest[k - |head|]);
          assert fs[1..][i] == fs[i + 1];
        }
      }
    }
  }

  /** Position `k` of the three lists holds the situation type, first
      announcement name and first announcement comment of feature `f`. */
  ghost predicate Describes(m: Messages, k: int, f: Feature)
    requires 0 <= k < |m.situationType| && k < |m.name| && k < |m.comment|
  {
    var p := f.properties;
    && |p.announcements| > 0 && |p.announcements[0].features| > 0
    && m.situationType[k] == p.situationType
    && m.name[k] == p.announcements[0].features[0].name
    && m.comment[k] == p.announcements[0].comment
  }

  /** Position `k` of the three lists describes one of the features `fs`
      that has a coordinate pair passing the box test. */
  ghost predicate PositionListed(box: Box, fs: seq<Feature>, m: Messages, k: int)
    requires 0 <= k < |m.situationType| && k < |m.name| && k < |m.comment|
  {
    exists i :: 0 <= i < |fs| && FeatureHits(box, fs[i]) && Describes(m, k, fs[i])
  }

  /** The whole function: for a known city, every position of the three
      lists describes one feature that has a coordinate pair passing the box
      test. */
  lemma FormatTrafficMessagesSound(city: string, data: Collection)
    requires FormatTrafficMessages(city, data).Success?
    ensures city in Cities
    ensures var m := FormatTrafficMessages(city, data).value[city];
      && |m.situationType| == |m.name| == |m.comment|
      && forall k :: 0 <= k < |m.situationType| ==> PositionListed(CityBox(city).value, data.features, m, k)
  {
    var box := CityBox(city).value;
    var ms := FormatFeatures(box, data.features).value;
    var m := FormatTrafficMessages(city, data).value[city];
    assert m == Unzip(ms);
    FormatFeaturesSound(box, data.features);
    forall k | 0 <= k < |m.situationType|
      ensures PositionListed(box, data.features, m, k)
    {
      assert ListedFrom(box, data.features, ms[k]);
      var i :| 0 <= i < |data.features| && FeatureHits(box, data.features[i]) &&
        MessageOf(data.features[i].properties) == Success(ms[k]);
      assert Describes(m, k, data.features[i]);
    }
  }

  /** The code never bounds the latitude from above: a point far north of
      the Tampere box, at a longitude inside it, passes the test. */
  lemma NorthOfBoxPasses()
    ensures CityBox("TAMPERE") == Success(Box(23.652361, 61.435179, 23.865908, 61.520098))
    ensures Hit(CityBox("TAMPERE").value, JList([JNum(23.7), JNum(70.0)]))
    ensures PairOutcome(CityBox("TAMPERE").value, JList([JNum(23.7), JNum(70.0)])) == Success(true)
  {
  }

  /** For every city of the table the maximum latitude exceeds the maximum
      longitude, so the test's last conjunct never rejects a pair: the test
      accepts exactly the points strictly between the longitude bounds and
      north of the minimum latitude. */
  lemma CityBoxesIgnoreLastConjunct(city: string, lon: real, lat: real)
    requires city in Cities
    ensures var box := CityBox(city).value;
      InBoxAsWritten(box, lon, lat) <==> box.minLon < lon < box.maxLon && lat > box.minLat
  {
  }
}

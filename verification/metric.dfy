/**
 * Per-activity metric derivation and the running minimum and maximum that
 * `generateCalendar` keeps while it collects samples. Metrics are exact reals.
 */
module Metric {
  import opened Common

  /** The fields of an activity record the scoring reads. `day` is the activity's
      calendar date as the renderer keys it (YYYY-MM-DD), taken as given. */
  datatype Activity = Activity(averageSpeed: real, elapsedTime: real, sportType: string, day: string)

  /** One evaluation sample: the derived metric and the date it counts for. */
  datatype Sample = Sample(evalMetric: real, date: string)

  predicate NonNegative(a: Activity) {
    a.averageSpeed >= 0.0 && a.elapsedTime >= 0.0
  }

  /** `String.prototype.includes`: `sub` starts at the front of `s` or somewhere later. */
  predicate Includes(s: string, sub: string)
    decreases |s|
  {
    |sub| <= |s| && (s[..|sub|] == sub || (|s| > 0 && Includes(s[1..], sub)))
  }

  /** `sub` occurs in `s` starting at position `i`. */
  ghost predicate OccursAt(s: string, sub: string, i: int) {
    0 <= i <= |s| - |sub| && s[i..i + |sub|] == sub
  }

  /** Reference meaning of `Includes`: `sub` occurs at some position of `s`. */
  ghost predicate OccursIn(s: string, sub: string) {
    exists i :: OccursAt(s, sub, i)
  }

  lemma {:induction false} IncludesMeansOccurs(s: string, sub: string)
    ensures Includes(s, sub) <==> OccursIn(s, sub)
    decreases |s|
  {
    if |sub| <= |s| && s[..|sub|] == sub {
      assert OccursAt(s, sub, 0);
    } else if |sub| <= |s| && |s| > 0 {
      IncludesMeansOccurs(s[1..], sub);
      if OccursIn(s, sub) {
        var i :| OccursAt(s, sub, i);
        assert i != 0;
        assert s[1..][i - 1..i - 1 + |sub|] == s[i..i + |sub|];
        assert OccursAt(s[1..], sub, i - 1);
      }
      if OccursIn(s[1..], sub) {
        var i :| OccursAt(s[1..], sub, i);
        assert s[i + 1..i + 1 + |sub|] == s[1..][i..i + |sub|];
        assert OccursAt(s, sub, i + 1);
      }
    }
  }

  /** The cycling label the metric is halved for. */
  const CYCLING := "Bike"

  /** `average_speed * elapsed_time`, halved when the sport type mentions `Bike`. */
  function DerivedMetric(a: Activity): (m: real)
    ensures Includes(a.sportType, CYCLING) ==> 2.0 * m == a.averageSpeed * a.elapsedTime
    ensures !Includes(a.sportType, CYCLING) ==> m == a.averageSpeed * a.elapsedTime
    ensures NonNegative(a) ==> m >= 0.0
  {
    var distance := a.averageSpeed * a.elapsedTime;
    if Includes(a.sportType, CYCLING) then distance / 2.0 else distance
  }

  function ToSample(a: Activity): Sample {
    Sample(DerivedMetric(a), a.day)
  }

  /** The samples one page of activities contributes, in order. */
  function Samples(data: seq<Activity>): seq<Sample> {
    seq(|data|, k requires 0 <= k < |data| => ToSample(data[k]))
  }

  /** A `Ride` or a `Run` does not mention `Bike`, so both keep the full product. */
  lemma UnhalvedExamples(day: string)
    ensures DerivedMetric(Activity(10.0, 100.0, "Ride", day)) == 1000.0
    ensures DerivedMetric(Activity(10.0, 100.0, "Run", day)) == 1000.0
  {
    assert "Ride"[0] != CYCLING[0];
    assert !Includes("ide", CYCLING);
    assert !Includes("Ride", CYCLING);
    assert !Includes("Run", CYCLING);
  }

  /** Strava's `EBikeRide` and `MountainBikeRide` labels halve the metric. */
  lemma HalvedExamples(day: string)
    ensures DerivedMetric(Activity(10.0, 100.0, "EBikeRide", day)) == 500.0
    ensures DerivedMetric(Activity(10.0, 100.0, "MountainBikeRide", day)) == 500.0
  {
    assert "EBikeRide"[1..5] == CYCLING;
    assert OccursAt("EBikeRide", CYCLING, 1);
    IncludesMeansOccurs("EBikeRide", CYCLING);
    assert "MountainBikeRide"[8..12] == CYCLING;
    assert OccursAt("MountainBikeRide", CYCLING, 8);
    IncludesMeansOccurs("MountainBikeRide", CYCLING);
  }

  /** The smallest metric among `events`, folded from the front as the loop does. */
  function MinMetric(events: seq<Sample>): (lo: real)
    requires events != []
    ensures forall k :: 0 <= k < |events| ==> lo <= events[k].evalMetric
    ensures exists k :: 0 <= k < |events| && lo == events[k].evalMetric
    decreases |events|
  {
    var last := events[|events| - 1].evalMetric;
    if |events| == 1 then last
    else
      var rest := MinMetric(events[..|events| - 1]);
      if last < rest then last else rest
  }

  /** The largest metric among `events`, folded from the front as the loop does. */
  function MaxMetric(events: seq<Sample>): (hi: real)
    requires events != []
    ensures forall k :: 0 <= k < |events| ==> events[k].evalMetric <= hi
    ensures exists k :: 0 <= k < |events| && hi == events[k].evalMetric
    decreases |events|
  {
    var last := events[|events| - 1].evalMetric;
    if |events| == 1 then last
    else
      var rest := MaxMetric(events[..|events| - 1]);
      if last > rest then last else rest
  }

  /** The loop's running `minMetric` (none before the first sample) and `maxMetric`
      (starting at 0) describe the samples collected so far, all of them non-negative. */
  ghost predicate Tracks(events: seq<Sample>, minMetric: Option<real>, maxMetric: real) {
    (forall k :: 0 <= k < |events| ==> events[k].evalMetric >= 0.0) &&
    if events == [] then minMetric == None && maxMetric == 0.0
    else minMetric == Some(MinMetric(events)) && maxMetric == MaxMetric(events)
  }

  /** The running values bound every collected metric: `minMetric` is set exactly when a
      sample exists, and lies at or below each one; `maxMetric` at or above each one. */
  lemma TrackedBounds(events: seq<Sample>, minMetric: Option<real>, maxMetric: real)
    requires Tracks(events, minMetric, maxMetric)
    ensures minMetric.Some? <==> events != []
    ensures forall k :: 0 <= k < |events| ==> minMetric.Some? && minMetric.value <= events[k].evalMetric <= maxMetric
    ensures 0.0 <= maxMetric
  {
  }

  /** The samples of one activity more are those before it plus its own. */
  lemma SamplesAppend(data: seq<Activity>, k: nat)
    requires k < |data|
    ensures Samples(data[..k + 1]) == Samples(data[..k]) + [ToSample(data[k])]
  {
    assert forall j :: 0 <= j < k ==> data[..k + 1][j] == data[..k][j];
  }

  /** One sample more: updating the running values the way the loop does keeps them
      describing the collected samples. */
  lemma TracksAppend(events: seq<Sample>, minMetric: Option<real>, maxMetric: real, x: Sample)
    requires Tracks(events, minMetric, maxMetric) && x.evalMetric >= 0.0
    ensures Tracks(events + [x],
                   if minMetric.None? || x.evalMetric < minMetric.value then Some(x.evalMetric) else minMetric,
                   if x.evalMetric > maxMetric then x.evalMetric else maxMetric)
  {
    var grown := events + [x];
    assert grown[..|grown| - 1] == events;
    assert grown[|grown| - 1] == x;
  }

  /** The `forEach` over one page: appends one sample per activity and updates the
      running minimum and maximum as each metric is produced. */
  method AddSamples(data: seq<Activity>, events: seq<Sample>, minMetric: Option<real>, maxMetric: real)
    returns (grown: seq<Sample>, newMin: Option<real>, newMax: real)
    requires forall k :: 0 <= k < |data| ==> NonNegative(data[k])
    requires Tracks(events, minMetric, maxMetric)
    ensures grown == events + Samples(data)
    ensures Tracks(grown, newMin, newMax)
  {
    grown, newMin, newMax := events, minMetric, maxMetric;
    for k := 0 to |data|
      invariant grown == events + Samples(data[..k])
      invariant Tracks(grown, newMin, newMax)
    {
      var m := DerivedMetric(data[k]);
      TracksAppend(grown, newMin, newMax, ToSample(data[k]));
      if m > newMax {
        newMax := m;
      }
      if newMin.None? || m < newMin.value {
        newMin := Some(m);
      }
      SamplesAppend(data, k);
      Associative(events, Samples(data[..k]), [ToSample(data[k])]);
      grown := grown + [ToSample(data[k])];
    }
    assert data[..|data|] == data;
  }
}

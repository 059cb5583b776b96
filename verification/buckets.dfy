/**
 * Quartile bucketing: three thresholds derived from the global minimum and maximum
 * metric, a per-sample increment of 1 to 4 chosen by strict comparisons, and a score
 * per date that sums the increments of that date's samples and is clamped at 4.
 */
module Buckets {
  import opened Metric

  const MAX_SCORE := 4

  datatype Quartiles = Quartiles(upperBottom: real, mid: real, lowerUpper: real)

  /** The thresholds as the source computes them: the midpoint, then the midpoints of
      the lower and the upper half. */
  function QuartilesOf(lo: real, hi: real): (q: Quartiles)
    ensures q.mid == (lo + hi) / 2.0
    ensures q.upperBottom == (3.0 * lo + hi) / 4.0
    ensures q.lowerUpper == (lo + 3.0 * hi) / 4.0
    ensures lo <= hi ==> lo <= q.upperBottom <= q.mid <= q.lowerUpper <= hi
  {
    var mid := lo + (hi - lo) / 2.0;
    Quartiles(lo + (mid - lo) / 2.0, mid, hi - (hi - mid) / 2.0)
  }

  /** The thresholds of a non-empty run: from its smallest and its largest metric. */
  function Thresholds(events: seq<Sample>): Quartiles
    requires events != []
  {
    QuartilesOf(MinMetric(events), MaxMetric(events))
  }

  /** Every collected sample lies between the run's minimum and maximum, and the three
      thresholds lie between them in order. */
  lemma ThresholdsOrdered(events: seq<Sample>)
    requires events != []
    ensures forall k :: 0 <= k < |events| ==> MinMetric(events) <= events[k].evalMetric <= MaxMetric(events)
    ensures var q := Thresholds(events);
      MinMetric(events) <= q.upperBottom <= q.mid <= q.lowerUpper <= MaxMetric(events)
  {
    assert MinMetric(events) <= events[0].evalMetric <= MaxMetric(events);
  }

  /** The increment one sample adds to its date's score. */
  function Increment(metric: real, q: Quartiles): (inc: int)
    ensures 1 <= inc <= MAX_SCORE
  {
    if metric < q.upperBottom then 1
    else if q.upperBottom < metric < q.mid then 2
    else if q.mid < metric < q.lowerUpper then 3
    else 4
  }

  /** With ordered thresholds, the increments partition the line: 1 below the lowest
      threshold, 2 and 3 strictly inside the middle bands, and 4 at or above the
      highest threshold and also exactly on the lower two. */
  lemma IncrementBands(metric: real, q: Quartiles)
    requires q.upperBottom <= q.mid <= q.lowerUpper
    ensures Increment(metric, q) == 1 <==> metric < q.upperBottom
    ensures Increment(metric, q) == 2 <==> q.upperBottom < metric < q.mid
    ensures Increment(metric, q) == 3 <==> q.mid < metric < q.lowerUpper
    ensures Increment(metric, q) == 4 <==> metric == q.upperBottom || metric == q.mid || metric >= q.lowerUpper
  {
  }

  /** When every metric is the same, all three thresholds equal it and each sample gets 4. */
  lemma EqualBoundsGiveFour(m: real)
    ensures QuartilesOf(m, m) == Quartiles(m, m, m)
    ensures Increment(m, QuartilesOf(m, m)) == MAX_SCORE
  {
  }

  /** With minimum 0 and maximum 100 the thresholds are 25, 50 and 75; a metric exactly
      on the midpoint gets 4, more than its neighbour 60 gets. */
  lemma HundredExample()
    ensures QuartilesOf(0.0, 100.0) == Quartiles(25.0, 50.0, 75.0)
    ensures Increment(50.0, QuartilesOf(0.0, 100.0)) == 4
    ensures Increment(60.0, QuartilesOf(0.0, 100.0)) == 3
    ensures Increment(25.0, QuartilesOf(0.0, 100.0)) == 4
    ensures Increment(10.0, QuartilesOf(0.0, 100.0)) == 1
  {
  }

  /** True when some sample falls on date `d`. */
  ghost predicate HasDate(events: seq<Sample>, d: string) {
    exists k :: 0 <= k < |events| && events[k].date == d
  }

  /** The sum of the increments of the samples on date `d`. */
  function DateTotal(events: seq<Sample>, q: Quartiles, d: string): int
    decreases |events|
  {
    if events == [] then 0
    else
      var last := events[|events| - 1];
      DateTotal(events[..|events| - 1], q, d) + (if last.date == d then Increment(last.evalMetric, q) else 0)
  }

  function Cap(n: int): int {
    if n > MAX_SCORE then MAX_SCORE else n
  }

  /** A date's total is never negative, and positive exactly when the date has a sample. */
  lemma {:induction false} DateTotalSign(events: seq<Sample>, q: Quartiles, d: string)
    ensures DateTotal(events, q, d) >= 0
    ensures DateTotal(events, q, d) > 0 <==> HasDate(events, d)
    decreases |events|
  {
    if events != [] {
      var init := events[..|events| - 1];
      DateTotalSign(init, q, d);
      if HasDate(init, d) {
        var k :| 0 <= k < |init| && init[k].date == d;
        assert events[k].date == d;
      }
      if HasDate(events, d) && events[|events| - 1].date != d {
        var k :| 0 <= k < |events| && events[k].date == d;
        assert init[k].date == d;
      }
    }
  }

  /** `scores` is the score map of `events`: exactly the dates with a sample, each
      scored with the sum of its increments clamped at 4. */
  ghost predicate IsScoreMap(scores: map<string, int>, events: seq<Sample>, q: Quartiles) {
    (forall d :: d in scores <==> HasDate(events, d)) &&
    (forall d :: d in scores ==> scores[d] == Cap(DateTotal(events, q, d)))
  }

  /** A score map holds only scores in 1..4, and no samples give the empty map. */
  lemma ScoreMapRange(scores: map<string, int>, events: seq<Sample>, q: Quartiles)
    requires IsScoreMap(scores, events, q)
    ensures forall d :: d in scores ==> 1 <= scores[d] <= MAX_SCORE
    ensures events == [] ==> scores == map[]
  {
    forall d | d in scores
      ensures 1 <= scores[d] <= MAX_SCORE
    {
      DateTotalSign(events, q, d);
    }
  }

  /** When all samples carry the same metric and the thresholds come from it, every
      date with a sample scores the full 4. */
  lemma {:induction false} UniformMetricsScoreFour(events: seq<Sample>, m: real, d: string)
    requires forall k :: 0 <= k < |events| ==> events[k].evalMetric == m
    requires HasDate(events, d)
    ensures Cap(DateTotal(events, QuartilesOf(m, m), d)) == MAX_SCORE
    decreases |events|
  {
    var init := events[..|events| - 1];
    var last := events[|events| - 1];
    EqualBoundsGiveFour(m);
    DateTotalSign(init, QuartilesOf(m, m), d);
    if last.date != d {
      var k :| 0 <= k < |events| && events[k].date == d;
      assert init[k].date == d;
      UniformMetricsScoreFour(init, m, d);
    }
  }

  /** One sample more: its increment is added to its own date's total only. */
  lemma DateTotalAppend(events: seq<Sample>, i: nat, q: Quartiles, d: string)
    requires i < |events|
    ensures DateTotal(events[..i + 1], q, d)
         == DateTotal(events[..i], q, d) + (if events[i].date == d then Increment(events[i].evalMetric, q) else 0)
    ensures HasDate(events[..i + 1], d) <==> HasDate(events[..i], d) || events[i].date == d
  {
    assert events[..i + 1][..i] == events[..i];
    if HasDate(events[..i + 1], d) && events[i].date != d {
      var k :| 0 <= k < i + 1 && events[..i + 1][k].date == d;
      assert events[..i][k].date == d;
    }
    if HasDate(events[..i], d) {
      var k :| 0 <= k < i && events[..i][k].date == d;
      assert events[..i + 1][k].date == d;
    }
    if events[i].date == d {
      assert events[..i + 1][i].date == d;
    }
  }

  /** The bucketing `forEach`: reads the date's running score (absent counts as 0),
      adds the sample's increment, clamps at 4 and writes the score back. */
  method Bucket(events: seq<Sample>, q: Quartiles) returns (scores: map<string, int>)
    ensures IsScoreMap(scores, events, q)
    ensures forall d :: d in scores ==> 1 <= scores[d] <= MAX_SCORE
  {
    scores := map[];
    for i := 0 to |events|
      invariant IsScoreMap(scores, events[..i], q)
    {
      var e := events[i];
      var accum := 0;
      if e.date in scores && scores[e.date] != 0 {
        accum := scores[e.date];
      }
      DateTotalSign(events[..i], q, e.date);
      accum := accum + Increment(e.evalMetric, q);
      if accum > MAX_SCORE {
        accum := MAX_SCORE;
      }
      forall d
        ensures DateTotal(events[..i + 1], q, d)
             == DateTotal(events[..i], q, d) + (if e.date == d then Increment(e.evalMetric, q) else 0)
        ensures HasDate(events[..i + 1], d) <==> HasDate(events[..i], d) || e.date == d
      {
        DateTotalAppend(events, i, q, d);
      }
      scores := scores[e.date := accum];
    }
    assert events[..|events|] == events;
    ScoreMapRange(scores, events, q);
  }
}

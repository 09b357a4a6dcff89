/**
 * The verdict of the robust detector (analysis/anomaly.ts) in terms of the series alone:
 * which points must lie how far from the baseline, and on which side.
 */
module AnomalyLaws {
  import opened Prelude
  import opened Anomaly

  /** One robust unit: the spread of the baseline, or a thousandth of it when the baseline is flat. */
  function Unit(values: seq<real>, o: Options): (u: real)
    ensures u > 0.0
  {
    var spread, level := BaseMad(values, o), Median(Baseline(values, o));
    var thousandth := (if level < 0.0 then -level else level) / 1000.0;
    if spread > 0.0 then spread else if thousandth > 0.000000001 then thousandth else 0.000000001
  }

  lemma UnitIsScale(values: seq<real>, o: Options)
    ensures GaugeOf(values, o) == Gauge(Median(Baseline(values, o)), Unit(values, o))
  {
    hide Median, Baseline, BaseMad;
  }

  /** Far above, or for metrics without a good side, far above or below. */
  predicate Far(kind: MetricKind, d: real, limit: real) {
    d >= limit || (kind in {Throughput, Generic} && -d >= limit)
  }

  lemma FarExact(o: Options, g: Gauge, v: real, d: real, limit: real)
    requires g.scale > 0.0 && d == v - g.center && limit == o.threshold * g.scale
    ensures Beyond(o, Score(g, v)) <==> Far(o.kind, d, limit)
  {
    hide Score;
    RatioAtLeast(v - g.center, g.scale, o.threshold);
    RatioAtLeast(g.center - v, g.scale, o.threshold);
    NegativeRatio(g, v);
  }

  lemma NegativeRatio(g: Gauge, v: real)
    requires g.scale > 0.0
    ensures Score(g, v) == (v - g.center) / g.scale && -Score(g, v) == (g.center - v) / g.scale
  {
    var q := (v - g.center) / g.scale;
    assert q * g.scale == v - g.center;
    assert -q * g.scale == g.center - v;
  }

  predicate RisesAt(values: seq<real>, i: int) {
    1 <= i < |values| && values[i] > values[i - 1]
  }

  /** The steps at which the series rises. */
  function RisingSteps(values: seq<real>): set<int> {
    set i | 1 <= i < |values| && RisesAt(values, i)
  }

  lemma {:induction false} RisesExact(values: seq<real>)
    ensures Rises(values) == |RisingSteps(values)|
  {
    var k := |values| - 1;
    if k < 1 {
      assert RisingSteps(values) == {};
    } else {
      RisesExact(values[..k]);
      var before := RisingSteps(values[..k]);
      assert k !in before;
      assert forall i :: 1 <= i < k ==> (RisesAt(values, i) <==> RisesAt(values[..k], i));
      assert RisingSteps(values) == if RisesAt(values, k) then before + {k} else before;
    }
  }

  lemma EnoughSteps(ups: nat, n: nat)
    requires n >= 2
    ensures RisingFraction(ups, n) >= 0.7 <==> 10 * ups >= 7 * (n - 1)
  {
    RatioAtLeast(ups as real, (n - 1) as real, 0.7);
  }

  lemma NotShort(values: seq<real>, o: Options)
    requires !WarmingUp(|values|, o)
    ensures |values| >= 3
  {
  }

  /** Counting all of the last points. */
  lemma DwellExact(values: seq<real>, o: Options)
    requires 1 <= o.dwell <= |values|
    ensures Count(Breaches(o, GaugeOf(values, o)), Tail(values, o)) >= o.dwell <==>
            forall i :: |values| - o.dwell <= i < |values| ==> Beyond(o, Score(GaugeOf(values, o), values[i]))
  {
    hide Median, GaugeOf, Score, Count, SliceFrom, Beyond;
    var g, tail := GaugeOf(values, o), Tail(values, o);
    LastPoints(values, o.dwell);
    if Count(Breaches(o, g), tail) >= o.dwell {
      CountFull(Breaches(o, g), tail);
      forall i | |values| - o.dwell <= i < |values| ensures Beyond(o, Score(g, values[i])) {
        assert values[i] == tail[i - (|values| - o.dwell)];
      }
    }
    if forall i :: |values| - o.dwell <= i < |values| ==> Beyond(o, Score(g, values[i])) {
      CountAll(Breaches(o, g), tail);
    }
  }

  /** There are `dwell` points, and each of the last ones lies far from `base`. */
  predicate LastFar(values: seq<real>, o: Options, base: real, limit: real) {
    o.dwell <= |values| &&
    forall i :: 0 <= i < |values| && |values| - o.dwell <= i ==> Far(o.kind, values[i] - base, limit)
  }

  /** The recent median and each of the last points lie far from the baseline. */
  predicate FarForLong(values: seq<real>, o: Options) {
    var base, limit := Median(Baseline(values, o)), o.threshold * Unit(values, o);
    Far(o.kind, Median(Recent(values, o)) - base, limit) && LastFar(values, o, base, limit)
  }

  lemma DwellFar(values: seq<real>, o: Options, base: real, limit: real)
    requires base == GaugeOf(values, o).center && limit == o.threshold * GaugeOf(values, o).scale
    ensures Count(Breaches(o, GaugeOf(values, o)), Tail(values, o)) >= o.dwell <==> LastFar(values, o, base, limit)
  {
    hide Median, GaugeOf, Score, Beyond, Count, Tail;
    if 1 <= o.dwell <= |values| {
      DwellExact(values, o);
    } else {
      TailIsPart(values, o);
    }
    forall i | 0 <= i < |values|
      ensures Beyond(o, Score(GaugeOf(values, o), values[i])) <==> Far(o.kind, values[i] - base, limit)
    {
      FarExact(o, GaugeOf(values, o), values[i], values[i] - base, limit);
    }
    if LastFar(values, o, base, limit) {
      assert forall i :: 0 <= i < |values| && |values| - o.dwell <= i ==> Beyond(o, Score(GaugeOf(values, o), values[i]));
    }
  }

  lemma TailIsPart(values: seq<real>, o: Options)
    ensures |Tail(values, o)| <= |values|
  {
  }

  lemma HitExact(values: seq<real>, o: Options)
    ensures Hit(values, o) <==> FarForLong(values, o)
  {
    hide Median, Baseline, Recent, Unit, GaugeOf, Score, Count, Tail;
    UnitIsScale(values, o);
    var base, limit := Median(Baseline(values, o)), o.threshold * Unit(values, o);
    FarExact(o, GaugeOf(values, o), Median(Recent(values, o)), Median(Recent(values, o)) - base, limit);
    DwellFar(values, o, base, limit);
  }

  /** Seven of ten steps rise, and the recent median is two units up. */
  predicate ClimbsFar(values: seq<real>, o: Options) {
    && 10 * |RisingSteps(values)| >= 7 * (|values| - 1)
    && Median(Recent(values, o)) - Median(Baseline(values, o)) >= 2.0 * Unit(values, o)
  }

  lemma ClimbsExact(values: seq<real>, o: Options)
    requires |values| >= 2
    ensures Climbs(values, o) <==> o.kind in {Saturation, Latency} && |values| >= o.minSamples && ClimbsFar(values, o)
  {
    hide Median, Baseline, Recent, Unit, GaugeOf, Score, Rises, RisingFraction, RisingSteps;
    var g := GaugeOf(values, o);
    UnitIsScale(values, o);
    RisesExact(values);
    EnoughSteps(Rises(values), |values|);
    NegativeRatio(g, Median(Recent(values, o)));
    RatioAtLeast(Median(Recent(values, o)) - g.center, g.scale, 2.0);
  }

  /**
   * When a series alarms, and by which test: by level exactly when the median of the recent
   * points and each of the last `dwell` points lie at least `threshold` units from the median of
   * the baseline, above it for metrics where less is better; else by trend exactly when, for
   * saturation and latency, seven of ten steps rise and the recent median is two units up.
   */
  lemma DetectorExact(values: seq<real>, o: Options)
    requires !WarmingUp(|values|, o)
    ensures var r := Judge(values, o);
            && (r.how == ByRobustZ <==> FarForLong(values, o))
            && (r.how == ByTrend <==>
                  && !FarForLong(values, o)
                  && o.kind in {Saturation, Latency} && |values| >= o.minSamples && ClimbsFar(values, o))
            && (r.isAnomaly <==> r.how != Undetected)
  {
    hide Median, Baseline, Recent, GaugeOf, Hit, Climbs, FarForLong, ClimbsFar, WarmingUp;
    NotShort(values, o);
    HitExact(values, o);
    ClimbsExact(values, o);
  }

  /** What a verdict reports: the two medians, their difference in units, and its sign. */
  lemma ReportExact(values: seq<real>, o: Options)
    requires !WarmingUp(|values|, o)
    ensures var r := Judge(values, o);
            && r.recentValue == Median(Recent(values, o)) && r.baselineValue == Median(Baseline(values, o))
            && r.score * Unit(values, o) == r.recentValue - r.baselineValue
            && (r.direction == Upwards <==> r.recentValue > r.baselineValue)
            && (r.direction == Downwards <==> r.recentValue < r.baselineValue)
  {
    hide Median, Baseline, Recent, Unit, GaugeOf, Beyond, Count, Tail, Hit, WarmingUp, Rises, RisingFraction;
    UnitIsScale(values, o);
    NotShort(values, o);
    SignOfScore(GaugeOf(values, o), Median(Recent(values, o)));
  }

  lemma SignOfScore(g: Gauge, v: real)
    requires g.scale > 0.0
    ensures Score(g, v) * g.scale == v - g.center
    ensures (Score(g, v) > 0.0 <==> v > g.center) && (Score(g, v) < 0.0 <==> v < g.center)
  {
    var q := (v - g.center) / g.scale;
    assert q * g.scale == v - g.center;
    ScaleOrder(g.scale, q, 0.0);
    ScaleOrder(g.scale, 0.0, q);
  }

  /** For latency, error rate and saturation a drop never alarms. */
  lemma NeverForADrop(values: seq<real>, o: Options)
    requires o.kind in {Latency, ErrorRate, Saturation} && o.threshold > 0.0 && Judge(values, o).isAnomaly
    ensures Judge(values, o).direction == Upwards && Judge(values, o).recentValue > Judge(values, o).baselineValue
  {
    hide Median, Baseline, Recent, GaugeOf, Count, Tail, WarmingUp, Rises, RisingFraction, Score, Unit;
    NotShort(values, o);
    SignOfScore(GaugeOf(values, o), Median(Recent(values, o)));
    ReportExact(values, o);
  }
}

/**
 * The robust anomaly detector (analysis/anomaly.ts): a median and MAD baseline, a
 * dwell rule and a trend detector, over exact reals.
 */
module Anomaly {
  import opened Prelude
  import opened Sorting

  // ----- Order statistics -----

  predicate Le(a: real, b: real) {
    a <= b
  }

  function Median(values: seq<real>): real {
    if values == [] then 0.0
    else
      var sorted := Sort(Le, values);
      var mid := |sorted| / 2;
      if |sorted| % 2 == 0 then (sorted[mid - 1] + sorted[mid]) / 2.0 else sorted[mid]
  }

  function Abs(x: real): real {
    if x >= 0.0 then x else -x
  }

  function Deviations(values: seq<real>, center: real): (r: seq<real>)
    ensures |r| == |values| && forall i :: 0 <= i < |r| ==> r[i] == Abs(values[i] - center)
  {
    seq(|values|, i requires 0 <= i < |values| => Abs(values[i] - center))
  }

  function Mad(values: seq<real>, center: Option<real>): real {
    if values == [] then 0.0
    else 1.4826 * Median(Deviations(values, if center.Some? then center.value else Median(values)))
  }

  /** The number of elements with the property. */
  function Count<T>(p: T -> bool, s: seq<T>): (n: nat)
    ensures n <= |s|
  {
    if s == [] then 0 else (if p(s[0]) then 1 else 0) + Count(p, s[1..])
  }

  function Below(m: real): real -> bool {
    x => x < m
  }

  function Above(m: real): real -> bool {
    x => x > m
  }

  lemma CountOfNone<T>(p: T -> bool)
    ensures Count(p, []) == 0
  {
  }

  lemma CountStep<T>(p: T -> bool, x: T, s: seq<T>)
    ensures Count(p, [x] + s) == (if p(x) then 1 else 0) + Count(p, s)
  {
    assert ([x] + s)[1..] == s;
  }

  lemma {:induction false} CountAppend<T>(p: T -> bool, a: seq<T>, b: seq<T>)
    ensures Count(p, a + b) == Count(p, a) + Count(p, b)
  {
    if a == [] {
      assert a + b == b;
    } else {
      assert (a + b)[1..] == a[1..] + b;
      CountAppend(p, a[1..], b);
    }
  }

  lemma {:induction false} CountNone<T>(p: T -> bool, s: seq<T>)
    requires forall i :: 0 <= i < |s| ==> !p(s[i])
    ensures Count(p, s) == 0
  {
    if s != [] {
      CountNone(p, s[1..]);
    }
  }

  lemma {:induction false} CountWeaker<T>(p: T -> bool, q: T -> bool, s: seq<T>)
    requires forall i :: 0 <= i < |s| && p(s[i]) ==> q(s[i])
    ensures Count(p, s) <= Count(q, s)
  {
    if s != [] {
      CountWeaker(p, q, s[1..]);
    }
  }

  /** Elements either have the property or do not. */
  lemma {:induction false} CountOpposite<T>(p: T -> bool, q: T -> bool, s: seq<T>)
    requires forall i :: 0 <= i < |s| ==> p(s[i]) != q(s[i])
    ensures Count(p, s) + Count(q, s) == |s|
  {
    if s != [] {
      CountOpposite(p, q, s[1..]);
    }
  }

  /** Only `touched` positions may lack the property. */
  lemma {:induction false} CountUntouched<T>(p: T -> bool, s: seq<T>, touched: set<nat>)
    requires forall i :: 0 <= i < |s| && i !in touched ==> p(s[i])
    ensures Count(p, s) >= |s| - |touched|
    decreases |s|
  {
    if s != [] {
      var n := |s| - 1;
      assert s == s[..n] + [s[n]];
      CountAppend(p, s[..n], [s[n]]);
      CountUntouched(p, s[..n], touched - {n});
    }
  }

  lemma {:induction false} CountInsert(p: real -> bool, x: real, s: seq<real>)
    ensures Count(p, Insert(Le, x, s)) == (if p(x) then 1 else 0) + Count(p, s)
  {
    if s != [] && !Le(x, s[0]) {
      CountInsert(p, x, s[1..]);
    }
  }

  lemma {:induction false} CountSort(p: real -> bool, s: seq<real>)
    ensures Count(p, Sort(Le, s)) == Count(p, s)
  {
    if s != [] {
      CountSort(p, s[1..]);
      CountInsert(p, s[0], Sort(Le, s[1..]));
    }
  }

  /** In an ordered list, fewer than `k + 1` elements lie below element `k`. */
  lemma CountBelowSorted(t: seq<real>, k: nat, m: real)
    requires Sorted(Le, t) && k <= |t| && (k < |t| ==> m <= t[k])
    ensures Count(Below(m), t) <= k
  {
    assert t == t[..k] + t[k..];
    CountAppend(Below(m), t[..k], t[k..]);
    forall i | k <= i < |t| ensures t[i] >= m {
      assert i == k || Le(t[k], t[i]);
    }
    CountNone(Below(m), t[k..]);
  }

  lemma CountAboveSorted(t: seq<real>, k: nat, m: real)
    requires Sorted(Le, t) && k <= |t| && (k > 0 ==> t[k - 1] <= m)
    ensures Count(Above(m), t) <= |t| - k
  {
    assert t == t[..k] + t[k..];
    CountAppend(Above(m), t[..k], t[k..]);
    forall i | 0 <= i < k ensures t[i] <= m {
      assert i == k - 1 || Le(t[i], t[k - 1]);
    }
    CountNone(Above(m), t[..k]);
  }

  /** At most half of the elements lie below the median, and at most half above. */
  lemma MedianSplits(s: seq<real>)
    ensures Count(Below(Median(s)), s) <= |s| / 2
    ensures Count(Above(Median(s)), s) <= |s| / 2
  {
    if s != [] {
      SortSorted(Le, s);
      var t, mid, m := Sort(Le, s), |s| / 2, Median(s);
      if |s| % 2 == 0 {
        assert Le(t[mid - 1], t[mid]);
        CountAboveSorted(t, mid, m);
      } else {
        CountAboveSorted(t, mid + 1, m);
      }
      CountBelowSorted(t, mid, m);
      CountSort(Below(m), s);
      CountSort(Above(m), s);
    }
  }

  /** A value with at most `j` elements below and at most `|s| - 1 - j` above stands at place `j` in order. */
  lemma SortedAt(s: seq<real>, j: nat, m: real)
    requires j < |s| && Count(Below(m), s) <= j && Count(Above(m), s) <= |s| - 1 - j
    ensures Sort(Le, s)[j] == m
  {
    var t := Sort(Le, s);
    SortSorted(Le, s);
    CountSort(Below(m), s);
    CountSort(Above(m), s);
    if t[j] > m {
      CountOpposite(Above(m), AtMost(m), t);
      AtMostSorted(t, j, m);
    } else if t[j] < m {
      CountOpposite(Below(m), AtLeast(m), t);
      AtLeastSorted(t, j + 1, m);
    }
  }

  /** A value with at most half of an odd number of elements on each side is the median. */
  lemma MedianByCount(s: seq<real>, m: real)
    requires |s| % 2 == 1
    requires Count(Below(m), s) <= |s| / 2 && Count(Above(m), s) <= |s| / 2
    ensures Median(s) == m
  {
    SortedAt(s, |s| / 2, m);
  }

  function AtMost(m: real): real -> bool {
    x => x <= m
  }

  function AtLeast(m: real): real -> bool {
    x => x >= m
  }

  lemma AtMostSorted(t: seq<real>, k: nat, m: real)
    requires Sorted(Le, t) && k < |t| && m < t[k]
    ensures Count(AtMost(m), t) <= k
  {
    CountBelowSorted(t, k, t[k]);
    CountWeaker(AtMost(m), Below(t[k]), t);
  }

  lemma AtLeastSorted(t: seq<real>, k: nat, m: real)
    requires Sorted(Le, t) && 0 < k <= |t| && t[k - 1] < m
    ensures Count(AtLeast(m), t) <= |t| - k
  {
    CountAboveSorted(t, k, t[k - 1]);
    CountWeaker(AtLeast(m), Above(t[k - 1]), t);
  }

  /**
   * With fewer than half of the positions tampered with, the median stays between two
   * values that were not.
   */
  lemma MedianResists(s: seq<real>, touched: set<nat>)
    requires 2 * |touched| < |s|
    ensures exists i :: 0 <= i < |s| && i !in touched && s[i] <= Median(s)
    ensures exists i :: 0 <= i < |s| && i !in touched && s[i] >= Median(s)
  {
    var m := Median(s);
    MedianSplits(s);
    if forall i :: 0 <= i < |s| && i !in touched ==> s[i] > m {
      CountUntouched(Above(m), s, touched);
      assert false;
    }
    if forall i :: 0 <= i < |s| && i !in touched ==> s[i] < m {
      CountUntouched(Below(m), s, touched);
      assert false;
    }
  }

  // ----- Rescaling -----

  function Affine(a: real, b: real, x: real): real {
    a * x + b
  }

  function Rescale(a: real, b: real, s: seq<real>): (r: seq<real>)
    ensures |r| == |s| && forall i :: 0 <= i < |s| ==> r[i] == Affine(a, b, s[i])
  {
    seq(|s|, i requires 0 <= i < |s| => Affine(a, b, s[i]))
  }

  lemma ScaleOrder(a: real, x: real, y: real)
    requires a > 0.0
    ensures x <= y <==> a * x <= a * y
  {
  }

  lemma AffineOrder(a: real, b: real, x: real, y: real)
    requires a > 0.0
    ensures x <= y <==> Affine(a, b, x) <= Affine(a, b, y)
  {
    ScaleOrder(a, x, y);
  }

  lemma RescaleStep(a: real, b: real, x: real, s: seq<real>)
    ensures Rescale(a, b, [x] + s) == [Affine(a, b, x)] + Rescale(a, b, s)
  {
  }

  lemma RescaleNone(a: real, b: real)
    ensures Rescale(a, b, []) == []
  {
  }

  lemma {:induction false} InsertRescaled(a: real, b: real, x: real, s: seq<real>)
    requires a > 0.0
    ensures Insert(Le, Affine(a, b, x), Rescale(a, b, s)) == Rescale(a, b, Insert(Le, x, s))
  {
    hide Affine, Rescale, Insert;
    if s == [] {
      InsertNone(Le, x);
      InsertNone(Le, Affine(a, b, x));
      RescaleNone(a, b);
      RescaleStep(a, b, x, []);
    } else {
      var y, rest := s[0], s[1..];
      assert s == [y] + rest;
      RescaleStep(a, b, y, rest);
      AffineOrder(a, b, x, y);
      InsertStep(Le, x, y, rest);
      InsertStep(Le, Affine(a, b, x), Affine(a, b, y), Rescale(a, b, rest));
      if Le(x, y) {
        RescaleStep(a, b, x, s);
      } else {
        InsertRescaled(a, b, x, rest);
        RescaleStep(a, b, y, Insert(Le, x, rest));
      }
    }
  }

  lemma {:induction false} SortRescaled(a: real, b: real, s: seq<real>)
    requires a > 0.0
    ensures Sort(Le, Rescale(a, b, s)) == Rescale(a, b, Sort(Le, s))
  {
    hide Affine, Insert, Rescale;
    if s == [] {
      RescaleNone(a, b);
    } else {
      var x, rest := s[0], s[1..];
      assert s == [x] + rest;
      RescaleStep(a, b, x, rest);
      SortStep(Le, x, rest);
      SortStep(Le, Affine(a, b, x), Rescale(a, b, rest));
      SortRescaled(a, b, rest);
      InsertRescaled(a, b, x, Sort(Le, rest));
    }
  }

  lemma AffineMiddle(a: real, b: real, x: real, y: real)
    ensures (Affine(a, b, x) + Affine(a, b, y)) / 2.0 == Affine(a, b, (x + y) / 2.0)
  {
    var h := (x + y) / 2.0;
    assert a * x + a * y == a * (x + y) == a * (2.0 * h);
  }

  /** The median moves with the values. */
  lemma MedianRescaled(a: real, b: real, s: seq<real>)
    requires a > 0.0 && s != []
    ensures Median(Rescale(a, b, s)) == Affine(a, b, Median(s))
  {
    hide Affine, Sort;
    SortRescaled(a, b, s);
    var t, mid := Sort(Le, s), |s| / 2;
    if |s| % 2 == 0 {
      AffineMiddle(a, b, t[mid - 1], t[mid]);
    }
  }

  lemma AbsRescaled(a: real, b: real, x: real, c: real)
    requires a > 0.0
    ensures Abs(Affine(a, b, x) - Affine(a, b, c)) == Affine(a, 0.0, Abs(x - c))
  {
    assert a * x - a * c == a * (x - c);
    ScaleOrder(a, 0.0, x - c);
    assert a * (-(x - c)) == -(a * (x - c));
  }

  /** The MAD only feels the factor. */
  lemma MadRescaled(a: real, b: real, s: seq<real>, c: real)
    requires a > 0.0
    ensures Mad(Rescale(a, b, s), Some(Affine(a, b, c))) == a * Mad(s, Some(c))
  {
    hide Affine, Abs, Median;
    if s != [] {
      var d, d' := Deviations(s, c), Deviations(Rescale(a, b, s), Affine(a, b, c));
      forall i | 0 <= i < |s| ensures d'[i] == Affine(a, 0.0, d[i]) {
        AbsRescaled(a, b, s[i], c);
      }
      assert d' == Rescale(a, 0.0, d);
      MedianRescaled(a, 0.0, d);
      AffineOrigin(a, Median(d));
      Commute(a, 1.4826, Median(d));
    }
  }

  lemma AffineOrigin(a: real, x: real)
    ensures Affine(a, 0.0, x) == a * x
  {
  }

  lemma Commute(a: real, b: real, c: real)
    ensures b * (a * c) == a * (b * c)
  {
  }

  /** Division undoes the factor and the shift. */
  lemma RatioRescaled(a: real, b: real, x: real, y: real, s: real)
    requires a > 0.0 && s > 0.0
    ensures a * s > 0.0
    ensures (Affine(a, b, x) - Affine(a, b, y)) / (a * s) == (x - y) / s
  {
    var q := (x - y) / s;
    assert q * s == x - y;
    assert Affine(a, b, x) - Affine(a, b, y) == a * (x - y);
    Commute(a, q, s);
    QuotientOf(a * s, q, a * (x - y));
  }

  lemma QuotientOf(d: real, q: real, n: real)
    requires d > 0.0 && q * d == n
    ensures n / d == q
  {
    var r := n / d;
    assert r * d == n;
    if r != q {
      assert (r - q) * d == 0.0;
    }
  }

  // ----- The detector -----

  datatype MetricKind = Latency | ErrorRate | Saturation | Throughput | Generic

  datatype Options = Options(
    minSamples: int := 15, recentWindow: int := 5, threshold: real := 3.0, dwell: int := 2, kind: MetricKind := Generic)

  datatype Detection = ByRobustZ | ByTrend | Undetected

  datatype Direction = Upwards | Downwards | Flat

  datatype Verdict = Verdict(
    isAnomaly: bool, score: real, how: Detection, direction: Direction, recentValue: real, baselineValue: real)

  const WARMUP := Verdict(false, 0.0, Undetected, Flat, 0.0, 0.0)

  /** A slice to the end from `start`, counted from the end when negative; from minus zero it is everything. */
  function SliceFrom<T>(values: seq<T>, start: int): (r: seq<T>)
    ensures |r| <= |values| && r == values[|values| - |r|..]
  {
    if start >= |values| then []
    else if start >= 0 then values[start..]
    else if start >= -|values| then values[|values| + start..]
    else values
  }

  function Recent(values: seq<real>, o: Options): seq<real> {
    SliceFrom(values, -o.recentWindow)
  }

  function BaselineLength(n: nat, o: Options): (k: nat)
    ensures k <= n
  {
    Min(n, Max(n / 2, n - o.recentWindow * 3))
  }

  function Baseline(values: seq<real>, o: Options): seq<real> {
    values[..BaselineLength(|values|, o)]
  }

  predicate WarmingUp(n: nat, o: Options) {
    n < Max(o.minSamples, o.recentWindow * 3) || BaselineLength(n, o) < 3
  }

  predicate OneSided(kind: MetricKind) {
    kind.ErrorRate? || kind.Latency? || kind.Saturation?
  }

  function BaseMad(values: seq<real>, o: Options): real {
    Mad(Baseline(values, o), Some(Median(Baseline(values, o))))
  }

  function LargerOf(x: real, y: real): real {
    if x >= y then x else y
  }

  function ScaleFor(median: real, mad: real): (scale: real)
    ensures scale > 0.0
  {
    if mad > 0.0 then mad else LargerOf(Abs(median) * 0.001, 0.000000001)
  }

  /** What the thresholds are compared with: the centre and the unit of the robust score. */
  datatype Gauge = Gauge(center: real, scale: real)

  function GaugeOf(values: seq<real>, o: Options): (g: Gauge)
    ensures g.scale > 0.0
  {
    var center := Median(Baseline(values, o));
    Gauge(center, ScaleFor(center, BaseMad(values, o)))
  }

  function Score(g: Gauge, v: real): real
    requires g.scale > 0.0
  {
    (v - g.center) / g.scale
  }

  predicate Beyond(o: Options, z: real) {
    if OneSided(o.kind) then z >= o.threshold else Abs(z) >= o.threshold
  }

  function Breaches(o: Options, g: Gauge): real -> bool
    requires g.scale > 0.0
  {
    v => Beyond(o, Score(g, v))
  }

  function Tail(values: seq<real>, o: Options): seq<real> {
    SliceFrom(values, -o.dwell)
  }

  predicate Hit(values: seq<real>, o: Options) {
    var g := GaugeOf(values, o);
    Beyond(o, Score(g, Median(Recent(values, o)))) && Count(Breaches(o, g), Tail(values, o)) >= o.dwell
  }

  /** The number of steps on which the series rises. */
  function Rises(values: seq<real>): (n: nat)
    ensures values != [] ==> n < |values|
  {
    var k := |values| - 1;
    if k < 1 then 0 else Rises(values[..k]) + (if values[k] > values[k - 1] then 1 else 0)
  }

  function RisingFraction(ups: nat, n: nat): real
    requires n >= 2
  {
    ups as real / (n - 1) as real
  }

  predicate Climbs(values: seq<real>, o: Options)
    requires |values| >= 2
  {
    && (o.kind.Saturation? || o.kind.Latency?) && |values| >= o.minSamples
    && RisingFraction(Rises(values), |values|) >= 0.7
    && Score(GaugeOf(values, o), Median(Recent(values, o))) >= 2.0
  }

  function DirectionOf(z: real): Direction {
    if z > 0.0 then Upwards else if z < 0.0 then Downwards else Flat
  }

  function Judge(values: seq<real>, o: Options): Verdict {
    if WarmingUp(|values|, o) then WARMUP
    else
      var g, recent := GaugeOf(values, o), Median(Recent(values, o));
      var z := Score(g, recent);
      if Hit(values, o) then Verdict(true, z, ByRobustZ, DirectionOf(z), recent, g.center)
      else if Climbs(values, o) then Verdict(true, z, ByTrend, Upwards, recent, g.center)
      else Verdict(false, z, Undetected, DirectionOf(z), recent, g.center)
  }

  method CountRises(values: seq<real>) returns (ups: nat)
    ensures ups == Rises(values)
  {
    ups := 0;
    var i := 1;
    while i < |values|
      invariant i >= 1 && ups == Rises(values[..Min(i, |values|)])
    {
      assert values[..i + 1][..i] == values[..i];
      if values[i] > values[i - 1] {
        ups := ups + 1;
      }
      i := i + 1;
    }
    assert values[..|values|] == values;
  }

  method DetectRobustAnomaly(values: seq<real>, o: Options) returns (r: Verdict)
    ensures r == Judge(values, o)
  {
    hide Median, Count, Mad, Rises, Score, Beyond, ScaleFor, DirectionOf, RisingFraction, SliceFrom;
    if |values| < Max(o.minSamples, o.recentWindow * 3) {
      return WARMUP;
    }
    var recent := SliceFrom(values, -o.recentWindow);
    var baselineEnd := Max(|values| / 2, |values| - o.recentWindow * 3);
    var baseline := values[..Min(|values|, baselineEnd)];
    if |baseline| < 3 {
      return WARMUP;
    }
    var baseMed := Median(baseline);
    var baseMad := Mad(baseline, Some(baseMed));
    var recentMed := Median(recent);
    var gauge := Gauge(baseMed, ScaleFor(baseMed, baseMad));
    var z := Score(gauge, recentMed);
    var breaches := Count(Breaches(o, gauge), SliceFrom(values, -o.dwell));
    var zHit := Beyond(o, z) && breaches >= o.dwell;
    var trendHit := false;
    if !zHit && (o.kind.Saturation? || o.kind.Latency?) && |values| >= o.minSamples {
      var ups := CountRises(values);
      trendHit := RisingFraction(ups, |values|) >= 0.7 && z >= 2.0;
    }
    if zHit {
      return Verdict(true, z, ByRobustZ, DirectionOf(z), recentMed, baseMed);
    }
    if trendHit {
      return Verdict(true, z, ByTrend, Upwards, recentMed, baseMed);
    }
    return Verdict(false, z, Undetected, DirectionOf(z), recentMed, baseMed);
  }

  // ----- Rescaling the series -----

  lemma SliceRescaled(a: real, b: real, values: seq<real>, start: int)
    ensures SliceFrom(Rescale(a, b, values), start) == Rescale(a, b, SliceFrom(values, start))
  {
    hide SliceFrom, Rescale, Affine;
    SameSlice(Rescale(a, b, values), values, start);
    DropRescaled(a, b, values, |values| - |SliceFrom(values, start)|);
  }

  lemma SameSlice<T, U>(s: seq<T>, t: seq<U>, start: int)
    requires |s| == |t|
    ensures |SliceFrom(s, start)| == |SliceFrom(t, start)|
  {
  }

  lemma DropRescaled(a: real, b: real, values: seq<real>, k: nat)
    requires k <= |values|
    ensures Rescale(a, b, values)[k..] == Rescale(a, b, values[k..])
  {
    hide Affine;
  }

  lemma BaselineRescaled(a: real, b: real, values: seq<real>, o: Options)
    ensures Baseline(Rescale(a, b, values), o) == Rescale(a, b, Baseline(values, o))
  {
  }

  lemma {:induction false} RisesRescaled(a: real, b: real, values: seq<real>)
    requires a > 0.0
    ensures Rises(Rescale(a, b, values)) == Rises(values)
    decreases |values|
  {
    hide Affine;
    var k := |values| - 1;
    if k >= 1 {
      RisesRescaled(a, b, values[..k]);
      assert Rescale(a, b, values)[..k] == Rescale(a, b, values[..k]);
      AffineOrder(a, b, values[k], values[k - 1]);
    }
  }

  lemma {:induction false} BreachesRescaled(a: real, b: real, o: Options, g: Gauge, s: seq<real>)
    requires a > 0.0 && g.scale > 0.0
    ensures a * g.scale > 0.0
    ensures var g' := Gauge(Affine(a, b, g.center), a * g.scale);
            Count(Breaches(o, g'), Rescale(a, b, s)) == Count(Breaches(o, g), s)
  {
    hide Affine, Beyond, Rescale, Count;
    ScaleOrder(a, g.scale, 0.0);
    var g' := Gauge(Affine(a, b, g.center), a * g.scale);
    if s == [] {
      RescaleNone(a, b);
      CountOfNone(Breaches(o, g));
      CountOfNone(Breaches(o, g'));
    } else {
      assert s == [s[0]] + s[1..];
      RescaleStep(a, b, s[0], s[1..]);
      RatioRescaled(a, b, s[0], g.center, g.scale);
      assert Score(g', Affine(a, b, s[0])) == Score(g, s[0]);
      assert Breaches(o, g')(Affine(a, b, s[0])) == Breaches(o, g)(s[0]);
      BreachesRescaled(a, b, o, g, s[1..]);
      CountStep(Breaches(o, g), s[0], s[1..]);
      CountStep(Breaches(o, g'), Affine(a, b, s[0]), Rescale(a, b, s[1..]));
    }
  }

  lemma MadOfNone()
    ensures forall c :: Mad([], c) == 0.0
  {
  }

  lemma GaugeRescaled(a: real, b: real, values: seq<real>, o: Options)
    requires a > 0.0 && BaseMad(values, o) > 0.0
    ensures var g := GaugeOf(values, o);
            GaugeOf(Rescale(a, b, values), o) == Gauge(Affine(a, b, g.center), a * g.scale)
  {
    hide Affine, Median, Mad, Baseline;
    var base := Baseline(values, o);
    MadOfNone();
    BaselineRescaled(a, b, values, o);
    MedianRescaled(a, b, base);
    MadRescaled(a, b, base, Median(base));
    ScaleOrder(a, BaseMad(values, o), 0.0);
  }

  /**
   * Over a baseline that varies, the verdict does not depend on the unit or the origin
   * of the metric.
   */
  lemma UnitInvariant(a: real, b: real, values: seq<real>, o: Options)
    requires a > 0.0
    requires WarmingUp(|values|, o) || (Recent(values, o) != [] && BaseMad(values, o) > 0.0)
    ensures var r, r' := Judge(values, o), Judge(Rescale(a, b, values), o);
            && r'.isAnomaly == r.isAnomaly && r'.how == r.how && r'.score == r.score && r'.direction == r.direction
            && (!WarmingUp(|values|, o) ==>
                  r'.recentValue == Affine(a, b, r.recentValue) && r'.baselineValue == Affine(a, b, r.baselineValue))
  {
    hide Affine, Rescale, Median, GaugeOf, BaseMad, Hit, Climbs, Recent, WarmingUp, Score, DirectionOf;
    if !WarmingUp(|values|, o) {
      GaugeRescaled(a, b, values, o);
      ScoreRescaled(a, b, values, o);
      HitRescaled(a, b, values, o);
      LongEnough(|values|, o);
      ClimbsRescaled(a, b, values, o);
    }
  }

  lemma LongEnough(n: nat, o: Options)
    requires !WarmingUp(n, o)
    ensures n >= 3
  {
  }

  lemma ScoreRescaled(a: real, b: real, values: seq<real>, o: Options)
    requires a > 0.0 && Recent(values, o) != [] && BaseMad(values, o) > 0.0
    ensures var values' := Rescale(a, b, values);
            && Median(Recent(values', o)) == Affine(a, b, Median(Recent(values, o)))
            && Score(GaugeOf(values', o), Median(Recent(values', o)))
               == Score(GaugeOf(values, o), Median(Recent(values, o)))
  {
    hide Affine, Rescale, Median, GaugeOf, BaseMad, SliceFrom;
    var g := GaugeOf(values, o);
    GaugeRescaled(a, b, values, o);
    SliceRescaled(a, b, values, -o.recentWindow);
    MedianRescaled(a, b, Recent(values, o));
    RatioRescaled(a, b, Median(Recent(values, o)), g.center, g.scale);
  }

  lemma HitRescaled(a: real, b: real, values: seq<real>, o: Options)
    requires a > 0.0 && Recent(values, o) != [] && BaseMad(values, o) > 0.0
    ensures Hit(Rescale(a, b, values), o) == Hit(values, o)
  {
    hide Affine, Rescale, Median, GaugeOf, BaseMad, SliceFrom, Recent, Score, Beyond, Count, Breaches;
    ScoreRescaled(a, b, values, o);
    GaugeRescaled(a, b, values, o);
    SliceRescaled(a, b, values, -o.dwell);
    BreachesRescaled(a, b, o, GaugeOf(values, o), Tail(values, o));
  }

  lemma ClimbsRescaled(a: real, b: real, values: seq<real>, o: Options)
    requires a > 0.0 && Recent(values, o) != [] && BaseMad(values, o) > 0.0 && |values| >= 2
    ensures Climbs(Rescale(a, b, values), o) == Climbs(values, o)
  {
    hide Affine, Rescale, Median, GaugeOf, BaseMad, Recent, Score, Rises, RisingFraction;
    ScoreRescaled(a, b, values, o);
    RisesRescaled(a, b, values);
  }

  // ----- Resistance to outliers -----

  /** Tampering with fewer than half of the baseline points leaves the baseline among the others. */
  lemma BaselineResists(values: seq<real>, tampered: seq<real>, o: Options, touched: set<nat>)
    requires !WarmingUp(|values|, o) && |tampered| == |values|
    requires forall i :: 0 <= i < BaselineLength(|values|, o) && i !in touched ==> tampered[i] == values[i]
    requires 2 * |touched| < BaselineLength(|values|, o)
    ensures exists i :: 0 <= i < BaselineLength(|values|, o) && i !in touched
                        && values[i] <= Judge(tampered, o).baselineValue
    ensures exists i :: 0 <= i < BaselineLength(|values|, o) && i !in touched
                        && values[i] >= Judge(tampered, o).baselineValue
  {
    hide Median, Hit, Climbs;
    var base := Baseline(tampered, o);
    MedianResists(base, touched);
    var low :| 0 <= low < |base| && low !in touched && base[low] <= Median(base);
    var high :| 0 <= high < |base| && high !in touched && base[high] >= Median(base);
    assert values[low] == base[low] && values[high] == base[high];
  }

  function ScoresAtLeast(g: Gauge, t: real): real -> bool
    requires g.scale > 0.0
  {
    v => Score(g, v) >= t
  }

  function ScoresAtMost(g: Gauge, t: real): real -> bool
    requires g.scale > 0.0
  {
    v => Score(g, v) <= t
  }

  lemma RatioAtLeast(x: real, s: real, t: real)
    requires s > 0.0
    ensures x / s >= t <==> x >= t * s
  {
    var q := x / s;
    assert q * s == x;
    ScaleOrder(s, t, q);
  }

  lemma ScoreOrder(g: Gauge, v: real, w: real)
    requires g.scale > 0.0 && v <= w
    ensures Score(g, v) <= Score(g, w)
  {
    RatioAtLeast(w - g.center, g.scale, Score(g, v));
    RatioAtLeast(v - g.center, g.scale, Score(g, v));
  }

  lemma HalfScoreAtLeast(g: Gauge, s: seq<real>)
    requires g.scale > 0.0
    ensures Count(ScoresAtLeast(g, Score(g, Median(s))), s) >= (|s| + 1) / 2
    ensures Count(ScoresAtMost(g, Score(g, Median(s))), s) >= (|s| + 1) / 2
  {
    hide Median, Score;
    var m := Median(s);
    MedianSplits(s);
    CountOpposite(Below(m), AtLeast(m), s);
    CountOpposite(Above(m), AtMost(m), s);
    forall i | 0 <= i < |s| && s[i] >= m ensures Score(g, s[i]) >= Score(g, m) {
      ScoreOrder(g, m, s[i]);
    }
    forall i | 0 <= i < |s| && s[i] <= m ensures Score(g, s[i]) <= Score(g, m) {
      ScoreOrder(g, s[i], m);
    }
    CountWeaker(AtLeast(m), ScoresAtLeast(g, Score(g, m)), s);
    CountWeaker(AtMost(m), ScoresAtMost(g, Score(g, m)), s);
  }

  lemma {:induction false} CountFull<T>(p: T -> bool, s: seq<T>)
    requires Count(p, s) >= |s|
    ensures forall i :: 0 <= i < |s| ==> p(s[i])
  {
    if s != [] {
      CountFull(p, s[1..]);
    }
  }

  lemma {:induction false} CountAll<T>(p: T -> bool, s: seq<T>)
    requires forall i :: 0 <= i < |s| ==> p(s[i])
    ensures Count(p, s) == |s|
  {
    if s != [] {
      CountAll(p, s[1..]);
    }
  }

  /**
   * A spike is not enough: a robust-z anomaly has half of the recent window (rounded up)
   * beyond the threshold on one side, and each of the last `dwell` points beyond it.
   */
  lemma HitNeedsMajority(values: seq<real>, o: Options)
    requires Judge(values, o).how == ByRobustZ
    ensures var g, recent := GaugeOf(values, o), Recent(values, o);
            || Count(ScoresAtLeast(g, o.threshold), recent) >= (|recent| + 1) / 2
            || (!OneSided(o.kind) && Count(ScoresAtMost(g, -o.threshold), recent) >= (|recent| + 1) / 2)
    ensures 0 < o.dwell <= |values| ==>
              forall i :: |values| - o.dwell <= i < |values| ==> Beyond(o, Score(GaugeOf(values, o), values[i]))
  {
    hide Median, GaugeOf, Score;
    var g, recent := GaugeOf(values, o), Recent(values, o);
    var z := Score(g, Median(recent));
    HalfScoreAtLeast(g, recent);
    if z >= o.threshold {
      CountWeaker(ScoresAtLeast(g, z), ScoresAtLeast(g, o.threshold), recent);
    } else {
      CountWeaker(ScoresAtMost(g, z), ScoresAtMost(g, -o.threshold), recent);
    }
    if 0 < o.dwell <= |values| {
      var tail := Tail(values, o);
      CountFull(Breaches(o, g), tail);
      forall i | |values| - o.dwell <= i < |values| ensures Beyond(o, Score(g, values[i])) {
        assert values[i] == tail[i - (|values| - o.dwell)];
      }
    }
  }

  /** A sustained shift is enough: when all recent points are beyond the threshold, it fires. */
  lemma SustainedShiftFires(values: seq<real>, o: Options)
    requires !WarmingUp(|values|, o) && 1 <= o.dwell <= o.recentWindow
    requires forall i :: |values| - o.recentWindow <= i < |values| ==>
               0 <= i && Score(GaugeOf(values, o), values[i]) >= o.threshold
    ensures Judge(values, o).how == ByRobustZ
  {
    hide Median, GaugeOf, Score, Count, Climbs, SliceFrom;
    var g, recent := GaugeOf(values, o), Recent(values, o);
    LastPoints(values, o.recentWindow);
    MedianResists(recent, {});
    var low :| 0 <= low < |recent| && recent[low] <= Median(recent);
    ScoreOrder(g, recent[low], Median(recent));
    AllBreach(values, o);
  }

  lemma LastPoints(values: seq<real>, n: int)
    requires 1 <= n <= |values|
    ensures SliceFrom(values, -n) == values[|values| - n..]
  {
  }

  lemma AllBreach(values: seq<real>, o: Options)
    requires 1 <= o.dwell <= |values|
    requires forall i :: |values| - o.dwell <= i < |values| ==> Score(GaugeOf(values, o), values[i]) >= o.threshold
    ensures Count(Breaches(o, GaugeOf(values, o)), Tail(values, o)) >= o.dwell
  {
    hide Median, GaugeOf, Score, Count, SliceFrom;
    LastPoints(values, o.dwell);
    CountAll(Breaches(o, GaugeOf(values, o)), values[|values| - o.dwell..]);
  }

  // ----- Slow ramps -----

  function Ramp(n: nat): (r: seq<real>)
    ensures |r| == n && forall i :: 0 <= i < n ==> r[i] == i as real
  {
    seq(n, i => i as real)
  }

  lemma {:induction false} RampRises(n: nat)
    ensures Rises(Ramp(n)) == if n == 0 then 0 else n - 1
  {
    if n >= 2 {
      RampRises(n - 1);
      assert Ramp(n)[..n - 1] == Ramp(n - 1);
    }
  }

  lemma CountThree<T>(p: T -> bool, a: seq<T>, b: seq<T>, c: seq<T>)
    ensures Count(p, a + b + c) == Count(p, a) + Count(p, b) + Count(p, c)
  {
    CountAppend(p, a + b, c);
    CountAppend(p, a, b);
  }

  lemma CountInside<T>(p: T -> bool, s: seq<T>, lo: nat, hi: nat)
    requires lo <= hi <= |s| && forall i :: 0 <= i < |s| && p(s[i]) ==> lo <= i < hi
    ensures Count(p, s) <= hi - lo
  {
    hide Count;
    assert s == s[..lo] + s[lo..hi] + s[hi..];
    CountThree(p, s[..lo], s[lo..hi], s[hi..]);
    CountNone(p, s[..lo]);
    CountNone(p, s[hi..]);
  }

  lemma CountOutside<T>(p: T -> bool, s: seq<T>, lo: nat, hi: nat)
    requires lo <= hi <= |s| && forall i :: lo <= i < hi ==> !p(s[i])
    ensures Count(p, s) <= |s| - (hi - lo)
  {
    hide Count;
    assert s == s[..lo] + s[lo..hi] + s[hi..];
    CountThree(p, s[..lo], s[lo..hi], s[hi..]);
    CountNone(p, s[lo..hi]);
  }

  function RampCenter(k: nat): real {
    (k - 1) as real / 2.0
  }

  /** Twice the median deviation of a ramp of `k` points. */
  function RampSpread(k: nat): nat {
    k / 2 + (if k % 4 == 3 then 1 else 0)
  }

  lemma MiddleOfSorted(t: seq<real>)
    requires Sorted(Le, t) && t != []
    ensures Median(t) == if |t| % 2 == 0 then (t[|t| / 2 - 1] + t[|t| / 2]) / 2.0 else t[|t| / 2]
  {
    SortOfSorted(Le, t);
  }

  lemma RampMedian(k: nat)
    requires k >= 1
    ensures Median(Ramp(k)) == RampCenter(k)
  {
    hide Median;
    MiddleOfSorted(Ramp(k));
  }

  function TwiceAway(i: int, k: nat): int {
    if 2 * i >= k - 1 then 2 * i - (k - 1) else k - 1 - 2 * i
  }

  lemma DeviationAt(i: nat, k: nat)
    ensures Abs(i as real - RampCenter(k)) == TwiceAway(i, k) as real / 2.0
  {
  }

  lemma HalfOrder(a: int, b: int)
    ensures a as real / 2.0 < b as real / 2.0 <==> a < b
  {
  }

  lemma AwayFrom(i: nat, k: nat, e: nat, a: nat, b: nat, c: nat, d: nat)
    requires 2 * (a - 1) <= k - 1 - e && 2 * b >= k - 1 + e
    requires 2 * c >= k - 1 - e && 2 * (d - 1) <= k - 1 + e
    ensures TwiceAway(i, k) < e ==> a <= i < b
    ensures c <= i < d ==> TwiceAway(i, k) <= e
  {
  }

  /** With few points nearer than `e` and few farther, `e` is twice the deviation at place `j`. */
  lemma DeviationRank(k: nat, j: nat, e: nat, a: nat, b: nat, c: nat, d: nat)
    requires j < k && a <= b <= k && c <= d <= k && b - a <= j && d - c >= j + 1
    requires 2 * (a - 1) <= k - 1 - e && 2 * b >= k - 1 + e
    requires 2 * c >= k - 1 - e && 2 * (d - 1) <= k - 1 + e
    ensures Sort(Le, Deviations(Ramp(k), RampCenter(k)))[j] == e as real / 2.0
  {
    hide Sort, Count, Deviations, Ramp, Abs, TwiceAway, RampCenter;
    var s, m := Deviations(Ramp(k), RampCenter(k)), e as real / 2.0;
    forall i | 0 <= i < k
      ensures s[i] < m ==> a <= i < b
      ensures c <= i < d ==> s[i] <= m
    {
      AwayFrom(i, k, e, a, b, c, d);
      DeviationAt(i, k);
      HalfOrder(TwiceAway(i, k), e);
      HalfOrder(e, TwiceAway(i, k));
    }
    CountInside(Below(m), s, a, b);
    CountOutside(Above(m), s, c, d);
    SortedAt(s, j, m);
  }

  lemma MedianOfPlaces(s: seq<real>, low: real, high: real)
    requires s != []
    requires Sort(Le, s)[|s| / 2] == high && (|s| % 2 == 0 ==> Sort(Le, s)[|s| / 2 - 1] == low)
    ensures Median(s) == if |s| % 2 == 0 then (low + high) / 2.0 else high
  {
  }

  lemma RampDeviations0(q: nat)
    requires q >= 1
    ensures Median(Deviations(Ramp(4 * q), RampCenter(4 * q))) == RampSpread(4 * q) as real / 2.0
  {
    hide Median, Sort, Deviations, Ramp, RampCenter;
    var k := 4 * q;
    DeviationRank(k, 2 * q - 1, 2 * q - 1, q + 1, 3 * q - 1, q, 3 * q);
    DeviationRank(k, 2 * q, 2 * q + 1, q, 3 * q, q - 1, 3 * q + 1);
    MedianOfPlaces(Deviations(Ramp(k), RampCenter(k)), (2 * q - 1) as real / 2.0, (2 * q + 1) as real / 2.0);
  }

  lemma RampDeviations1(q: nat)
    requires q >= 1
    ensures Median(Deviations(Ramp(4 * q + 1), RampCenter(4 * q + 1))) == RampSpread(4 * q + 1) as real / 2.0
  {
    hide Median, Sort, Deviations, Ramp, RampCenter;
    var k := 4 * q + 1;
    DeviationRank(k, 2 * q, 2 * q, q + 1, 3 * q, q, 3 * q + 1);
    MedianOfPlaces(Deviations(Ramp(k), RampCenter(k)), 0.0, (2 * q) as real / 2.0);
  }

  lemma RampDeviations2(q: nat)
    requires q >= 1
    ensures Median(Deviations(Ramp(4 * q + 2), RampCenter(4 * q + 2))) == RampSpread(4 * q + 2) as real / 2.0
  {
    hide Median, Sort, Deviations, Ramp, RampCenter;
    var k := 4 * q + 2;
    DeviationRank(k, 2 * q, 2 * q + 1, q + 1, 3 * q + 1, q, 3 * q + 2);
    DeviationRank(k, 2 * q + 1, 2 * q + 1, q + 1, 3 * q + 1, q, 3 * q + 2);
    MedianOfPlaces(Deviations(Ramp(k), RampCenter(k)), (2 * q + 1) as real / 2.0, (2 * q + 1) as real / 2.0);
  }

  lemma RampDeviations3(q: nat)
    requires q >= 1
    ensures Median(Deviations(Ramp(4 * q + 3), RampCenter(4 * q + 3))) == RampSpread(4 * q + 3) as real / 2.0
  {
    hide Median, Sort, Deviations, Ramp, RampCenter;
    var k := 4 * q + 3;
    DeviationRank(k, 2 * q + 1, 2 * q + 2, q + 1, 3 * q + 2, q, 3 * q + 3);
    MedianOfPlaces(Deviations(Ramp(k), RampCenter(k)), 0.0, (2 * q + 2) as real / 2.0);
  }

  /** Half of the points of a ramp lie within a quarter of its length from the middle. */
  lemma RampDeviations(k: nat)
    requires k >= 4
    ensures Median(Deviations(Ramp(k), RampCenter(k))) == RampSpread(k) as real / 2.0
  {
    hide *;
    var q := k / 4;
    if k % 4 == 0 {
      RampDeviations0(q);
    } else if k % 4 == 1 {
      RampDeviations1(q);
    } else if k % 4 == 2 {
      RampDeviations2(q);
    } else {
      RampDeviations3(q);
    }
  }

  /** How many points of a series of `n` make the default baseline. */
  function RampBase(n: nat): nat {
    if n <= 30 then n / 2 else n - 15
  }

  lemma RampWindows(n: nat, o: Options)
    requires n >= 15 && o == Options(kind := o.kind)
    ensures !WarmingUp(n, o) && RampBase(n) >= 7 && Baseline(Ramp(n), o) == Ramp(RampBase(n))
    ensures Recent(Ramp(n), o) == Ramp(n)[n - 5..]
  {
  }

  lemma MadOf(values: seq<real>, center: real)
    requires values != []
    ensures Mad(values, Some(center)) == 1.4826 * Median(Deviations(values, center))
  {
  }

  lemma RampRecent(n: nat)
    requires n >= 5
    ensures Median(Ramp(n)[n - 5..]) == (n - 3) as real
  {
    hide Median;
    MiddleOfSorted(Ramp(n)[n - 5..]);
  }

  lemma RampGauge(n: nat, o: Options)
    requires n >= 15 && o == Options(kind := o.kind)
    ensures var k := RampBase(n);
            && GaugeOf(Ramp(n), o) == Gauge(RampCenter(k), 1.4826 * (RampSpread(k) as real / 2.0))
            && BaseMad(Ramp(n), o) > 0.0
            && Recent(Ramp(n), o) != [] && Median(Recent(Ramp(n), o)) == (n - 3) as real
  {
    hide Median, Mad, Baseline, Recent, Ramp, RampCenter, Deviations;
    var k := RampBase(n);
    RampWindows(n, o);
    RampMedian(k);
    MadOf(Ramp(k), RampCenter(k));
    RampDeviations(k);
    RampRecent(n);
  }

  /** The score of a ramp, as a comparison of whole numbers. */
  lemma RampScore(n: nat, o: Options, t: nat)
    requires n >= 15 && o == Options(kind := o.kind)
    ensures var k := RampBase(n);
            Score(GaugeOf(Ramp(n), o), Median(Recent(Ramp(n), o))) >= t as real
            <==> 10000 * (2 * n - 5 - k) >= 14826 * t * RampSpread(k)
  {
    hide Median, GaugeOf, BaseMad, Recent, Ramp, RampSpread;
    RampGauge(n, o);
    var k := RampBase(n);
    var h := RampSpread(k);
    assert h >= 1 by { SpreadPositive(k); }
    RatioAtLeast((n - 3) as real - RampCenter(k), 1.4826 * (h as real / 2.0), t as real);
    assert (n - 3) as real - RampCenter(k) == (2 * n - 5 - k) as real / 2.0;
    Cleared(2 * n - 5 - k, t, h);
  }

  lemma SpreadPositive(k: nat)
    requires k >= 2
    ensures RampSpread(k) >= 1
  {
  }

  lemma Cleared(x: int, t: nat, h: nat)
    ensures x as real / 2.0 >= t as real * (1.4826 * (h as real / 2.0)) <==> 10000 * x >= 14826 * t * h
  {
    assert (14826 * t * h) as real == 14826.0 * (t as real * h as real);
    assert t as real * (1.4826 * (h as real / 2.0)) == 0.7413 * (t as real * h as real);
  }

  lemma ClimbsOfRamp(n: nat, o: Options)
    requires n >= 15 && o == Options(kind := o.kind) && (o.kind.Saturation? || o.kind.Latency?)
    ensures Climbs(Ramp(n), o) <==> Score(GaugeOf(Ramp(n), o), Median(Recent(Ramp(n), o))) >= 2.0
  {
    hide Median, GaugeOf, Recent, Score;
    RampRises(n);
    RatioAtLeast((n - 1) as real, (n - 1) as real, 0.7);
  }

  lemma HitOfRamp(n: nat, o: Options)
    requires n >= 15 && o == Options(kind := o.kind) && (o.kind.Saturation? || o.kind.Latency?)
    ensures Hit(Ramp(n), o) ==> Score(GaugeOf(Ramp(n), o), Median(Recent(Ramp(n), o))) >= 2.0
  {
    hide Median, GaugeOf, Recent, Score, Count;
  }

  lemma JudgeOfRamp(n: nat, o: Options)
    requires n >= 15 && o == Options(kind := o.kind) && (o.kind.Saturation? || o.kind.Latency?)
    ensures Judge(Ramp(n), o).isAnomaly <==> n <= 65 || n == 68
  {
    hide Median, GaugeOf, BaseMad, Recent, Score, Hit, Climbs, WarmingUp;
    RampWindows(n, o);
    HitOfRamp(n, o);
    ClimbsOfRamp(n, o);
    RampScore(n, o, 2);
    ShortEnough(n);
  }

  /**
   * A steady ramp of any slope and any length, watched with the default settings. The rise
   * over the baseline is counted in units that grow with the baseline, so the trend
   * detector catches ramps of 15 to 65 and of 68 points and misses all longer ones.
   */
  lemma RampCaughtIffShort(slope: real, start: real, n: nat, o: Options)
    requires slope > 0.0 && o == Options(kind := o.kind) && (o.kind.Saturation? || o.kind.Latency?)
    ensures Judge(Rescale(slope, start, Ramp(n)), o).isAnomaly <==> 15 <= n <= 65 || n == 68
  {
    if n >= 15 {
      hide *;
      RampWindows(n, o);
      RampGauge(n, o);
      UnitInvariant(slope, start, Ramp(n), o);
      JudgeOfRamp(n, o);
    }
  }

  lemma ShortEnough(n: nat)
    requires n >= 15
    ensures var k := RampBase(n); 10000 * (2 * n - 5 - k) >= 29652 * RampSpread(k) <==> n <= 65 || n == 68
  {
  }
}

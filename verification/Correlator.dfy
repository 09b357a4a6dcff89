/**
 * Dependency-aware root-cause ranking (analysis/correlator.ts): a depth-first search
 * with one shared `seen` set over a possibly cyclic service graph, and the scoring
 * that uses it. Scores are exact reals, onsets and markers integer milliseconds.
 */
module Correlator {
  import opened Prelude
  import opened Sorting

  /** `from` calls, that is depends on, `to`. */
  datatype Edge = Edge(from: string, to: string)

  /** The targets of a service in insertion order, without repetition. */
  type Deps = map<string, seq<string>>

  // ----- Reachability -----

  ghost predicate IsPath(edges: seq<Edge>, p: seq<string>) {
    forall i {:trigger p[i]} :: 0 <= i < |p| - 1 ==> Edge(p[i], p[i + 1]) in edges
  }

  /** A path of at least one edge leads from `a` to `b`. */
  ghost predicate Reaches(edges: seq<Edge>, a: string, b: string) {
    exists p: seq<string> :: |p| >= 2 && p[0] == a && p[|p| - 1] == b && IsPath(edges, p)
  }

  ghost predicate Represents(deps: Deps, edges: seq<Edge>) {
    forall a, b :: Edge(a, b) in edges <==> a in deps && b in deps[a]
  }

  method BuildDeps(edges: seq<Edge>) returns (deps: Deps)
    ensures Represents(deps, edges)
  {
    deps := map[];
    for i := 0 to |edges|
      invariant Represents(deps, edges[..i])
    {
      var e := edges[i];
      assert edges[..i + 1] == edges[..i] + [e];
      var targets := if e.from in deps then deps[e.from] else [];
      deps := deps[e.from := if e.to in targets then targets else targets + [e.to]];
    }
    assert edges[..|edges|] == edges;
  }

  /** Every edge out of `n` stays inside `region` and misses `to`. */
  ghost predicate Closed(deps: Deps, n: string, to: string, region: set<string>) {
    n in deps ==> to !in deps[n] && forall m :: m in deps[n] ==> m in region
  }

  method DependsOn(deps: Deps, from: string, to: string, seen: set<string>, ghost edges: seq<Edge>)
    returns (found: bool, seen': set<string>)
    requires Represents(deps, edges)
    ensures seen <= seen'
    ensures found ==> Reaches(edges, from, to)
    ensures !found ==> from in seen' && forall n :: n in seen' - seen ==> Closed(deps, n, to, seen')
    ensures seen == {} ==> (found <==> Reaches(edges, from, to))
    decreases deps.Keys - seen
  {
    if from in seen {
      return false, seen;
    }
    seen' := seen + {from};
    if from !in deps {
      if seen == {} { ClosedMeansUnreachable(deps, edges, from, to, seen'); }
      return false, seen';
    }
    var direct := deps[from];
    if to in direct {
      var p := [from, to];
      assert IsPath(edges, p);
      return true, seen';
    }
    for i := 0 to |direct|
      invariant seen + {from} <= seen'
      invariant forall j :: 0 <= j < i ==> direct[j] in seen'
      invariant forall n :: n in seen' - seen - {from} ==> Closed(deps, n, to, seen')
    {
      var mid := direct[i];
      var before := seen';
      found, seen' := DependsOn(deps, mid, to, seen', edges);
      if found {
        StepThenPath(edges, from, mid, to);
        return;
      }
      forall n | n in seen' - seen - {from} ensures Closed(deps, n, to, seen') {
        if n in before {
          assert Closed(deps, n, to, before);
        }
      }
    }
    found := false;
    if seen == {} { ClosedMeansUnreachable(deps, edges, from, to, seen'); }
  }

  lemma StepThenPath(edges: seq<Edge>, a: string, b: string, c: string)
    requires Edge(a, b) in edges && Reaches(edges, b, c)
    ensures Reaches(edges, a, c)
  {
    var p :| |p| >= 2 && p[0] == b && p[|p| - 1] == c && IsPath(edges, p);
    var q := [a] + p;
    assert q[0] == a && q[|q| - 1] == c;
    forall i | 0 <= i < |q| - 1 ensures Edge(q[i], q[i + 1]) in edges {
      if i > 0 {
        assert q[i] == p[i - 1] && q[i + 1] == p[i];
      }
    }
  }

  lemma ClosedMeansUnreachable(deps: Deps, edges: seq<Edge>, from: string, to: string, region: set<string>)
    requires Represents(deps, edges) && from in region
    requires forall n :: n in region ==> Closed(deps, n, to, region)
    ensures !Reaches(edges, from, to)
  {
    if Reaches(edges, from, to) {
      var p :| |p| >= 2 && p[0] == from && p[|p| - 1] == to && IsPath(edges, p);
      PathStays(deps, edges, to, region, p, |p| - 2);
    }
  }

  lemma {:induction false} PathStays(
      deps: Deps, edges: seq<Edge>, to: string, region: set<string>, p: seq<string>, i: nat)
    requires Represents(deps, edges) && IsPath(edges, p) && i < |p| && p[0] in region
    requires forall n :: n in region ==> Closed(deps, n, to, region)
    ensures p[i] in region
  {
    if i > 0 {
      PathStays(deps, edges, to, region, p, i - 1);
      assert Edge(p[i - 1], p[i - 1 + 1]) in edges;
      assert Closed(deps, p[i - 1], to, region);
    }
  }

  // ----- Scoring -----

  datatype Severity = Low | Medium | High {
    function Weight(): int {
      match this case Low => 1 case Medium => 2 case High => 3
    }
  }

  datatype Anomaly = Anomaly(service: string, severity: Severity, onsetTs: Option<int>)

  datatype Marker = Marker(service: string, ts: int)

  datatype Candidate = Candidate(service: string, score: real, confidence: Severity)

  /** The distinct services in order of first appearance. */
  function Services(anomalies: seq<Anomaly>): (r: seq<string>)
  {
    if anomalies == [] then []
    else
      var n := |anomalies| - 1;
      var before := Services(anomalies[..n]);
      if anomalies[n].service in before then before else before + [anomalies[n].service]
  }

  ghost predicate Distinct(s: seq<string>) {
    forall i, j :: 0 <= i < j < |s| ==> s[i] != s[j]
  }

  lemma {:induction false} ServicesAreTheAnomalous(anomalies: seq<Anomaly>)
    ensures Distinct(Services(anomalies))
    ensures forall s :: s in Services(anomalies) <==> exists i :: 0 <= i < |anomalies| && anomalies[i].service == s
  {
    if anomalies != [] {
      var n := |anomalies| - 1;
      ServicesAreTheAnomalous(anomalies[..n]);
      var before, after := Services(anomalies[..n]), Services(anomalies);
      forall s ensures s in after <==> exists i :: 0 <= i < |anomalies| && anomalies[i].service == s {
        if s in after {
          if s in before {
            var i :| 0 <= i < n && anomalies[..n][i].service == s;
            assert anomalies[i].service == s;
          } else {
            assert anomalies[n].service == s;
          }
        }
        if i :| 0 <= i < |anomalies| && anomalies[i].service == s {
          if i < n {
            assert anomalies[..n][i].service == s;
          }
        }
      }
    }
  }

  ghost function DependentOf(edges: seq<Edge>, svc: string): string -> bool {
    other => other != svc && Reaches(edges, other, svc)
  }

  ghost function UpstreamOf(edges: seq<Edge>, svc: string): string -> bool {
    other => other != svc && Reaches(edges, svc, other)
  }

  function Of(svc: string): Anomaly -> bool {
    (a: Anomaly) => a.service == svc
  }

  function HasOnset(): Anomaly -> bool {
    (a: Anomaly) => a.onsetTs.Some?
  }

  function Earliest(anomalies: seq<Anomaly>): Option<int> {
    if anomalies == [] then None
    else
      var rest := Earliest(anomalies[1..]);
      var t := anomalies[0].onsetTs;
      if t.None? then rest else if rest.None? then t else Some(Min(t.value, rest.value))
  }

  function OnsetScore(anomalies: seq<Anomaly>, svc: string): int {
    var first, mine := Earliest(anomalies), Earliest(Filter(Of(svc), anomalies));
    if first.None? || mine.None? then 0
    else
      var lagSec := (mine.value - first.value + 500) / 1000;
      if lagSec <= 0 then 4 else if lagSec <= 60 then 1 else 0
  }

  /** A change on the service in the fifteen minutes before its first listed onset, or at any time without one. */
  predicate Marked(anomalies: seq<Anomaly>, changes: seq<Marker>, svc: string) {
    var withOnset := Filter(HasOnset(), Filter(Of(svc), anomalies));
    exists i :: 0 <= i < |changes| && changes[i].service == svc &&
      (withOnset == [] ||
       (withOnset[0].onsetTs.Some? && changes[i].ts <= withOnset[0].onsetTs.value
        && withOnset[0].onsetTs.value - changes[i].ts <= 15 * 60_000))
  }

  /** The onset a marker is compared with: that of the first listed anomaly of the service that has one. */
  function FirstListed(anomalies: seq<Anomaly>, svc: string): Option<int> {
    var withOnset := Filter(HasOnset(), Filter(Of(svc), anomalies));
    if withOnset == [] then None else withOnset[0].onsetTs
  }

  /** The same test against the earliest onset of the service, which no reordering changes. */
  predicate MarkedByEarliest(anomalies: seq<Anomaly>, changes: seq<Marker>, svc: string) {
    var first := Earliest(Filter(Of(svc), anomalies));
    exists i :: 0 <= i < |changes| && changes[i].service == svc &&
      (first.None? || (changes[i].ts <= first.value && first.value - changes[i].ts <= 15 * 60_000))
  }

  lemma {:induction false} FirstOnsets(anomalies: seq<Anomaly>)
    ensures var withOnset, first := Filter(HasOnset(), anomalies), Earliest(anomalies);
            if withOnset == [] then first.None?
            else withOnset[0].onsetTs.Some? && first.Some? && first.value <= withOnset[0].onsetTs.value
  {
    if anomalies != [] {
      FirstOnsets(anomalies[1..]);
    }
  }

  /** The marker points are independent of the listing exactly when the first listed onset is the earliest. */
  lemma MarkedExactly(anomalies: seq<Anomaly>, svc: string)
    ensures (forall changes :: Marked(anomalies, changes, svc) == MarkedByEarliest(anomalies, changes, svc)) <==>
            FirstListed(anomalies, svc) == Earliest(Filter(Of(svc), anomalies))
  {
    hide Filter, Earliest;
    FirstOnsets(Filter(Of(svc), anomalies));
    var listed, first := FirstListed(anomalies, svc), Earliest(Filter(Of(svc), anomalies));
    if listed != first {
      var changes := [Marker(svc, listed.value)];
      assert changes[0].service == svc;
      assert Marked(anomalies, changes, svc) && !MarkedByEarliest(anomalies, changes, svc);
    }
  }

  function Breadth(anomalies: seq<Anomaly>, svc: string): int {
    if anomalies == [] then 0
    else
      var n := |anomalies| - 1;
      Breadth(anomalies[..n], svc) + (if anomalies[n].service == svc then anomalies[n].severity.Weight() else 0)
  }

  ghost function Position(anomalies: seq<Anomaly>, edges: seq<Edge>, svc: string): int {
    var services := Services(anomalies);
    5 * |Filter(DependentOf(edges, svc), services)| - 3 * |Filter(UpstreamOf(edges, svc), services)|
  }

  function Evidence(anomalies: seq<Anomaly>, changes: seq<Marker>, svc: string): int {
    OnsetScore(anomalies, svc) + (if Marked(anomalies, changes, svc) then 4 else 0)
  }

  ghost function Score(anomalies: seq<Anomaly>, edges: seq<Edge>, changes: seq<Marker>, svc: string): real {
    (Position(anomalies, edges, svc) + Evidence(anomalies, changes, svc)) as real + 0.25 * Breadth(anomalies, svc) as real
  }

  predicate ByScore(a: Candidate, b: Candidate) {
    a.score >= b.score
  }

  function Confidence(gap: real): Severity {
    if gap >= 5.0 then High else if gap >= 2.0 then Medium else Low
  }

  /** The candidates in service order, then in ranked order with the top one's confidence filled in. */
  ghost function Candidates(anomalies: seq<Anomaly>, edges: seq<Edge>, changes: seq<Marker>, services: seq<string>)
    : (r: seq<Candidate>)
    ensures |r| == |services|
    ensures forall i :: 0 <= i < |r| ==> r[i] == Candidate(services[i], Score(anomalies, edges, changes, services[i]), Low)
  {
    seq(|services|, i requires 0 <= i < |services| =>
      Candidate(services[i], Score(anomalies, edges, changes, services[i]), Low))
  }

  function WithConfidence(sorted: seq<Candidate>): seq<Candidate> {
    if sorted == [] then []
    else
      var top := sorted[0];
      var gap := if |sorted| > 1 then top.score - sorted[1].score else top.score;
      sorted[0 := top.(confidence := Confidence(gap))]
  }

  ghost function Ranked(anomalies: seq<Anomaly>, edges: seq<Edge>, changes: seq<Marker>): seq<Candidate> {
    WithConfidence(Sort(ByScore, Candidates(anomalies, edges, changes, Services(anomalies))))
  }

  method Neighbours(deps: Deps, services: seq<string>, svc: string, ghost edges: seq<Edge>)
    returns (dependents: seq<string>, upstream: seq<string>)
    requires Represents(deps, edges)
    ensures dependents == Filter(DependentOf(edges, svc), services)
    ensures upstream == Filter(UpstreamOf(edges, svc), services)
  {
    hide Reaches, Filter;
    FilterNil(DependentOf(edges, svc));
    FilterNil(UpstreamOf(edges, svc));
    dependents, upstream := [], [];
    for i := 0 to |services|
      invariant dependents == Filter(DependentOf(edges, svc), services[..i])
      invariant upstream == Filter(UpstreamOf(edges, svc), services[..i])
    {
      var other := services[i];
      assert services[..i + 1] == services[..i] + [other];
      FilterAppend(DependentOf(edges, svc), services[..i], [other]);
      FilterAppend(UpstreamOf(edges, svc), services[..i], [other]);
      FilterOne(DependentOf(edges, svc), other);
      FilterOne(UpstreamOf(edges, svc), other);
      if other != svc {
        var down, _ := DependsOn(deps, other, svc, {}, edges);
        if down {
          dependents := dependents + [other];
        }
        var up, _ := DependsOn(deps, svc, other, {}, edges);
        if up {
          upstream := upstream + [other];
        }
      }
    }
    assert services[..|services|] == services;
  }

  lemma FilterNil<T>(p: T -> bool)
    ensures Filter(p, []) == []
  {
  }

  method SumBreadth(anomalies: seq<Anomaly>, svc: string) returns (breadth: int)
    ensures breadth == Breadth(anomalies, svc)
  {
    breadth := 0;
    for i := 0 to |anomalies|
      invariant breadth == Breadth(anomalies[..i], svc)
    {
      assert anomalies[..i + 1][..i] == anomalies[..i];
      if anomalies[i].service == svc {
        breadth := breadth + anomalies[i].severity.Weight();
      }
    }
    assert anomalies[..|anomalies|] == anomalies;
  }

  method ScoreService(anomalies: seq<Anomaly>, deps: Deps, changes: seq<Marker>, services: seq<string>, svc: string,
                      ghost edges: seq<Edge>)
    returns (score: real)
    requires Represents(deps, edges) && services == Services(anomalies)
    ensures score == Score(anomalies, edges, changes, svc)
  {
    var points := 0;
    var dependents, upstream := Neighbours(deps, services, svc, edges);
    if |dependents| > 0 {
      points := points + 5 * |dependents|;
    }
    if |upstream| > 0 {
      points := points - 3 * |upstream|;
    }
    points := points + OnsetScore(anomalies, svc);
    if Marked(anomalies, changes, svc) {
      points := points + 4;
    }
    var breadth := SumBreadth(anomalies, svc);
    score := points as real + 0.25 * breadth as real;
  }

  method DistinctServices(anomalies: seq<Anomaly>) returns (services: seq<string>)
    ensures services == Services(anomalies)
  {
    services := [];
    for i := 0 to |anomalies|
      invariant services == Services(anomalies[..i])
    {
      assert anomalies[..i + 1][..i] == anomalies[..i];
      if anomalies[i].service !in services {
        services := services + [anomalies[i].service];
      }
    }
    assert anomalies[..|anomalies|] == anomalies;
  }

  method RankRootCause(anomalies: seq<Anomaly>, edges: seq<Edge>, changes: seq<Marker>) returns (ranked: seq<Candidate>)
    ensures ranked == Ranked(anomalies, edges, changes)
  {
    hide Score, Sort, Services, ByScore;
    var services := DistinctServices(anomalies);
    var deps := BuildDeps(edges);
    var candidates: seq<Candidate> := [];
    for i := 0 to |services|
      invariant |candidates| == i
      invariant forall j :: 0 <= j < i ==>
        candidates[j] == Candidate(services[j], Score(anomalies, edges, changes, services[j]), Low)
    {
      var score := ScoreService(anomalies, deps, changes, services, services[i], edges);
      candidates := candidates + [Candidate(services[i], score, Low)];
    }
    assert candidates == Candidates(anomalies, edges, changes, services);
    ranked := WithConfidence(Sort(ByScore, candidates));
  }

  // ----- Position points count each dependency pair twice -----

  /** `a` and `b` are distinct and `a` depends on `b`. */
  ghost function Depends(edges: seq<Edge>): (string, string) -> bool {
    (a, b) => a != b && Reaches(edges, a, b)
  }

  /** The pairs of the relation with the first member in `ts` and the second in `ss`. */
  ghost function Pairs(r: (string, string) -> bool, ts: seq<string>, ss: seq<string>): set<(string, string)> {
    set a, b | a in ts && b in ss && r(a, b) :: (a, b)
  }

  ghost function TotalPosition(anomalies: seq<Anomaly>, edges: seq<Edge>, services: seq<string>): int {
    if services == [] then 0
    else Position(anomalies, edges, services[0]) + TotalPosition(anomalies, edges, services[1..])
  }

  lemma PairsSplit(r: (string, string) -> bool, ts: seq<string>, ss: seq<string>)
    requires ss != [] && Distinct(ss)
    ensures |Pairs(r, ts, ss)| == |Pairs(r, ts, [ss[0]])| + |Pairs(r, ts, ss[1..])|
    ensures |Pairs(r, ss, ts)| == |Pairs(r, [ss[0]], ts)| + |Pairs(r, ss[1..], ts)|
  {
    assert ss == [ss[0]] + ss[1..];
    assert Pairs(r, ts, ss) == Pairs(r, ts, [ss[0]]) + Pairs(r, ts, ss[1..]);
    assert Pairs(r, ts, [ss[0]]) !! Pairs(r, ts, ss[1..]);
    assert Pairs(r, ss, ts) == Pairs(r, [ss[0]], ts) + Pairs(r, ss[1..], ts);
    assert Pairs(r, [ss[0]], ts) !! Pairs(r, ss[1..], ts);
  }

  lemma PairOfOne(r: (string, string) -> bool, a: string, b: string)
    ensures |Pairs(r, [a], [b])| == if r(a, b) then 1 else 0
  {
    assert Pairs(r, [a], [b]) == if r(a, b) then {(a, b)} else {};
  }

  lemma {:induction false} PairsInto(r: (string, string) -> bool, p: string -> bool, ts: seq<string>, s: string)
    requires Distinct(ts) && forall t :: p(t) <==> r(t, s)
    ensures |Pairs(r, ts, [s])| == |Filter(p, ts)|
  {
    if ts == [] {
      assert Pairs(r, ts, [s]) == {};
    } else {
      PairsInto(r, p, ts[1..], s);
      PairsSplit(r, [s], ts);
      PairOfOne(r, ts[0], s);
    }
  }

  lemma {:induction false} PairsOutOf(r: (string, string) -> bool, p: string -> bool, s: string, ts: seq<string>)
    requires Distinct(ts) && forall t :: p(t) <==> r(s, t)
    ensures |Pairs(r, [s], ts)| == |Filter(p, ts)|
  {
    if ts == [] {
      assert Pairs(r, [s], ts) == {};
    } else {
      PairsOutOf(r, p, s, ts[1..]);
      PairsSplit(r, [s], ts);
      PairOfOne(r, s, ts[0]);
    }
  }

  lemma {:induction false} PositionOfSome(anomalies: seq<Anomaly>, edges: seq<Edge>, some: seq<string>)
    requires Distinct(some)
    ensures var all, r := Services(anomalies), Depends(edges);
            TotalPosition(anomalies, edges, some) == 5 * |Pairs(r, all, some)| - 3 * |Pairs(r, some, all)|
  {
    var all, r := Services(anomalies), Depends(edges);
    if some == [] {
      assert Pairs(r, all, some) == {} == Pairs(r, some, all);
    } else {
      PositionOfSome(anomalies, edges, some[1..]);
      ServicesAreTheAnomalous(anomalies);
      PairsInto(r, DependentOf(edges, some[0]), all, some[0]);
      PairsOutOf(r, UpstreamOf(edges, some[0]), some[0], all);
      PairsSplit(r, all, some);
    }
  }

  /** The +5 and -3 terms count the same pairs, so the position points add up to twice their number. */
  lemma PositionIsTwicePairs(anomalies: seq<Anomaly>, edges: seq<Edge>)
    ensures var all := Services(anomalies);
            TotalPosition(anomalies, edges, all) == 2 * |Pairs(Depends(edges), all, all)|
  {
    ServicesAreTheAnomalous(anomalies);
    PositionOfSome(anomalies, edges, Services(anomalies));
  }

  // ----- A common upstream of all others ranks first -----

  /** Every other anomalous service depends on `root`, and `root` depends on none of them. */
  ghost predicate CommonUpstream(anomalies: seq<Anomaly>, edges: seq<Edge>, root: string) {
    && root in Services(anomalies)
    && forall s :: s in Services(anomalies) && s != root ==> Reaches(edges, s, root) && !Reaches(edges, root, s)
  }

  lemma {:induction false} FilterMisses<T>(p: T -> bool, s: seq<T>, missing: seq<T>)
    requires |missing| <= |s|
    requires forall i :: 0 <= i < |missing| ==> missing[i] in s && !p(missing[i])
    requires forall i, j :: 0 <= i < j < |missing| ==> missing[i] != missing[j]
    ensures |Filter(p, s)| <= |s| - |missing|
  {
    if s == [] {
    } else if k :| 0 <= k < |missing| && missing[k] == s[0] {
      var rest := missing[..k] + missing[k + 1..];
      forall i | 0 <= i < |rest| ensures rest[i] in s[1..] && !p(rest[i]) {
        var j := if i < k then i else i + 1;
        assert rest[i] == missing[j] != missing[k];
      }
      FilterMisses(p, s[1..], rest);
    } else {
      forall i | 0 <= i < |missing| ensures missing[i] in s[1..] {
      }
      if |missing| < |s| {
        FilterMisses(p, s[1..], missing);
      } else {
        Pigeonhole(missing, s[1..]);
      }
    }
  }

  /** A list without repetition whose members all lie in `s` is no longer than `s`. */
  lemma {:induction false} Pigeonhole<T>(xs: seq<T>, s: seq<T>)
    requires forall i :: 0 <= i < |xs| ==> xs[i] in s
    requires forall i, j :: 0 <= i < j < |xs| ==> xs[i] != xs[j]
    ensures |xs| <= |s|
  {
    if xs != [] {
      assert xs[0] in s;
      if k :| 0 <= k < |xs| && xs[k] == s[0] {
        var rest := xs[..k] + xs[k + 1..];
        forall i | 0 <= i < |rest| ensures rest[i] in s[1..] {
          var j := if i < k then i else i + 1;
          assert rest[i] == xs[j] != xs[k];
        }
        Pigeonhole(rest, s[1..]);
      } else {
        Pigeonhole(xs, s[1..]);
      }
    }
  }

  lemma {:induction false} FilterAllBut(p: string -> bool, s: seq<string>, x: string)
    requires Distinct(s) && forall y :: y in s && y != x ==> p(y)
    ensures |Filter(p, s)| >= |s| - 1
    ensures x !in s ==> |Filter(p, s)| == |s|
  {
    if s != [] {
      assert s == [s[0]] + s[1..];
      FilterAllBut(p, s[1..], x);
    }
  }

  lemma {:induction false} FilterNone<T>(p: T -> bool, s: seq<T>)
    requires forall y :: y in s ==> !p(y)
    ensures Filter(p, s) == []
  {
    if s != [] {
      FilterNone(p, s[1..]);
    }
  }

  /** Position alone puts a common upstream at least 8 points ahead of every other service. */
  lemma PositionGap(anomalies: seq<Anomaly>, edges: seq<Edge>, root: string, s: string)
    requires CommonUpstream(anomalies, edges, root) && s in Services(anomalies) && s != root
    ensures Position(anomalies, edges, root) >= Position(anomalies, edges, s) + 8
  {
    var all := Services(anomalies);
    ServicesAreTheAnomalous(anomalies);
    FilterAllBut(DependentOf(edges, root), all, root);
    FilterNone(UpstreamOf(edges, root), all);
    Pigeonhole([root, s], all);
    FilterMisses(DependentOf(edges, s), all, [root, s]);
    FilterMembers(UpstreamOf(edges, s), all, root);
  }

  /** Ahead of all others: a higher score than those listed before, and no lower than those after. */
  ghost predicate Tops(cs: seq<Candidate>, k: nat) {
    && k < |cs|
    && (forall i :: 0 <= i < k ==> cs[i].score < cs[k].score)
    && (forall i :: k < i < |cs| ==> cs[i].score <= cs[k].score)
  }

  lemma FirstOfSort(x: Candidate, rest: seq<Candidate>)
    requires rest != []
    ensures var next := Sort(ByScore, rest)[0];
            Sort(ByScore, [x] + rest)[0] == if x.score >= next.score then x else next
  {
    assert ([x] + rest)[1..] == rest;
  }

  lemma TopStep(x: Candidate, rest: seq<Candidate>, m: nat)
    requires Tops(rest, m)
    ensures Tops([x] + rest, if x.score >= rest[m].score then 0 else m + 1)
  {
    var cs := [x] + rest;
    forall i | 0 < i < |cs| ensures cs[i].score <= rest[m].score && (i <= m ==> cs[i].score < rest[m].score) {
      assert cs[i] == rest[i - 1];
    }
  }

  /** One candidate is ahead of all others, and the stable sort puts it first. */
  lemma {:induction false} TopOfSorted(cs: seq<Candidate>) returns (k: nat)
    requires cs != []
    ensures Tops(cs, k) && Sort(ByScore, cs)[0] == cs[k]
  {
    if |cs| == 1 {
      k := 0;
    } else {
      hide Sort, Tops;
      var rest := cs[1..];
      assert cs == [cs[0]] + rest;
      var m := TopOfSorted(rest);
      FirstOfSort(cs[0], rest);
      TopStep(cs[0], rest, m);
      k := if cs[0].score >= rest[m].score then 0 else m + 1;
    }
  }

  function ListIndex(s: seq<string>, x: string): (i: nat)
    ensures i <= |s| && (i < |s| ==> s[i] == x)
    ensures x in s ==> i < |s|
  {
    if s == [] || s[0] == x then 0 else 1 + ListIndex(s[1..], x)
  }

  lemma IndexOfListed(s: seq<string>, k: nat)
    requires Distinct(s) && k < |s|
    ensures ListIndex(s, s[k]) == k
  {
    assert s[k] in s;
  }

  /** What speaks for a service besides its position in the graph. */
  function Weight(anomalies: seq<Anomaly>, changes: seq<Marker>, svc: string): real {
    Evidence(anomalies, changes, svc) as real + 0.25 * Breadth(anomalies, svc) as real
  }

  /** The other service neither outweighs the root by the gap, nor equals it and is listed earlier. */
  ghost predicate Outranks(services: seq<string>, root: string, s: string, excess: real, gap: real) {
    excess < gap || (excess == gap && ListIndex(services, root) < ListIndex(services, s))
  }

  ghost function PositionLead(anomalies: seq<Anomaly>, edges: seq<Edge>, root: string, s: string): int {
    Position(anomalies, edges, root) - Position(anomalies, edges, s)
  }

  /**
   * Who ranks first, for any graph, onsets and markers: the service whose lead in position
   * exceeds what every other one has over it in onset, change and breadth points, or equals
   * it with the other listed later.
   */
  lemma RanksFirstExact(anomalies: seq<Anomaly>, edges: seq<Edge>, changes: seq<Marker>, root: string)
    requires root in Services(anomalies)
    ensures var all, ranked := Services(anomalies), Ranked(anomalies, edges, changes);
            && ranked != []
            && (ranked[0].service == root <==>
                  forall s :: s in all && s != root ==>
                    Outranks(all, root, s, Weight(anomalies, changes, s) - Weight(anomalies, changes, root),
                             PositionLead(anomalies, edges, root, s) as real))
  {
    hide Breadth, Reaches, Sort, Services, Filter, Position, Evidence, ListIndex;
    var all := Services(anomalies);
    var cs := Candidates(anomalies, edges, changes, all);
    ServicesAreTheAnomalous(anomalies);
    var r := ListIndex(all, root);
    var k := TopOfSorted(cs);
    assert Ranked(anomalies, edges, changes)[0].service == all[k];
    forall i | 0 <= i < |all| && i != r
      ensures Outranks(all, root, all[i], Weight(anomalies, changes, all[i]) - Weight(anomalies, changes, root),
                       PositionLead(anomalies, edges, root, all[i]) as real)
         <==> cs[i].score < cs[r].score || (cs[i].score == cs[r].score && r < i)
    {
      IndexOfListed(all, i);
      ScoreLead(anomalies, edges, changes, root, all[i]);
    }
    if k == r {
      forall s | s in all && s != root
        ensures Outranks(all, root, s, Weight(anomalies, changes, s) - Weight(anomalies, changes, root),
                         PositionLead(anomalies, edges, root, s) as real)
      {
        var i :| 0 <= i < |all| && all[i] == s;
      }
    } else {
      assert all[k] != root;
      assert !(cs[k].score < cs[r].score || (cs[k].score == cs[r].score && r < k));
    }
  }

  lemma ScoreLead(anomalies: seq<Anomaly>, edges: seq<Edge>, changes: seq<Marker>, root: string, s: string)
    ensures Score(anomalies, edges, changes, root) - Score(anomalies, edges, changes, s)
         == PositionLead(anomalies, edges, root, s) as real
            - (Weight(anomalies, changes, s) - Weight(anomalies, changes, root))
  {
    hide Breadth, Position, Evidence;
  }

  /** The confidence is high exactly when every other service trails the first by 5 points or more. */
  lemma HighConfidenceExact(anomalies: seq<Anomaly>, edges: seq<Edge>, changes: seq<Marker>, root: string)
    requires root in Services(anomalies) && |Services(anomalies)| > 1
    requires Ranked(anomalies, edges, changes)[0].service == root
    ensures Ranked(anomalies, edges, changes)[0].confidence == High <==>
            forall s :: s in Services(anomalies) && s != root ==>
              Weight(anomalies, changes, s) - Weight(anomalies, changes, root) + 5.0
              <= PositionLead(anomalies, edges, root, s) as real
  {
    hide Breadth, Reaches, Sort, Services, Filter, Position, Evidence, Score, Weight;
    var all := Services(anomalies);
    var cs := Candidates(anomalies, edges, changes, all);
    var sorted := Sort(ByScore, cs);
    ServicesAreTheAnomalous(anomalies);
    SortSorted(ByScore, cs);
    var second := OthersBehind(cs, sorted);
    forall i | 0 <= i < |all| && all[i] != root ensures cs[i].score <= sorted[1].score {
      assert cs[i].service != sorted[0].service;
      SortMembers(ByScore, cs);
      assert cs[i] in sorted;
      var j :| 0 <= j < |sorted| && sorted[j] == cs[i];
      assert j == 1 || ByScore(sorted[1], sorted[j]);
    }
    forall s | s in all && s != root
      ensures Score(anomalies, edges, changes, s) <= sorted[1].score
      ensures Score(anomalies, edges, changes, root) - Score(anomalies, edges, changes, s)
           == PositionLead(anomalies, edges, root, s) as real
              - (Weight(anomalies, changes, s) - Weight(anomalies, changes, root))
    {
      var i :| 0 <= i < |all| && all[i] == s;
      assert cs[i].score <= sorted[1].score;
      ScoreLead(anomalies, edges, changes, root, s);
    }
    assert all[second] != root && sorted[1] == cs[second];
    SortMembers(ByScore, cs);
    assert sorted[0] in cs;
    assert sorted[0].score == Score(anomalies, edges, changes, root);
  }

  /** The second in order is another candidate than the first. */
  lemma OthersBehind(cs: seq<Candidate>, sorted: seq<Candidate>) returns (second: nat)
    requires |cs| > 1 && sorted == Sort(ByScore, cs)
    requires forall i, j :: 0 <= i < j < |cs| ==> cs[i].service != cs[j].service
    ensures second < |cs| && sorted[1] == cs[second] && sorted[1].service != sorted[0].service
  {
    hide Sort;
    SortMembers(ByScore, cs);
    assert sorted[0] in cs && sorted[1] in cs;
    second :| 0 <= second < |cs| && sorted[1] == cs[second];
    if sorted[1].service == sorted[0].service {
      var first :| 0 <= first < |cs| && sorted[0] == cs[first];
      TwiceInMultiset(sorted, cs[first]);
      OnceInMultiset(cs, cs[first], first);
      assert false;
    }
  }

  lemma TwiceInMultiset<T>(s: seq<T>, x: T)
    requires |s| >= 2 && s[0] == x && s[1] == x
    ensures multiset(s)[x] >= 2
  {
    assert s == [s[0]] + [s[1]] + s[2..];
  }

  lemma OnceInMultiset<T>(s: seq<T>, x: T, k: nat)
    requires k < |s| && s[k] == x && forall i :: 0 <= i < |s| && i != k ==> s[i] != x
    ensures multiset(s)[x] == 1
  {
    assert s == s[..k] + [s[k]] + s[k + 1..];
    assert x !in s[..k] && x !in s[k + 1..];
  }

  /**
   * A common upstream ranks first exactly when no other service reaches its lead in position,
   * and that lead is never less than 8 points: so it ranks first whenever no other outweighs it
   * by 8 points in breadth, onset and change evidence, with high confidence within 3.
   */
  lemma CommonUpstreamRanksFirst(anomalies: seq<Anomaly>, edges: seq<Edge>, changes: seq<Marker>, root: string)
    requires CommonUpstream(anomalies, edges, root)
    ensures var all, ranked := Services(anomalies), Ranked(anomalies, edges, changes);
            && ranked != []
            && (ranked[0].service == root <==>
                  forall s :: s in all && s != root ==>
                    Outranks(all, root, s, Weight(anomalies, changes, s) - Weight(anomalies, changes, root),
                             PositionLead(anomalies, edges, root, s) as real))
            && ((forall s :: s in all && s != root ==>
                   Weight(anomalies, changes, s) < Weight(anomalies, changes, root) + 8.0)
                ==> ranked[0].service == root)
            && (|all| > 1
                && (forall s :: s in all && s != root ==>
                      Weight(anomalies, changes, s) <= Weight(anomalies, changes, root) + 3.0)
                ==> ranked[0].confidence == High)
  {
    hide Breadth, Reaches, Sort, Services, Filter, Position, Evidence, Ranked, Weight;
    var all := Services(anomalies);
    forall s | s in all && s != root ensures PositionLead(anomalies, edges, root, s) >= 8 {
      PositionGap(anomalies, edges, root, s);
    }
    RanksFirstExact(anomalies, edges, changes, root);
    if |all| > 1 && Ranked(anomalies, edges, changes)[0].service == root {
      HighConfidenceExact(anomalies, edges, changes, root);
    }
  }

  lemma {:induction false} NoOnsets(anomalies: seq<Anomaly>)
    requires forall a :: a in anomalies ==> a.onsetTs == None
    ensures Earliest(anomalies) == None
  {
    if anomalies != [] {
      NoOnsets(anomalies[1..]);
    }
  }

  /** Without onsets and markers only breadth can weigh against the position. */
  lemma BreadthOnly(anomalies: seq<Anomaly>, svc: string)
    requires forall a :: a in anomalies ==> a.onsetTs == None
    ensures Weight(anomalies, [], svc) == 0.25 * Breadth(anomalies, svc) as real
  {
    hide Breadth;
    NoOnsets(anomalies);
  }

  lemma OutranksScaled(services: seq<string>, root: string, s: string, excess: real, gap: real)
    ensures Outranks(services, root, s, 0.25 * excess, gap) <==> Outranks(services, root, s, excess, 4.0 * gap)
  {
  }

  /**
   * In points of breadth: the exact condition counts four times the lead in position, 32
   * points at least, and 12 points at least for high confidence.
   */
  lemma BreadthThresholds(anomalies: seq<Anomaly>, edges: seq<Edge>, root: string)
    requires CommonUpstream(anomalies, edges, root) && forall a :: a in anomalies ==> a.onsetTs == None
    ensures var all, ranked := Services(anomalies), Ranked(anomalies, edges, []);
            && ranked != []
            && (ranked[0].service == root <==>
                  forall s :: s in all && s != root ==>
                    Outranks(all, root, s, (Breadth(anomalies, s) - Breadth(anomalies, root)) as real,
                             (4 * PositionLead(anomalies, edges, root, s)) as real))
            && ((forall s :: s in all && s != root ==> Breadth(anomalies, s) < Breadth(anomalies, root) + 32)
                ==> ranked[0].service == root)
            && (|all| > 1
                && (forall s :: s in all && s != root ==> Breadth(anomalies, s) <= Breadth(anomalies, root) + 12)
                ==> ranked[0].confidence == High)
  {
    hide Breadth, Reaches, Services, Position, Ranked, Weight, ListIndex, Outranks, CommonUpstream, PositionLead;
    var all := Services(anomalies);
    CommonUpstreamRanksFirst(anomalies, edges, [], root);
    BreadthOnly(anomalies, root);
    forall s | s in all && s != root
      ensures Weight(anomalies, [], s) == 0.25 * Breadth(anomalies, s) as real
      ensures Outranks(all, root, s, Weight(anomalies, [], s) - Weight(anomalies, [], root),
                       PositionLead(anomalies, edges, root, s) as real)
         <==> Outranks(all, root, s, (Breadth(anomalies, s) - Breadth(anomalies, root)) as real,
                       (4 * PositionLead(anomalies, edges, root, s)) as real)
    {
      BreadthOnly(anomalies, s);
      OutranksScaled(all, root, s, (Breadth(anomalies, s) - Breadth(anomalies, root)) as real,
                     PositionLead(anomalies, edges, root, s) as real);
    }
  }

  // ----- Many symptoms of one cause -----

  /** Every other service depends on `root` and on no other of them. */
  ghost predicate Star(anomalies: seq<Anomaly>, edges: seq<Edge>, root: string) {
    && CommonUpstream(anomalies, edges, root)
    && forall s, t :: s in Services(anomalies) && t in Services(anomalies) && s != root && t != root && s != t ==>
         !Reaches(edges, s, t)
  }

  lemma StarIsCommon(anomalies: seq<Anomaly>, edges: seq<Edge>, root: string)
    requires Star(anomalies, edges, root)
    ensures CommonUpstream(anomalies, edges, root)
  {
  }

  lemma {:induction false} FilterOnly<T>(p: T -> bool, s: seq<T>, x: T)
    requires x in s && p(x) && forall y :: y in s && y != x ==> !p(y)
    requires forall i, j :: 0 <= i < j < |s| ==> s[i] != s[j]
    ensures |Filter(p, s)| == 1
  {
    if s[0] == x {
      FilterNone(p, s[1..]);
    } else {
      FilterOnly(p, s[1..], x);
    }
  }

  lemma RootPosition(anomalies: seq<Anomaly>, edges: seq<Edge>, root: string)
    requires CommonUpstream(anomalies, edges, root)
    ensures Position(anomalies, edges, root) == 5 * (|Services(anomalies)| - 1)
  {
    var all := Services(anomalies);
    ServicesAreTheAnomalous(anomalies);
    FilterAllBut(DependentOf(edges, root), all, root);
    FilterMisses(DependentOf(edges, root), all, [root]);
    FilterNone(UpstreamOf(edges, root), all);
  }

  lemma SymptomPosition(anomalies: seq<Anomaly>, edges: seq<Edge>, root: string, s: string)
    requires Star(anomalies, edges, root) && s in Services(anomalies) && s != root
    ensures Position(anomalies, edges, s) == -3
  {
    var all := Services(anomalies);
    ServicesAreTheAnomalous(anomalies);
    FilterNone(DependentOf(edges, s), all);
    FilterOnly(UpstreamOf(edges, s), all, root);
  }

  /**
   * With `n` services in a star and no onsets or markers, the cause ranks first exactly when
   * every symptom exceeds its breadth by less than 20 n - 8 points, or by just that and is
   * listed later.
   */
  lemma StarExact(anomalies: seq<Anomaly>, edges: seq<Edge>, root: string)
    requires Star(anomalies, edges, root) && forall a :: a in anomalies ==> a.onsetTs == None
    ensures var all := Services(anomalies);
            Ranked(anomalies, edges, [])[0].service == root <==>
              forall s :: s in all && s != root ==>
                Outranks(all, root, s, (Breadth(anomalies, s) - Breadth(anomalies, root)) as real,
                         (20 * |all| - 8) as real)
  {
    hide Breadth, Reaches, Services, Position, Ranked, Outranks, CommonUpstream, Star;
    var all := Services(anomalies);
    StarIsCommon(anomalies, edges, root);
    BreadthThresholds(anomalies, edges, root);
    RootPosition(anomalies, edges, root);
    forall s | s in all && s != root ensures 4 * PositionLead(anomalies, edges, root, s) == 20 * |all| - 8 {
      SymptomPosition(anomalies, edges, root, s);
    }
  }

  /** With two services, listed in either order, the threshold is 32 points of breadth. */
  lemma TwoServicesExact(anomalies: seq<Anomaly>, edges: seq<Edge>, root: string, victim: string)
    requires CommonUpstream(anomalies, edges, root) && forall a :: a in anomalies ==> a.onsetTs == None
    requires Services(anomalies) == [victim, root] || Services(anomalies) == [root, victim]
    ensures Ranked(anomalies, edges, [])[0].service == root <==>
            || Breadth(anomalies, victim) < Breadth(anomalies, root) + 32
            || (Breadth(anomalies, victim) == Breadth(anomalies, root) + 32 && Services(anomalies)[0] == root)
  {
    hide Breadth, Reaches, Services, Ranked, Position;
    var all := Services(anomalies);
    ServicesAreTheAnomalous(anomalies);
    assert all[0] != all[1];
    StarExact(anomalies, edges, root);
    IndexOfListed(all, 0);
    IndexOfListed(all, 1);
    assert victim in all;
  }

  // ----- A loud symptom that outranks its cause -----

  const SYMPTOM := Anomaly("symptom", High, None)
  const CAUSE := Anomaly("cause", Low, None)

  function Loud(n: nat): seq<Anomaly> {
    if n == 0 then [] else Loud(n - 1) + [SYMPTOM]
  }

  lemma {:induction false} LoudFacts(n: nat)
    requires n >= 1
    ensures Services(Loud(n)) == ["symptom"]
    ensures Breadth(Loud(n), "symptom") == 3 * n && Breadth(Loud(n), "cause") == 0
    ensures forall a :: a in Loud(n) ==> a.onsetTs == None
  {
    hide Services, Breadth;
    if n == 1 {
      assert Loud(0) == [] && Loud(1) == [SYMPTOM];
      OneSymptom();
    } else {
      LoudFacts(n - 1);
      SymptomAdded(Loud(n - 1));
    }
  }

  lemma OneSymptom()
    ensures Services([SYMPTOM]) == ["symptom"]
    ensures Breadth([SYMPTOM], "symptom") == 3 && Breadth([SYMPTOM], "cause") == 0
  {
    assert [SYMPTOM][..0] == [];
  }

  lemma SymptomAdded(loud: seq<Anomaly>)
    requires Services(loud) == ["symptom"]
    ensures Services(loud + [SYMPTOM]) == ["symptom"]
    ensures Breadth(loud + [SYMPTOM], "symptom") == Breadth(loud, "symptom") + 3
    ensures Breadth(loud + [SYMPTOM], "cause") == Breadth(loud, "cause")
  {
    var all := loud + [SYMPTOM];
    assert all[..|all| - 1] == loud;
  }

  lemma FirstEdge(edges: seq<Edge>, a: string, b: string)
    requires Reaches(edges, a, b)
    ensures exists c :: Edge(a, c) in edges
  {
    var p :| |p| >= 2 && p[0] == a && p[|p| - 1] == b && IsPath(edges, p);
    assert Edge(p[0], p[1]) in edges;
  }

  lemma OneEdge(edges: seq<Edge>)
    requires edges == [Edge("symptom", "cause")]
    ensures Reaches(edges, "symptom", "cause") && !Reaches(edges, "cause", "symptom")
  {
    var p := ["symptom", "cause"];
    assert IsPath(edges, p);
    if Reaches(edges, "cause", "symptom") {
      FirstEdge(edges, "cause", "symptom");
      assert false;
    }
  }

  /** Twelve high anomalies of one symptom outrank the single low one of its cause. */
  lemma LoudSymptomWins()
    ensures var anomalies, edges := Loud(12) + [CAUSE], [Edge("symptom", "cause")];
            && Star(anomalies, edges, "cause")
            && Ranked(anomalies, edges, [])[0].service != "cause"
  {
    hide *;
    var anomalies, edges := Loud(12) + [CAUSE], [Edge("symptom", "cause")];
    LoudFacts(12);
    LoudAndCause(Loud(12));
    LoudIsStar(anomalies, edges);
    StarIsCommon(anomalies, edges, "cause");
    TwoServicesExact(anomalies, edges, "cause", "symptom");
  }

  lemma LoudIsStar(anomalies: seq<Anomaly>, edges: seq<Edge>)
    requires Services(anomalies) == ["symptom", "cause"] && edges == [Edge("symptom", "cause")]
    ensures Star(anomalies, edges, "cause")
  {
    hide Services, Reaches;
    OneEdge(edges);
  }

  lemma LoudAndCause(loud: seq<Anomaly>)
    requires Services(loud) == ["symptom"] && Breadth(loud, "cause") == 0
    requires forall a :: a in loud ==> a.onsetTs == None
    ensures forall a :: a in loud + [CAUSE] ==> a.onsetTs == None
    ensures Services(loud + [CAUSE]) == ["symptom", "cause"]
    ensures Breadth(loud + [CAUSE], "symptom") == Breadth(loud, "symptom") && Breadth(loud + [CAUSE], "cause") == 1
  {
    var all := loud + [CAUSE];
    assert all[..|all| - 1] == loud;
  }
}

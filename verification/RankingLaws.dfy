/**
 * What the points of the root-cause ranking reward (analysis/correlator.ts): an early
 * onset, a change shortly before it, and the severity of the anomalies.
 */
module RankingLaws {
  import opened Prelude
  import opened Sorting
  import opened Correlator

  // ----- Onsets -----

  ghost predicate HasOnsetAt(anomalies: seq<Anomaly>, p: Anomaly -> bool, t: int) {
    exists i :: 0 <= i < |anomalies| && p(anomalies[i]) && anomalies[i].onsetTs == Some(t)
  }

  /** `t` is the earliest onset among the anomalies that satisfy `p`. */
  ghost predicate StartsAt(anomalies: seq<Anomaly>, p: Anomaly -> bool, t: int) {
    HasOnsetAt(anomalies, p, t) && forall u :: HasOnsetAt(anomalies, p, u) ==> t <= u
  }

  function Any(): Anomaly -> bool {
    _ => true
  }

  lemma {:induction false} EarliestExact(anomalies: seq<Anomaly>, p: Anomaly -> bool)
    ensures match Earliest(Filter(p, anomalies))
            case None => forall u :: !HasOnsetAt(anomalies, p, u)
            case Some(t) => StartsAt(anomalies, p, t)
  {
    if anomalies != [] {
      var a, rest := anomalies[0], anomalies[1..];
      EarliestExact(rest, p);
      forall u ensures HasOnsetAt(anomalies, p, u) <==> (p(a) && a.onsetTs == Some(u)) || HasOnsetAt(rest, p, u) {
        OnsetBehind(anomalies, p, u);
      }
      EarliestOfFirst(anomalies, p);
    }
  }

  lemma OnsetBehind(anomalies: seq<Anomaly>, p: Anomaly -> bool, u: int)
    requires anomalies != []
    ensures HasOnsetAt(anomalies, p, u)
       <==> (p(anomalies[0]) && anomalies[0].onsetTs == Some(u)) || HasOnsetAt(anomalies[1..], p, u)
  {
    var rest := anomalies[1..];
    if i :| 0 <= i < |rest| && p(rest[i]) && rest[i].onsetTs == Some(u) {
      assert anomalies[i + 1] == rest[i];
    }
    if i :| 0 <= i < |anomalies| && p(anomalies[i]) && anomalies[i].onsetTs == Some(u) {
      assert i > 0 ==> rest[i - 1] == anomalies[i];
    }
  }

  lemma EarliestOfFirst(anomalies: seq<Anomaly>, p: Anomaly -> bool)
    requires anomalies != []
    ensures var a, rest := anomalies[0], Earliest(Filter(p, anomalies[1..]));
            Earliest(Filter(p, anomalies)) == if !p(a) || a.onsetTs.None? then rest
                                              else if rest.None? then a.onsetTs
                                              else Some(Min(a.onsetTs.value, rest.value))
  {
    hide Filter, Earliest;
    var tail := Filter(p, anomalies[1..]);
    assert anomalies == [anomalies[0]] + anomalies[1..];
    FilterStep(p, anomalies[0], anomalies[1..]);
    EarliestFront(anomalies[0], tail);
    assert [] + tail == tail;
  }

  lemma EarliestFront(a: Anomaly, rest: seq<Anomaly>)
    ensures var t := Earliest(rest);
            Earliest([a] + rest)
            == if a.onsetTs.None? then t else if t.None? then a.onsetTs else Some(Min(a.onsetTs.value, t.value))
  {
    assert ([a] + rest)[1..] == rest;
  }

  lemma {:induction false} AnyIsAll(anomalies: seq<Anomaly>)
    ensures Filter(Any(), anomalies) == anomalies
  {
    if anomalies != [] {
      AnyIsAll(anomalies[1..]);
    }
  }

  /**
   * Four points for a service that starts less than half a second after the first of all,
   * one for a service that starts less than 60.5 seconds after it, and none otherwise.
   */
  lemma OnsetPoints(anomalies: seq<Anomaly>, svc: string, first: int, t: int)
    requires StartsAt(anomalies, Any(), first)
    ensures StartsAt(anomalies, Of(svc), t) ==>
              OnsetScore(anomalies, svc) == if t - first < 500 then 4 else if t - first < 60_500 then 1 else 0
    ensures (forall u :: !HasOnsetAt(anomalies, Of(svc), u)) ==> OnsetScore(anomalies, svc) == 0
  {
    hide Earliest, Filter, HasOnsetAt;
    EarliestExact(anomalies, Any());
    EarliestExact(anomalies, Of(svc));
    AnyIsAll(anomalies);
    if StartsAt(anomalies, Of(svc), t) {
      NotBeforeFirst(anomalies, svc, first, t);
    }
  }

  lemma NotBeforeFirst(anomalies: seq<Anomaly>, svc: string, first: int, t: int)
    requires StartsAt(anomalies, Any(), first) && StartsAt(anomalies, Of(svc), t)
    ensures first <= t
  {
    assert HasOnsetAt(anomalies, Any(), t);
  }

  lemma SomeFirst(anomalies: seq<Anomaly>, svc: string, t: int) returns (first: int)
    requires StartsAt(anomalies, Of(svc), t)
    ensures StartsAt(anomalies, Any(), first)
  {
    EarliestExact(anomalies, Any());
    assert HasOnsetAt(anomalies, Any(), t);
    first := Earliest(Filter(Any(), anomalies)).value;
  }

  /** A service that starts no later never has fewer onset points. */
  lemma EarlierNeverLess(anomalies: seq<Anomaly>, a: string, b: string, s: int, t: int)
    requires StartsAt(anomalies, Of(a), s) && StartsAt(anomalies, Of(b), t) && s <= t
    ensures OnsetScore(anomalies, a) >= OnsetScore(anomalies, b)
  {
    hide OnsetScore, StartsAt;
    var first := SomeFirst(anomalies, a, s);
    OnsetPoints(anomalies, a, first, s);
    OnsetPoints(anomalies, b, first, t);
  }

  // ----- The order of the ranking -----

  /** `a` is ranked somewhere before `b`. */
  ghost predicate RankedBefore(ranked: seq<Candidate>, a: string, b: string) {
    exists i, j :: 0 <= i < j < |ranked| && ranked[i].service == a && ranked[j].service == b
  }

  lemma ScoreOrder()
    ensures TotalPreorder(ByScore)
  {
  }

  /** The whole order: by score, and as first listed where scores are equal. */
  lemma RankedByScore(anomalies: seq<Anomaly>, edges: seq<Edge>, changes: seq<Marker>, i: nat, j: nat)
    requires i < j < |Services(anomalies)|
    ensures var all, ranked := Services(anomalies), Ranked(anomalies, edges, changes);
            if Score(anomalies, edges, changes, all[i]) >= Score(anomalies, edges, changes, all[j])
            then RankedBefore(ranked, all[i], all[j]) else RankedBefore(ranked, all[j], all[i])
  {
    hide Score, Services, Sort;
    var all := Services(anomalies);
    var cs := Candidates(anomalies, edges, changes, all);
    ScoreOrder();
    SortIsStable(ByScore, cs, i, j);
    if ByScore(cs[i], cs[j]) {
      SameServices(Sort(ByScore, cs), cs[i], cs[j]);
    } else {
      SameServices(Sort(ByScore, cs), cs[j], cs[i]);
    }
  }

  lemma SameServices(sorted: seq<Candidate>, x: Candidate, y: Candidate)
    requires Before(sorted, x, y)
    ensures RankedBefore(WithConfidence(sorted), x.service, y.service)
  {
    var i, j :| 0 <= i < j < |sorted| && sorted[i] == x && sorted[j] == y;
    var ranked := WithConfidence(sorted);
    assert ranked[i].service == x.service && ranked[j].service == y.service;
  }

  lemma HigherScoreFirst(anomalies: seq<Anomaly>, edges: seq<Edge>, changes: seq<Marker>, a: string, b: string)
    requires a in Services(anomalies) && b in Services(anomalies)
    requires Score(anomalies, edges, changes, a) > Score(anomalies, edges, changes, b)
    ensures RankedBefore(Ranked(anomalies, edges, changes), a, b)
  {
    hide Score, Services, Ranked, RankedBefore;
    var all := Services(anomalies);
    var i :| 0 <= i < |all| && all[i] == a;
    var j :| 0 <= j < |all| && all[j] == b;
    if i < j {
      RankedByScore(anomalies, edges, changes, i, j);
    } else {
      RankedByScore(anomalies, edges, changes, j, i);
    }
  }

  /**
   * Of two services that are equal in position, markers and breadth, one that starts first of
   * all ranks before one that starts half a second later or has no onset.
   */
  lemma LateStarterRanksBehind(
      anomalies: seq<Anomaly>, edges: seq<Edge>, changes: seq<Marker>, a: string, b: string, first: int)
    requires a in Services(anomalies) && b in Services(anomalies)
    requires Position(anomalies, edges, a) == Position(anomalies, edges, b)
    requires Breadth(anomalies, a) == Breadth(anomalies, b) && Marked(anomalies, changes, a) == Marked(anomalies, changes, b)
    requires StartsAt(anomalies, Any(), first) && HasOnsetAt(anomalies, Of(a), first)
    requires forall u :: HasOnsetAt(anomalies, Of(b), u) ==> u >= first + 500
    ensures RankedBefore(Ranked(anomalies, edges, changes), a, b)
  {
    hide Breadth, Position, Marked, Services, Ranked, OnsetScore, RankedBefore, Filter, Earliest;
    FirstOfService(anomalies, a, first);
    OnsetPoints(anomalies, a, first, first);
    EarliestExact(anomalies, Of(b));
    match Earliest(Filter(Of(b), anomalies)) {
      case None => OnsetPoints(anomalies, b, first, first);
      case Some(t) => OnsetPoints(anomalies, b, first, t);
    }
    HigherScoreFirst(anomalies, edges, changes, a, b);
  }

  lemma FirstOfService(anomalies: seq<Anomaly>, a: string, first: int)
    requires StartsAt(anomalies, Any(), first) && HasOnsetAt(anomalies, Of(a), first)
    ensures StartsAt(anomalies, Of(a), first)
  {
    forall u | HasOnsetAt(anomalies, Of(a), u) ensures first <= u {
      assert HasOnsetAt(anomalies, Any(), u);
    }
  }

  // ----- Markers and breadth -----

  /**
   * One more change adds four points to its service, and to no other, exactly when none
   * counted before and it lies at most 15 minutes before the first listed onset, or anywhere
   * when there is no onset.
   */
  lemma MarkerAddsFour(anomalies: seq<Anomaly>, edges: seq<Edge>, changes: seq<Marker>, m: Marker, svc: string)
    ensures var t := FirstListed(anomalies, m.service);
            var counts := m.service == svc && (t.None? || 0 <= t.value - m.ts <= 900_000);
            Score(anomalies, edges, changes + [m], svc) - Score(anomalies, edges, changes, svc)
            == if counts && !Marked(anomalies, changes, svc) then 4.0 else 0.0
  {
    hide Position, Breadth, OnsetScore, Filter;
    OneMoreMarker(anomalies, changes, m, svc);
  }

  lemma OneMoreMarker(anomalies: seq<Anomaly>, changes: seq<Marker>, m: Marker, svc: string)
    ensures var t := FirstListed(anomalies, m.service);
            Marked(anomalies, changes + [m], svc) <==>
              Marked(anomalies, changes, svc)
              || (m.service == svc && (t.None? || 0 <= t.value - m.ts <= 900_000))
  {
    hide Filter, Earliest;
    var all := changes + [m];
    assert all[|changes|] == m;
    assert forall i :: 0 <= i < |changes| ==> all[i] == changes[i];
    FirstOnsets(Filter(Of(svc), anomalies));
    if Marked(anomalies, all, svc) && !Marked(anomalies, changes, svc) {
      assert m.service == svc;
    }
  }

  /** One more anomaly of a listed service, without an onset, adds a quarter of its weight to that service alone. */
  lemma AnomalyAddsWeight(anomalies: seq<Anomaly>, edges: seq<Edge>, changes: seq<Marker>, a: Anomaly, svc: string)
    requires a.service in Services(anomalies) && a.onsetTs.None?
    ensures Score(anomalies + [a], edges, changes, svc) - Score(anomalies, edges, changes, svc)
         == if a.service != svc then 0.0 else match a.severity case Low => 0.25 case Medium => 0.5 case High => 0.75
  {
    hide Services, OnsetScore, Marked;
    var all := anomalies + [a];
    assert all[..|anomalies|] == anomalies;
    SameListing(anomalies, a);
    SameEvidence(anomalies, changes, a, svc);
  }

  lemma SameListing(anomalies: seq<Anomaly>, a: Anomaly)
    requires a.service in Services(anomalies)
    ensures Services(anomalies + [a]) == Services(anomalies)
  {
    assert (anomalies + [a])[..|anomalies|] == anomalies;
  }

  lemma SameEvidence(anomalies: seq<Anomaly>, changes: seq<Marker>, a: Anomaly, svc: string)
    requires a.onsetTs.None?
    ensures Evidence(anomalies + [a], changes, svc) == Evidence(anomalies, changes, svc)
  {
    hide Earliest, Filter;
    FilterAppend(Of(svc), anomalies, [a]);
    FilterOne(Of(svc), a);
    var own := Filter(Of(svc), anomalies);
    FilterAppend(HasOnset(), own, [a]);
    FilterOne(HasOnset(), a);
    EarliestOfMore(anomalies, a);
    EarliestOfMore(own, a);
    assert own + [] == own && Filter(HasOnset(), own) + [] == Filter(HasOnset(), own);
  }

  lemma {:induction false} EarliestOfMore(anomalies: seq<Anomaly>, a: Anomaly)
    requires a.onsetTs.None?
    ensures Earliest(anomalies + [a]) == Earliest(anomalies)
  {
    if anomalies == [] {
      assert [] + [a] == [a] && [a][1..] == [];
    } else {
      EarliestOfMore(anomalies[1..], a);
      assert (anomalies + [a])[1..] == anomalies[1..] + [a];
    }
  }

  // ----- Listing and confidence -----

  /** Services are listed by their first anomaly. */
  lemma {:induction false} ListedByFirst(anomalies: seq<Anomaly>, i: nat, j: nat, k: nat)
    requires i < j < |Services(anomalies)| && k < |anomalies| && anomalies[k].service == Services(anomalies)[j]
    ensures exists m :: 0 <= m < k && anomalies[m].service == Services(anomalies)[i]
  {
    var n := |anomalies| - 1;
    var before := Services(anomalies[..n]);
    assert before <= Services(anomalies);
    if j < |before| {
      if k == n {
        ServicesAreTheAnomalous(anomalies[..n]);
        assert before[i] in before;
        var m :| 0 <= m < n && anomalies[..n][m].service == before[i];
        assert anomalies[m].service == before[i];
      } else {
        ListedByFirst(anomalies[..n], i, j, k);
        var m :| 0 <= m < k && anomalies[..n][m].service == before[i];
        assert anomalies[m].service == before[i];
      }
    } else {
      ServicesAreTheAnomalous(anomalies[..n]);
      assert before[i] in before;
      var m :| 0 <= m < n && anomalies[..n][m].service == before[i];
      assert anomalies[m].service == before[i];
      if k < n {
        ServiceListed(anomalies[..n], k);
      }
    }
  }

  lemma ServiceListed(anomalies: seq<Anomaly>, k: nat)
    requires k < |anomalies|
    ensures anomalies[k].service in Services(anomalies)
  {
    ServicesAreTheAnomalous(anomalies);
  }

  /**
   * Only the first has more than low confidence: high from a lead of 5 points over the second
   * on, medium from 2 on; a single service is measured by its score.
   */
  lemma ConfidenceOfLead(anomalies: seq<Anomaly>, edges: seq<Edge>, changes: seq<Marker>)
    requires anomalies != []
    ensures var ranked := Ranked(anomalies, edges, changes);
            && ranked != []
            && (forall i :: 0 < i < |ranked| ==> ranked[i].confidence == Low)
            && (var lead := ranked[0].score - (if |ranked| > 1 then ranked[1].score else 0.0);
                && (ranked[0].confidence == High <==> lead >= 5.0)
                && (ranked[0].confidence == Medium <==> 2.0 <= lead < 5.0))
  {
    hide Score, Sort, Services;
    var cs := Candidates(anomalies, edges, changes, Services(anomalies));
    var sorted := Sort(ByScore, cs);
    SortMembers(ByScore, cs);
    ServicesAreTheAnomalous(anomalies);
    assert anomalies[0].service in Services(anomalies);
    forall i | 0 <= i < |sorted| ensures sorted[i].confidence == Low {
      assert sorted[i] in sorted;
    }
  }
}

/**
 * What the profile says back: the kind of every deviation, the order of learned values and of
 * rules, and what a review or an absorbed call leaves in a rule (inspect/profile.ts,
 * inspect/profile-store.ts).
 */
module ProfileLaws {
  import opened Prelude
  import opened Sorting
  import opened Profiles
  import opened ProfileStores
  import CanonicalJson

  // ----- Deviations under a rule -----

  lemma EvaluateByFirst(call: Call, rules: seq<Rule>)
    ensures First(ForTool(call.tool), Filter(ForSubject(call.principal), Filter(IsAccepted(), rules)))
         == First(InForce(call), rules)
    ensures Filter(ForSubject(call.principal), Filter(IsAccepted(), rules)) == [] ==> First(InForce(call), rules).None?
  {
    hide Filter;
    var accepted := Filter(IsAccepted(), rules);
    FirstOfFilter(ForSubject(call.principal), ForTool(call.tool), SubjectAndTool(call), accepted);
    FirstOfFilter(IsAccepted(), SubjectAndTool(call), InForce(call), rules);
  }

  /**
   * Under a rule in force: a new resource exactly when some dimension of the call is not
   * permitted, an argument out of range exactly when all dimensions are and some argument is
   * not, and otherwise the call is allowed; the answer names that rule.
   */
  lemma KindsWithRule(call: Call, rules: seq<Rule>)
    requires First(InForce(call), rules).Some?
    ensures var r := First(InForce(call), rules).value;
            var dimsFit := forall d :: d in call.dims ==> Permits(r.constraints, d, call.dims[d]);
            var argsFit := forall k :: k in call.args ==> PermitsArg(r.constraints, k, call.args[k]);
            Evaluate(call, rules) == if !dimsFit then Deviates(NewResource, Some(r.id))
                                     else if !argsFit then Deviates(ArgOutOfRange, Some(r.id))
                                     else Allow(r.id)
  {
    hide Filter, First, Permits, PermitsArg;
    EvaluateByFirst(call, rules);
  }

  // ----- The order of values -----

  /** Different values in ascending order. */
  predicate Ascends(values: seq<string>) {
    forall i, j :: 0 <= i < j < |values| ==> CanonicalJson.Precedes(values[i], values[j])
  }

  lemma KeyOrder()
    ensures TotalPreorder(CanonicalJson.KeyLe)
  {
    hide CanonicalJson.KeyLe;
    forall x: string, y: string ensures CanonicalJson.KeyLe(x, y) || CanonicalJson.KeyLe(y, x) {
      CanonicalJson.KeyLeTotal(x, y);
    }
    forall x: string, y: string, z: string | CanonicalJson.KeyLe(x, y) && CanonicalJson.KeyLe(y, z)
      ensures CanonicalJson.KeyLe(x, z)
    {
      CanonicalJson.KeyLeTransitive(x, y, z);
    }
  }

  lemma SortAscends(values: seq<string>)
    requires forall i, j :: 0 <= i < j < |values| ==> values[i] != values[j]
    ensures Ascends(Sort(CanonicalJson.KeyLe, values))
  {
    hide CanonicalJson.KeyLe, CanonicalJson.Precedes;
    var s := Sort(CanonicalJson.KeyLe, values);
    KeyOrder();
    SortSorted(CanonicalJson.KeyLe, values);
    DistinctOnce(values);
    OnceDistinct(s);
    forall i, j | 0 <= i < j < |s| ensures CanonicalJson.Precedes(s[i], s[j]) {
      CanonicalJson.KeyLeExact(s[i], s[j]);
    }
  }

  lemma {:induction false} DistinctOnce(values: seq<string>)
    requires forall i, j :: 0 <= i < j < |values| ==> values[i] != values[j]
    ensures forall v :: multiset(values)[v] <= 1
  {
    if values != [] {
      var n := |values| - 1;
      DistinctOnce(values[..n]);
      assert values == values[..n] + [values[n]];
      assert values[n] !in multiset(values[..n]);
    }
  }

  lemma OnceDistinct(s: seq<string>)
    requires forall v :: multiset(s)[v] <= 1
    ensures forall i, j :: 0 <= i < j < |s| ==> s[i] != s[j]
  {
    forall i, j | 0 <= i < j < |s| ensures s[i] != s[j] {
      if s[i] == s[j] {
        CountedTwice(s, i, j);
      }
    }
  }

  lemma CountedTwice(s: seq<string>, i: nat, j: nat)
    requires i < j < |s| && s[i] == s[j]
    ensures multiset(s)[s[i]] >= 2
  {
    assert s == s[..i] + [s[i]] + s[i + 1..j] + [s[j]] + s[j + 1..];
  }

  /** Learned values are listed once each, in ascending order. */
  lemma LearnedAscend(group: seq<Observation>)
    ensures var c := ConstraintsFrom(group);
            && (forall d :: d in c.dims ==> Ascends(c.dims[d])) && (forall k :: k in c.args ==> Ascends(c.args[k]))
  {
    hide Ascends, Values, Buckets, ArgKeys;
    var c := ConstraintsFrom(group);
    forall d | d in c.dims ensures Ascends(c.dims[d]) {
      SortAscends(Distinct(Values(group, d)));
    }
    forall k | k in c.args ensures Ascends(c.args[k]) {
      SortAscends(Distinct(Buckets(group, k)));
    }
  }

  /** Adding a value keeps the order and adds just that value. */
  lemma AddToAscends(values: seq<string>, v: string)
    requires Ascends(values)
    ensures Ascends(AddTo(values, v)) && forall x :: x in AddTo(values, v) <==> x in values || x == v
  {
    hide CanonicalJson.KeyLe, Ascends;
    AscendsDiffer(values);
    SortAscends(if v in values then values else values + [v]);
    forall x ensures x in AddTo(values, v) <==> x in values || x == v {
      AddToMembers(values, v, x);
    }
  }

  lemma AscendsDiffer(values: seq<string>)
    requires Ascends(values)
    ensures forall i, j :: 0 <= i < j < |values| ==> values[i] != values[j]
  {
  }

  // ----- The order of rules -----

  /** The ids of a list, and those of more rules behind it unless they are there already. */
  function AddIds(ids: seq<string>, more: seq<string>): seq<string> {
    if more == [] then ids
    else
      var k := |more| - 1;
      var before := AddIds(ids, more[..k]);
      if more[k] in before then before else before + [more[k]]
  }

  lemma {:induction false} AddIdsFront(ids: seq<string>, x: string, more: seq<string>)
    ensures AddIds(ids, [x] + more) == AddIds(if x in ids then ids else ids + [x], more)
    decreases |more|
  {
    var all, k := [x] + more, |more| - 1;
    if more == [] {
      assert all[..0] == [];
    } else {
      assert all[..|more|] == [x] + more[..k];
      AddIdsFront(ids, x, more[..k]);
    }
  }

  lemma {:induction false} AddIdsKeeps(ids: seq<string>, more: seq<string>)
    ensures ids <= AddIds(ids, more)
    ensures forall x :: x in AddIds(ids, more) <==> x in ids || x in more
  {
    if more != [] {
      var k := |more| - 1;
      AddIdsKeeps(ids, more[..k]);
      assert more == more[..k] + [more[k]];
    }
  }

  lemma AddNoIds(ids: seq<string>, more: seq<string>)
    ensures more == [] ==> AddIds(ids, more) == ids
  {
  }

  /** Repetitions among the added ids do not matter. */
  lemma {:induction false} AddIdsOnce(ids: seq<string>, more: seq<string>)
    ensures AddIds(ids, AddIds([], more)) == AddIds(ids, more)
    decreases |more|
  {
    if more != [] {
      var k := |more| - 1;
      var once := AddIds([], more[..k]);
      AddIdsOnce(ids, more[..k]);
      AddIdsKeeps([], more[..k]);
      AddIdsKeeps(ids, more[..k]);
      if more[k] !in once {
        assert (once + [more[k]])[..|once|] == once;
      }
    }
  }

  lemma IdsOfSet(rules: seq<Rule>, r: Rule)
    ensures IdsOf(MapSet(rules, r)) == if r.id in IdsOf(rules) then IdsOf(rules) else IdsOf(rules) + [r.id]
  {
    var i := IndexOf(rules, r.id);
    if i < |rules| {
      assert IdsOf(rules)[i] == r.id;
      assert IdsOf(rules[i := r]) == IdsOf(rules);
    } else {
      assert IdsOf(rules + [r]) == IdsOf(rules) + [r.id];
    }
  }

  lemma {:induction false} IdsOfSetAll(rules: seq<Rule>, more: seq<Rule>)
    ensures IdsOf(MapSetAll(rules, more)) == AddIds(IdsOf(rules), IdsOf(more))
    decreases |more|
  {
    hide MapSet, AddIds;
    AddNoIds(IdsOf(rules), IdsOf(more));
    if more != [] {
      IdsOfSet(rules, more[0]);
      IdsOfSetAll(MapSet(rules, more[0]), more[1..]);
      assert IdsOf(more) == [more[0].id] + IdsOf(more[1..]);
      AddIdsFront(IdsOf(rules), more[0].id, IdsOf(more[1..]));
    }
  }

  function GroupIds(groups: seq<Group>): (ids: seq<string>)
    ensures |ids| == |groups| && forall i :: 0 <= i < |ids| ==> ids[i] == groups[i].id
  {
    seq(|groups|, i requires 0 <= i < |groups| => groups[i].id)
  }

  function ObservedIds(observations: seq<Observation>): (ids: seq<string>)
    ensures |ids| == |observations| && forall i :: 0 <= i < |ids| ==> ids[i] == IdOf(observations[i])
  {
    seq(|observations|, i requires 0 <= i < |observations| => IdOf(observations[i]))
  }

  lemma IdsOfAdded(groups: seq<Group>, o: Observation)
    ensures GroupIds(AddObservation(groups, o))
         == if IdOf(o) in GroupIds(groups) then GroupIds(groups) else GroupIds(groups) + [IdOf(o)]
  {
    hide IdOf;
    var i := GroupIndex(groups, IdOf(o));
    if i < |groups| {
      assert GroupIds(groups)[i] == IdOf(o);
    }
  }

  lemma {:induction false} IdsOfGroups(groups: seq<Group>, observations: seq<Observation>)
    ensures GroupIds(GroupAll(groups, observations)) == AddIds(GroupIds(groups), ObservedIds(observations))
    decreases |observations|
  {
    hide AddObservation, AddIds, IdOf, GroupIndex;
    AddNoIds(GroupIds(groups), ObservedIds(observations));
    if observations != [] {
      var o := observations[0];
      IdsOfAdded(groups, o);
      IdsOfGroups(AddObservation(groups, o), observations[1..]);
      assert ObservedIds(observations) == [IdOf(o)] + ObservedIds(observations[1..]);
      AddIdsFront(GroupIds(groups), IdOf(o), ObservedIds(observations[1..]));
    }
  }

  lemma IdsOfRefresh(rules: seq<Rule>, g: Group)
    requires g.members != []
    ensures IdsOf(Refresh(rules, g)) == if g.id in IdsOf(rules) then IdsOf(rules) else IdsOf(rules) + [g.id]
  {
    var i := IndexOf(rules, g.id);
    IdsOfSet(rules, RuleFor(g));
    if i < |rules| {
      assert IdsOf(rules)[i] == g.id;
    }
  }

  lemma {:induction false} IdsOfRefreshAll(rules: seq<Rule>, groups: seq<Group>)
    requires ProperGroups(groups)
    ensures IdsOf(RefreshAll(rules, groups)) == AddIds(IdsOf(rules), GroupIds(groups))
    decreases |groups|
  {
    hide Refresh, AddIds, ProperGroups;
    AddNoIds(IdsOf(rules), GroupIds(groups));
    if groups != [] {
      LaterGroups(groups, 0);
      LaterGroups(groups, 1);
      IdsOfRefresh(rules, groups[0]);
      IdsOfRefreshAll(Refresh(rules, groups[0]), groups[1..]);
      assert GroupIds(groups) == [groups[0].id] + GroupIds(groups[1..]);
      AddIdsFront(IdsOf(rules), groups[0].id, GroupIds(groups[1..]));
    }
  }

  /** Rules keep their places, and rules for new targets follow in the order of first observation. */
  lemma DerivedOrder(observations: seq<Observation>, existing: seq<Rule>)
    ensures IdsOf(Derived(observations, existing)) == AddIds(AddIds([], IdsOf(existing)), ObservedIds(observations))
  {
    hide AddIds, MapSetAll, RefreshAll, GroupAll, ProperGroups;
    GroupsAreFilters([], observations, "") by {
      NoGroups();
    }
    NoGroups();
    var rules, groups := MapSetAll([], existing), GroupAll([], observations);
    IdsOfSetAll([], existing);
    IdsOfGroups([], observations);
    assert IdsOf([]) == [] && GroupIds([]) == [];
    IdsOfRefreshAll(rules, groups);
    AddIdsOnce(IdsOf(rules), ObservedIds(observations));
  }

  // ----- Reviewing and absorbing -----

  /** A review changes the status of the rule with the id and nothing else. */
  lemma StatusReads(rules: seq<Rule>, id: string, status: Status, other: string)
    ensures var found := Find(rules, other);
            Find(WithStatus(rules, id, status), other)
            == if found.Some? && other == id
               then Some(Rule(id, found.value.subject, found.value.tool, found.value.constraints, status,
                              found.value.provenance))
               else found
    ensures IdsOf(WithStatus(rules, id, status)) == IdsOf(rules)
  {
    hide Find, MapSet;
    var i := IndexOf(rules, id);
    FindAt(rules, id);
    if i < |rules| {
      var r := rules[i].(status := status);
      SetFound(rules, r);
      FindMapSet(rules, r, other);
      IdsOfSet(rules, r);
      assert IdsOf(rules)[i] == id;
    }
  }

  lemma SetFound(rules: seq<Rule>, r: Rule)
    ensures var i := IndexOf(rules, r.id);
            MapSet(rules, r) == if i < |rules| then rules[i := r] else rules + [r]
  {
  }

  /** An edit replaces what it gives, an empty subject being none, and keeps the rest. */
  lemma PatchReads(rules: seq<Rule>, id: string, constraints: Option<Constraints>, subject: string, other: string)
    ensures var found := Find(rules, other);
            Find(WithPatch(rules, id, constraints, subject), other)
            == if found.Some? && other == id
               then Some(Rule(id, if subject == "" then found.value.subject else subject, found.value.tool,
                              if constraints.None? then found.value.constraints else constraints.value,
                              found.value.status, found.value.provenance))
               else found
    ensures IdsOf(WithPatch(rules, id, constraints, subject)) == IdsOf(rules)
  {
    hide Find, MapSet;
    var i := IndexOf(rules, id);
    FindAt(rules, id);
    if i < |rules| {
      var r := Patched(rules[i], constraints, subject);
      SetFound(rules, r);
      FindMapSet(rules, r, other);
      IdsOfSet(rules, r);
      assert IdsOf(rules)[i] == id;
    }
  }

  /**
   * Absorbing a call accepts the rule of its target, notes the time, and keeps whatever else it
   * said; a rule made for it begins with that one call. Every other rule stays, in its place.
   */
  lemma AbsorbReads(rules: seq<Rule>, call: Call, ts: int, other: string)
    ensures var id := RuleId(call.principal, call.tool);
            var found, after := Find(rules, id), Find(Absorbed(rules, call, ts), other);
            if other != id then after == Find(rules, other)
            else
              && after.Some? && after.value.status == Accepted
              && after.value.provenance == (if found.None? then Provenance(1, ts, ts)
                                            else Provenance(found.value.provenance.learnedFrom,
                                                            found.value.provenance.firstSeen, ts))
              && after.value.subject == (if found.None? then call.principal else found.value.subject)
              && after.value.tool == (if found.None? then call.tool else found.value.tool)
    ensures IdsOf(Absorbed(rules, call, ts)) == AddIds(IdsOf(rules), [RuleId(call.principal, call.tool)])
  {
    hide Find, MapSet, RuleId, Widened;
    var id := RuleId(call.principal, call.tool);
    var r := AbsorbedRule(Find(rules, id), call, ts);
    FindAt(rules, id);
    SetFound(rules, r);
    FindMapSet(rules, r, other);
    IdsOfSet(rules, r);
    assert [id][..0] == [] && AddIds(IdsOf(rules), []) == IdsOf(rules);
  }

  /** The lists of an absorbed rule ascend when those of the rule did. */
  lemma AbsorbAscends(c: Constraints, call: Call)
    requires (forall d :: d in c.dims ==> Ascends(c.dims[d])) && (forall k :: k in c.args ==> Ascends(c.args[k]))
    ensures var w := Widened(c, call);
            && (forall d :: d in w.dims ==> Ascends(w.dims[d])) && (forall k :: k in w.args ==> Ascends(w.args[k]))
  {
    hide AddTo, Ascends;
    NothingAscends();
    forall d | d in call.dims ensures Ascends(AddTo(DimValues(c, d), call.dims[d])) {
      AddToAscends(DimValues(c, d), call.dims[d]);
    }
    forall k | k in call.args ensures Ascends(AddTo(ArgBuckets(c, k), call.args[k])) {
      AddToAscends(ArgBuckets(c, k), call.args[k]);
    }
  }

  lemma NothingAscends()
    ensures Ascends([])
  {
  }
}

/**
 * Behaviour profiles (inspect/profile.ts): rules learned from observed calls, and the
 * evaluation of a call against the accepted ones.
 */
module Profiles {
  import opened Prelude
  import opened Sorting
  import CanonicalJson
  import Text

  datatype Dim = Source | Service | Namespace

  const DIMS := [Source, Service, Namespace]

  /** A call as the gateway describes it; an absent dimension is not in the map. */
  datatype Call = Call(principal: string, tool: string, dims: map<Dim, string>, args: map<string, string>)

  datatype Observation = Observation(ts: int, call: Call)

  datatype Status = Suggested | Accepted | Rejected

  datatype Constraints = Constraints(dims: map<Dim, seq<string>>, args: map<string, seq<string>>)

  datatype Provenance = Provenance(learnedFrom: nat, firstSeen: int, lastSeen: int)

  datatype Rule = Rule(
    id: string, subject: string, tool: string, constraints: Constraints, status: Status, provenance: Provenance)

  datatype Deviation = NewPrincipal | NewTool | NewResource | ArgOutOfRange

  datatype EvalResult = Allow(ruleId: string) | Deviates(kind: Deviation, rule: Option<string>)

  function RuleId(subject: string, tool: string): string {
    subject + "::" + tool
  }

  // ----- Searching lists -----

  /** The index of the first element with the property, or the length. */
  function FindIndex<T>(p: T -> bool, s: seq<T>): (i: nat)
    ensures i <= |s| && (i < |s| ==> p(s[i]))
    ensures forall j :: 0 <= j < i ==> !p(s[j])
  {
    if s == [] || p(s[0]) then 0 else 1 + FindIndex(p, s[1..])
  }

  function First<T>(p: T -> bool, s: seq<T>): (r: Option<T>)
    ensures r.Some? ==> r.value in s && p(r.value)
    ensures r.None? ==> forall x :: x in s ==> !p(x)
  {
    if s == [] then None else if p(s[0]) then Some(s[0]) else First(p, s[1..])
  }

  /** Looking for one property among the elements with another is looking for both. */
  lemma {:induction false} FirstOfFilter<T>(p: T -> bool, q: T -> bool, pq: T -> bool, s: seq<T>)
    requires forall x :: x in s ==> pq(x) == (p(x) && q(x))
    ensures First(q, Filter(p, s)) == First(pq, s)
  {
    if s != [] {
      assert s[0] in s;
      FirstOfFilter(p, q, pq, s[1..]);
      if p(s[0]) {
        assert Filter(p, s) == [s[0]] + Filter(p, s[1..]) && Filter(p, s)[1..] == Filter(p, s[1..]);
      } else {
        assert Filter(p, s) == Filter(p, s[1..]);
      }
    }
  }

  lemma {:induction false} FirstAppend<T>(p: T -> bool, a: seq<T>, b: seq<T>)
    ensures First(p, a + b) == if First(p, a).Some? then First(p, a) else First(p, b)
  {
    if a == [] {
      assert a + b == b;
    } else {
      assert (a + b)[1..] == a[1..] + b;
      FirstAppend(p, a[1..], b);
    }
  }

  // ----- Learning the constraints of a group -----

  /** The distinct values in order of first appearance. */
  function Distinct(xs: seq<string>): (r: seq<string>)
    ensures forall x :: x in r <==> x in xs
    ensures forall i, j :: 0 <= i < j < |r| ==> r[i] != r[j]
  {
    if xs == [] then []
    else
      var k := |xs| - 1;
      assert xs == xs[..k] + [xs[k]];
      if xs[k] in xs[..k] then Distinct(xs[..k]) else Distinct(xs[..k]) + [xs[k]]
  }

  function UniqSorted(xs: seq<string>): seq<string> {
    Sort(CanonicalJson.KeyLe, Distinct(xs))
  }

  lemma UniqSortedMembers(xs: seq<string>, x: string)
    ensures x in UniqSorted(xs) <==> x in xs
  {
    SortMembers(CanonicalJson.KeyLe, Distinct(xs));
  }

  /** The nonempty values of a dimension. */
  function Values(group: seq<Observation>, d: Dim): seq<string> {
    if group == [] then []
    else
      var dims := group[0].call.dims;
      (if d in dims && dims[d] != "" then [dims[d]] else []) + Values(group[1..], d)
  }

  function Buckets(group: seq<Observation>, k: string): seq<string> {
    if group == [] then []
    else
      var args := group[0].call.args;
      (if k in args then [args[k]] else []) + Buckets(group[1..], k)
  }

  function ArgKeys(group: seq<Observation>): set<string> {
    if group == [] then {} else group[0].call.args.Keys + ArgKeys(group[1..])
  }

  function DimsFrom(group: seq<Observation>, among: set<Dim>): map<Dim, seq<string>> {
    map d | d in among && Values(group, d) != [] :: UniqSorted(Values(group, d))
  }

  function ArgsFrom(group: seq<Observation>, among: set<string>): map<string, seq<string>> {
    map k | k in among :: UniqSorted(Buckets(group, k))
  }

  function ConstraintsFrom(group: seq<Observation>): Constraints {
    Constraints(DimsFrom(group, {Source, Service, Namespace}), ArgsFrom(group, ArgKeys(group)))
  }

  function FirstDims(i: nat): set<Dim>
    requires i <= 3
  {
    (if i > 0 then {Source} else {}) + (if i > 1 then {Service} else {}) + (if i > 2 then {Namespace} else {})
  }

  method LearnConstraints(group: seq<Observation>) returns (c: Constraints)
    ensures c == ConstraintsFrom(group)
  {
    hide UniqSorted, Values, Buckets, ArgKeys, DimsFrom, ArgsFrom;
    var dims: map<Dim, seq<string>> := map[];
    DimsFromNone(group);
    for i := 0 to |DIMS|
      invariant dims == DimsFrom(group, FirstDims(i))
    {
      DimsFromMore(group, FirstDims(i), DIMS[i]);
      assert FirstDims(i + 1) == FirstDims(i) + {DIMS[i]};
      var vals := Values(group, DIMS[i]);
      if vals != [] {
        dims := dims[DIMS[i] := UniqSorted(vals)];
      }
    }
    assert FirstDims(|DIMS|) == {Source, Service, Namespace};
    var args := LearnArgs(group);
    c := Constraints(dims, args);
  }

  method LearnArgs(group: seq<Observation>) returns (args: map<string, seq<string>>)
    ensures args == ArgsFrom(group, ArgKeys(group))
  {
    hide UniqSorted, Buckets, ArgKeys;
    args := map[];
    var todo := ArgKeys(group);
    while todo != {}
      invariant todo <= ArgKeys(group)
      invariant args == ArgsFrom(group, ArgKeys(group) - todo)
    {
      var k :| k in todo;
      args := args[k := UniqSorted(Buckets(group, k))];
      todo := todo - {k};
    }
    assert ArgKeys(group) - todo == ArgKeys(group);
  }

  lemma DimsFromNone(group: seq<Observation>)
    ensures DimsFrom(group, {}) == map[]
  {
  }

  lemma DimsFromMore(group: seq<Observation>, among: set<Dim>, d: Dim)
    requires d !in among
    ensures DimsFrom(group, among + {d})
         == if Values(group, d) == [] then DimsFrom(group, among)
            else DimsFrom(group, among)[d := UniqSorted(Values(group, d))]
  {
    hide UniqSorted, Values;
  }

  predicate Permits(c: Constraints, d: Dim, v: string) {
    d in c.dims && v in c.dims[d]
  }

  predicate PermitsArg(c: Constraints, k: string, bucket: string) {
    k in c.args && bucket in c.args[k]
  }

  predicate Covers(c: Constraints, call: Call) {
    && (forall d :: d in call.dims ==> Permits(c, d, call.dims[d]))
    && (forall k :: k in call.args ==> PermitsArg(c, k, call.args[k]))
  }

  lemma {:induction false} ValuesSeen(group: seq<Observation>, d: Dim, v: string)
    ensures v in Values(group, d) <==>
            v != "" && exists o :: o in group && d in o.call.dims && o.call.dims[d] == v
  {
    if group != [] {
      ValuesSeen(group[1..], d, v);
      assert group[0] in group;
      if v != "" && exists o :: o in group && d in o.call.dims && o.call.dims[d] == v {
        var o :| o in group && d in o.call.dims && o.call.dims[d] == v;
        assert o == group[0] || o in group[1..];
      }
    }
  }

  lemma {:induction false} BucketsSeen(group: seq<Observation>, k: string, b: string)
    ensures b in Buckets(group, k) <==> exists o :: o in group && k in o.call.args && o.call.args[k] == b
    ensures k in ArgKeys(group) <==> exists o :: o in group && k in o.call.args
  {
    if group != [] {
      BucketsSeen(group[1..], k, b);
      assert group[0] in group;
      if exists o :: o in group && k in o.call.args {
        var o :| o in group && k in o.call.args;
        assert o == group[0] || o in group[1..];
      }
      if exists o :: o in group && k in o.call.args && o.call.args[k] == b {
        var o :| o in group && k in o.call.args && o.call.args[k] == b;
        assert o == group[0] || o in group[1..];
      }
    }
  }

  /** The learned constraints permit what was seen, and nothing else; never the empty text. */
  lemma LearnedPermits(group: seq<Observation>, d: Dim, v: string)
    ensures Permits(ConstraintsFrom(group), d, v) <==>
            v != "" && exists o :: o in group && d in o.call.dims && o.call.dims[d] == v
  {
    hide UniqSorted;
    ValuesSeen(group, d, v);
    UniqSortedMembers(Values(group, d), v);
  }

  lemma LearnedPermitsArg(group: seq<Observation>, k: string, b: string)
    ensures PermitsArg(ConstraintsFrom(group), k, b) <==>
            exists o :: o in group && k in o.call.args && o.call.args[k] == b
  {
    hide UniqSorted;
    BucketsSeen(group, k, b);
    UniqSortedMembers(Buckets(group, k), b);
  }

  // ----- Rules by id, as an insertion-ordered map -----

  function HasRuleId(id: string): Rule -> bool {
    (r: Rule) => r.id == id
  }

  function Find(rules: seq<Rule>, id: string): Option<Rule> {
    First(HasRuleId(id), rules)
  }

  function IndexOf(rules: seq<Rule>, id: string): (i: nat)
    ensures i <= |rules|
    ensures i < |rules| ==> rules[i].id == id
    ensures forall j :: 0 <= j < i ==> rules[j].id != id
  {
    FindIndex(HasRuleId(id), rules)
  }

  function MapSet(rules: seq<Rule>, r: Rule): seq<Rule> {
    var i := IndexOf(rules, r.id);
    if i < |rules| then rules[i := r] else rules + [r]
  }

  function MapSetAll(rules: seq<Rule>, more: seq<Rule>): seq<Rule>
    decreases |more|
  {
    if more == [] then rules else MapSetAll(MapSet(rules, more[0]), more[1..])
  }

  ghost predicate UniqueIds(rules: seq<Rule>) {
    forall i, j :: 0 <= i < j < |rules| ==> rules[i].id != rules[j].id
  }

  lemma {:induction false} FindAt(rules: seq<Rule>, id: string)
    ensures var i := IndexOf(rules, id);
            Find(rules, id) == if i < |rules| then Some(rules[i]) else None
  {
    if rules != [] && rules[0].id != id {
      FindAt(rules[1..], id);
    }
  }

  lemma FindUnique(rules: seq<Rule>, r: Rule)
    requires UniqueIds(rules) && r in rules
    ensures Find(rules, r.id) == Some(r)
  {
    FindAt(rules, r.id);
    var k :| 0 <= k < |rules| && rules[k] == r;
    assert IndexOf(rules, r.id) <= k;
  }

  lemma IndexIs(rules: seq<Rule>, id: string, i: nat)
    requires i <= |rules| && (i < |rules| ==> rules[i].id == id)
    requires forall j :: 0 <= j < i ==> rules[j].id != id
    ensures IndexOf(rules, id) == i
  {
  }

  lemma FindMapSet(rules: seq<Rule>, r: Rule, id: string)
    ensures Find(MapSet(rules, r), id) == if id == r.id then Some(r) else Find(rules, id)
  {
    hide Find, IndexOf;
    var after, i, j := MapSet(rules, r), IndexOf(rules, r.id), IndexOf(rules, id);
    FindAt(rules, id);
    FindAt(after, id);
    if id == r.id {
      IndexIs(after, id, i);
    } else {
      IndexIs(after, id, if j < |rules| then j else |after|);
    }
  }

  lemma MapSetUnique(rules: seq<Rule>, r: Rule)
    requires UniqueIds(rules)
    ensures UniqueIds(MapSet(rules, r))
  {
  }

  lemma {:induction false} MapSetAllFresh(rules: seq<Rule>, more: seq<Rule>)
    requires UniqueIds(rules + more)
    ensures MapSetAll(rules, more) == rules + more
    decreases |more|
  {
    if more == [] {
      assert rules + more == rules;
    } else {
      var r := more[0];
      assert (rules + more)[|rules|] == r;
      IndexIs(rules, r.id, |rules|) by {
        forall j | 0 <= j < |rules| ensures rules[j].id != r.id {
          assert (rules + more)[j] == rules[j];
        }
      }
      assert rules + [r] + more[1..] == rules + more;
      MapSetAllFresh(rules + [r], more[1..]);
    }
  }

  // ----- Groups of observations -----

  datatype Group = Group(id: string, members: seq<Observation>)

  function IdOf(o: Observation): string {
    RuleId(o.call.principal, o.call.tool)
  }

  function HasId(id: string): Observation -> bool {
    (o: Observation) => IdOf(o) == id
  }

  function GroupIndex(groups: seq<Group>, id: string): (i: nat)
    ensures i <= |groups|
    ensures i < |groups| ==> groups[i].id == id
    ensures forall j :: 0 <= j < i ==> groups[j].id != id
  {
    FindIndex((g: Group) => g.id == id, groups)
  }

  function AddObservation(groups: seq<Group>, o: Observation): seq<Group> {
    var i := GroupIndex(groups, IdOf(o));
    if i < |groups| then groups[i := Group(IdOf(o), groups[i].members + [o])] else groups + [Group(IdOf(o), [o])]
  }

  function GroupAll(groups: seq<Group>, observations: seq<Observation>): seq<Group>
    decreases |observations|
  {
    if observations == [] then groups else GroupAll(AddObservation(groups, observations[0]), observations[1..])
  }

  function MembersOf(groups: seq<Group>, id: string): seq<Observation> {
    var i := GroupIndex(groups, id);
    if i < |groups| then groups[i].members else []
  }

  ghost predicate ProperGroups(groups: seq<Group>) {
    && (forall i, j :: 0 <= i < j < |groups| ==> groups[i].id != groups[j].id)
    && (forall i :: 0 <= i < |groups| ==> groups[i].members != [])
  }

  lemma GroupIndexIs(groups: seq<Group>, id: string, i: nat)
    requires i <= |groups| && (i < |groups| ==> groups[i].id == id)
    requires forall j :: 0 <= j < i ==> groups[j].id != id
    ensures GroupIndex(groups, id) == i
  {
  }

  lemma AddedObservation(groups: seq<Group>, o: Observation, id: string)
    requires ProperGroups(groups)
    ensures ProperGroups(AddObservation(groups, o))
    ensures MembersOf(AddObservation(groups, o), id)
         == if IdOf(o) == id then MembersOf(groups, id) + [o] else MembersOf(groups, id)
  {
    hide GroupIndex, IdOf;
    var after, i, j := AddObservation(groups, o), GroupIndex(groups, IdOf(o)), GroupIndex(groups, id);
    if IdOf(o) == id {
      GroupIndexIs(after, id, i);
    } else {
      GroupIndexIs(after, id, if j < |groups| then j else |after|);
    }
  }

  lemma NoGroups()
    ensures ProperGroups([])
  {
  }

  /** A group holds the observations of its rule, in order. */
  lemma {:induction false} GroupsAreFilters(groups: seq<Group>, observations: seq<Observation>, id: string)
    requires ProperGroups(groups)
    ensures ProperGroups(GroupAll(groups, observations))
    ensures MembersOf(GroupAll(groups, observations), id) == MembersOf(groups, id) + Filter(HasId(id), observations)
    decreases |observations|
  {
    hide MembersOf, AddObservation, ProperGroups, IdOf;
    if observations != [] {
      AddedObservation(groups, observations[0], id);
      GroupsAreFilters(AddObservation(groups, observations[0]), observations[1..], id);
    }
  }

  // ----- Deriving -----

  predicate Earlier(a: Observation, b: Observation) {
    a.ts <= b.ts
  }

  function RuleFor(g: Group): (r: Rule)
    requires g.members != []
    ensures r.id == g.id && r.status == Suggested && r.constraints == ConstraintsFrom(g.members)
    ensures r.subject == g.members[0].call.principal && r.tool == g.members[0].call.tool
  {
    var sorted := Sort(Earlier, g.members);
    var call := g.members[0].call;
    Rule(g.id, call.principal, call.tool, ConstraintsFrom(g.members), Suggested,
         Provenance(|g.members|, sorted[0].ts, sorted[|sorted| - 1].ts))
  }

  /** The provenance of a rule spans the times of its traffic. */
  lemma ProvenanceSpans(g: Group)
    requires g.members != []
    ensures var p := RuleFor(g).provenance;
            && p.learnedFrom == |g.members|
            && (forall o :: o in g.members ==> p.firstSeen <= o.ts <= p.lastSeen)
            && (exists o :: o in g.members && o.ts == p.firstSeen) && (exists o :: o in g.members && o.ts == p.lastSeen)
  {
    var sorted := Sort(Earlier, g.members);
    var last := |sorted| - 1;
    SortSorted(Earlier, g.members);
    SortMembers(Earlier, g.members);
    forall o | o in g.members ensures sorted[0].ts <= o.ts <= sorted[last].ts {
      assert o in sorted;
      var k :| 0 <= k < |sorted| && sorted[k] == o;
      assert (k == 0 || Earlier(sorted[0], sorted[k])) && (k == last || Earlier(sorted[k], sorted[last]));
    }
    assert sorted[0] in g.members && sorted[last] in g.members;
  }

  function Refresh(rules: seq<Rule>, g: Group): seq<Rule>
    requires g.members != []
  {
    var i := IndexOf(rules, g.id);
    if i < |rules| && !rules[i].status.Suggested? then rules else MapSet(rules, RuleFor(g))
  }

  function RefreshAll(rules: seq<Rule>, groups: seq<Group>): seq<Rule>
    requires ProperGroups(groups)
    decreases |groups|
  {
    if groups == [] then rules
    else
      LaterGroups(groups, 1);
      RefreshAll(Refresh(rules, groups[0]), groups[1..])
  }

  lemma LaterGroups(groups: seq<Group>, k: nat)
    requires ProperGroups(groups) && k <= |groups|
    ensures ProperGroups(groups[k..])
    ensures k < |groups| ==> groups[k].members != []
  {
  }

  function Derived(observations: seq<Observation>, existing: seq<Rule>): seq<Rule> {
    GroupsAreFilters([], observations, "");
    RefreshAll(MapSetAll([], existing), GroupAll([], observations))
  }

  method DeriveProfile(observations: seq<Observation>, existing: seq<Rule>) returns (rules: seq<Rule>)
    ensures rules == Derived(observations, existing)
  {
    hide MapSet, AddObservation, ConstraintsFrom, Sort, IdOf, IndexOf, GroupIndex, ProperGroups;
    rules := [];
    for i := 0 to |existing|
      invariant MapSetAll(rules, existing[i..]) == MapSetAll([], existing)
    {
      assert existing[i..][1..] == existing[i + 1..];
      rules := MapSet(rules, existing[i]);
    }
    var groups: seq<Group> := [];
    for i := 0 to |observations|
      invariant GroupAll(groups, observations[i..]) == GroupAll([], observations)
    {
      assert observations[i..][1..] == observations[i + 1..];
      groups := AddObservation(groups, observations[i]);
    }
    NoGroups();
    GroupsAreFilters([], observations, "");
    assert groups[0..] == groups;
    for i := 0 to |groups|
      invariant ProperGroups(groups[i..]) && RefreshAll(rules, groups[i..]) == Derived(observations, existing)
    {
      assert groups[i..][0] == groups[i] && groups[i..][1..] == groups[i + 1..];
      LaterGroups(groups[i..], 0);
      LaterGroups(groups[i..], 1);
      var g := groups[i];
      var k := IndexOf(rules, g.id);
      if k < |rules| && !rules[k].status.Suggested? {
        continue;
      }
      var sorted := Sort(Earlier, g.members);
      var constraints := LearnConstraints(g.members);
      var provenance := Provenance(|g.members|, sorted[0].ts, sorted[|sorted| - 1].ts);
      rules := MapSet(
        rules, Rule(g.id, g.members[0].call.principal, g.members[0].call.tool, constraints, Suggested, provenance));
    }
  }

  // ----- Evaluating a call -----

  function IsAccepted(): Rule -> bool {
    (r: Rule) => r.status.Accepted?
  }

  function ForSubject(principal: string): Rule -> bool {
    (r: Rule) => r.subject == principal || r.subject == "*"
  }

  function ForTool(tool: string): Rule -> bool {
    (r: Rule) => r.tool == tool
  }

  /** The verdict of the accepted rules. */
  function EvaluateAccepted(call: Call, accepted: seq<Rule>): EvalResult {
    var subjectRules := Filter(ForSubject(call.principal), accepted);
    if subjectRules == [] then
      Deviates(if exists i :: 0 <= i < |accepted| && accepted[i].subject == call.principal then NewTool else NewPrincipal,
               None)
    else
      match First(ForTool(call.tool), subjectRules)
      case None => Deviates(NewTool, None)
      case Some(rule) =>
        if exists d :: d in call.dims && !Permits(rule.constraints, d, call.dims[d]) then
          Deviates(NewResource, Some(rule.id))
        else if exists k :: k in call.args && !PermitsArg(rule.constraints, k, call.args[k]) then
          Deviates(ArgOutOfRange, Some(rule.id))
        else
          Allow(rule.id)
  }

  function Evaluate(call: Call, rules: seq<Rule>): EvalResult {
    EvaluateAccepted(call, Filter(IsAccepted(), rules))
  }

  method EvaluateCall(call: Call, rules: seq<Rule>) returns (r: EvalResult)
    ensures r == Evaluate(call, rules)
  {
    hide First, Filter, Permits, PermitsArg;
    var accepted := Filter(IsAccepted(), rules);
    var subjectRules := Filter(ForSubject(call.principal), accepted);
    if subjectRules == [] {
      var known := exists i :: 0 <= i < |accepted| && accepted[i].subject == call.principal;
      return Deviates(if known then NewTool else NewPrincipal, None);
    }
    var found := First(ForTool(call.tool), subjectRules);
    if found.None? {
      return Deviates(NewTool, None);
    }
    var rule := found.value;
    for i := 0 to |DIMS|
      invariant forall j :: 0 <= j < i && DIMS[j] in call.dims ==> Permits(rule.constraints, DIMS[j], call.dims[DIMS[j]])
    {
      if DIMS[i] in call.dims && !Permits(rule.constraints, DIMS[i], call.dims[DIMS[i]]) {
        return Deviates(NewResource, Some(rule.id));
      }
    }
    forall d | d in call.dims ensures Permits(rule.constraints, d, call.dims[d]) {
      assert d == DIMS[0] || d == DIMS[1] || d == DIMS[2];
    }
    var todo := call.args.Keys;
    while todo != {}
      invariant todo <= call.args.Keys
      invariant forall k :: k in call.args && k !in todo ==> PermitsArg(rule.constraints, k, call.args[k])
    {
      var k :| k in todo;
      if !PermitsArg(rule.constraints, k, call.args[k]) {
        return Deviates(ArgOutOfRange, Some(rule.id));
      }
      todo := todo - {k};
    }
    return Allow(rule.id);
  }

  predicate Allowed(call: Call, rules: seq<Rule>) {
    Evaluate(call, rules).Allow?
  }

  function InForce(call: Call): Rule -> bool {
    (r: Rule) => r.status.Accepted? && (r.subject == call.principal || r.subject == "*") && r.tool == call.tool
  }

  /** A call is allowed when the first accepted rule for its subject and tool covers it. */
  lemma AllowedByFirst(call: Call, rules: seq<Rule>)
    ensures var r := First(InForce(call), rules);
            Allowed(call, rules) <==> r.Some? && Covers(r.value.constraints, call)
    ensures Allowed(call, rules) ==> Evaluate(call, rules) == Allow(First(InForce(call), rules).value.id)
  {
    hide Filter, Permits, PermitsArg;
    var accepted := Filter(IsAccepted(), rules);
    forall x ensures x in accepted <==> x in rules && IsAccepted()(x) {
      FilterMembers(IsAccepted(), rules, x);
    }
    FirstOfFilter(ForSubject(call.principal), ForTool(call.tool), SubjectAndTool(call), accepted);
    FirstOfFilter(IsAccepted(), SubjectAndTool(call), InForce(call), rules);
  }

  function SubjectAndTool(call: Call): Rule -> bool {
    (r: Rule) => (r.subject == call.principal || r.subject == "*") && r.tool == call.tool
  }

  /**
   * The kinds of a deviation without a rule: a new principal exactly when no accepted rule is
   * for the subject, a new tool exactly when one is but none for the tool. The test for a
   * known subject among the subjects without rules never succeeds.
   */
  lemma KindsWithoutRule(call: Call, rules: seq<Rule>)
    ensures Evaluate(call, rules) == Deviates(NewPrincipal, None) <==>
            forall r :: r in rules && IsAccepted()(r) ==> !ForSubject(call.principal)(r)
    ensures Evaluate(call, rules) == Deviates(NewTool, None) <==>
            && (exists r :: r in rules && IsAccepted()(r) && ForSubject(call.principal)(r))
            && (forall r :: r in rules ==> !InForce(call)(r))
  {
    hide Filter, Permits, PermitsArg, First;
    var accepted := Filter(IsAccepted(), rules);
    var subjectRules := Filter(ForSubject(call.principal), accepted);
    forall r ensures r in accepted <==> r in rules && IsAccepted()(r) {
      FilterMembers(IsAccepted(), rules, r);
    }
    forall r ensures r in subjectRules <==> r in rules && IsAccepted()(r) && ForSubject(call.principal)(r) {
      FilterMembers(ForSubject(call.principal), accepted, r);
    }
    if subjectRules != [] {
      var r := subjectRules[0];
      assert r in rules && IsAccepted()(r) && ForSubject(call.principal)(r);
      var found := First(ForTool(call.tool), subjectRules);
      if found.Some? {
        assert found.value in rules && InForce(call)(found.value);
      } else {
        forall r | r in rules ensures !InForce(call)(r) {
          assert r in subjectRules ==> !ForTool(call.tool)(r);
        }
      }
    } else {
      forall i | 0 <= i < |accepted| ensures accepted[i].subject != call.principal {
        assert accepted[i] in accepted && accepted[i] !in subjectRules;
      }
    }
  }

  // ----- What deriving keeps -----

  function Decided(r: Option<Rule>): bool {
    r.Some? && !r.value.status.Suggested?
  }

  lemma FilterReplaced(p: Rule -> bool, rules: seq<Rule>, i: nat, r: Rule)
    requires i < |rules| && !p(rules[i]) && !p(r)
    ensures Filter(p, rules[i := r]) == Filter(p, rules)
  {
    var a, b := rules[..i], rules[i + 1..];
    assert rules == a + ([rules[i]] + b) && rules[i := r] == a + ([r] + b);
    FilterAppend(p, a, [rules[i]] + b);
    FilterAppend(p, a, [r] + b);
    FilterStep(p, rules[i], b);
    FilterStep(p, r, b);
  }

  lemma FilterAppended(p: Rule -> bool, rules: seq<Rule>, r: Rule)
    requires !p(r)
    ensures Filter(p, rules + [r]) == Filter(p, rules)
  {
    FilterAppend(p, rules, [r]);
    FilterStep(p, r, []);
    assert [r] + [] == [r];
  }

  /** What is found under an id after traffic for it has been taken in. */
  function FoundAfter(found: Option<Rule>, id: string, members: seq<Observation>): Option<Rule> {
    if members == [] || Decided(found) then found else Some(RuleFor(Group(id, members)))
  }

  lemma RefreshEffect(rules: seq<Rule>, g: Group, id: string)
    requires g.members != [] && UniqueIds(rules)
    ensures UniqueIds(Refresh(rules, g))
    ensures Filter(IsAccepted(), Refresh(rules, g)) == Filter(IsAccepted(), rules)
    ensures Find(Refresh(rules, g), id)
         == if id == g.id then FoundAfter(Find(rules, id), id, g.members) else Find(rules, id)
  {
    hide Filter, IndexOf, RuleFor, Find, MapSet;
    var r := RuleFor(g);
    assert g == Group(g.id, g.members);
    FindAt(rules, g.id);
    FindMapSet(rules, r, id);
    MapSetUnique(rules, r);
    if !Decided(Find(rules, g.id)) {
      MapSetAccepted(rules, r);
    }
  }

  lemma MapSetAccepted(rules: seq<Rule>, r: Rule)
    requires r.status.Suggested? && !Decided(Find(rules, r.id))
    ensures Filter(IsAccepted(), MapSet(rules, r)) == Filter(IsAccepted(), rules)
  {
    hide Filter, IndexOf, Find;
    var i := IndexOf(rules, r.id);
    FindAt(rules, r.id);
    if i == |rules| {
      FilterAppended(IsAccepted(), rules, r);
    } else {
      FilterReplaced(IsAccepted(), rules, i, r);
    }
  }

  lemma {:induction false} RefreshAllEffect(rules: seq<Rule>, groups: seq<Group>, id: string)
    requires ProperGroups(groups) && UniqueIds(rules)
    ensures UniqueIds(RefreshAll(rules, groups))
    ensures Filter(IsAccepted(), RefreshAll(rules, groups)) == Filter(IsAccepted(), rules)
    ensures Find(RefreshAll(rules, groups), id) == FoundAfter(Find(rules, id), id, MembersOf(groups, id))
    decreases |groups|
  {
    hide Filter, Refresh, RuleFor, Find, UniqueIds, MembersOf, ProperGroups;
    if groups == [] {
      NoMembers(id);
    } else {
      LaterGroups(groups, 0);
      LaterGroups(groups, 1);
      RefreshEffect(rules, groups[0], id);
      RefreshAllEffect(Refresh(rules, groups[0]), groups[1..], id);
      MembersStep(groups, id);
    }
  }

  lemma MembersStep(groups: seq<Group>, id: string)
    requires ProperGroups(groups) && groups != []
    ensures MembersOf(groups, id) == if groups[0].id == id then groups[0].members else MembersOf(groups[1..], id)
    ensures groups[0].id == id ==> MembersOf(groups[1..], id) == []
  {
    var i := GroupIndex(groups[1..], groups[0].id);
    assert i == |groups| - 1;
  }

  lemma NoMembers(id: string)
    ensures MembersOf([], id) == []
  {
  }

  /** With unique ids, a derivation takes the groups into the list as it is. */
  lemma DerivedUnique(observations: seq<Observation>, existing: seq<Rule>)
    requires UniqueIds(existing)
    ensures ProperGroups(GroupAll([], observations))
    ensures Derived(observations, existing) == RefreshAll(existing, GroupAll([], observations))
  {
    hide RefreshAll, MapSetAll, GroupAll, MembersOf, ProperGroups, UniqueIds;
    NoGroups();
    GroupsAreFilters([], observations, "");
    assert [] + existing == existing;
    MapSetAllFresh([], existing);
  }

  lemma GroupMembers(observations: seq<Observation>, id: string)
    ensures MembersOf(GroupAll([], observations), id) == Filter(HasId(id), observations)
  {
    hide MembersOf, GroupAll, Filter, HasId;
    GroupsAreFilters([], observations, id);
    NoMembers(id);
  }

  /** What a derivation holds under an id: a human decision, fresh traffic, or what was there. */
  lemma DerivedRules(observations: seq<Observation>, existing: seq<Rule>, id: string)
    requires UniqueIds(existing)
    ensures UniqueIds(Derived(observations, existing))
    ensures Filter(IsAccepted(), Derived(observations, existing)) == Filter(IsAccepted(), existing)
    ensures Find(Derived(observations, existing), id)
         == FoundAfter(Find(existing, id), id, Filter(HasId(id), observations))
  {
    hide *;
    DerivedUnique(observations, existing);
    GroupMembers(observations, id);
    RefreshAllEffect(existing, GroupAll([], observations), id);
  }

  /** Deriving never changes what enforcement says about any call. */
  lemma DeriveInvisible(observations: seq<Observation>, existing: seq<Rule>, call: Call)
    requires UniqueIds(existing)
    ensures Evaluate(call, Derived(observations, existing)) == Evaluate(call, existing)
  {
    hide EvaluateAccepted, Derived, Filter, UniqueIds, Find;
    DerivedRules(observations, existing, "");
  }

  /** Accepted and rejected rules come through a derivation as they were. */
  lemma DeriveKeepsDecisions(observations: seq<Observation>, existing: seq<Rule>, r: Rule)
    requires UniqueIds(existing) && r in existing && !r.status.Suggested?
    ensures r in Derived(observations, existing)
  {
    hide Derived, Filter;
    DerivedRules(observations, existing, r.id);
    FindUnique(existing, r);
  }

  /** Deriving again from the same traffic changes nothing. */
  lemma DeriveIdempotent(observations: seq<Observation>, existing: seq<Rule>)
    requires UniqueIds(existing)
    ensures Derived(observations, Derived(observations, existing)) == Derived(observations, existing)
  {
    hide *;
    var once, groups := Derived(observations, existing), GroupAll([], observations);
    DerivedRules(observations, existing, "");
    DerivedUnique(observations, once);
    forall i | 0 <= i < |groups| ensures UpToDate(once, groups[i]) {
      GroupUpToDate(observations, existing, i);
    }
    RefreshNothing(once, groups);
  }

  /** Taking the group in would change nothing. */
  predicate UpToDate(rules: seq<Rule>, g: Group) {
    FoundAfter(Find(rules, g.id), g.id, g.members) == Find(rules, g.id) && Find(rules, g.id).Some?
  }

  lemma GroupUpToDate(observations: seq<Observation>, existing: seq<Rule>, i: nat)
    requires UniqueIds(existing) && i < |GroupAll([], observations)|
    ensures UpToDate(Derived(observations, existing), GroupAll([], observations)[i])
  {
    hide Derived, GroupAll, Filter, Find, RuleFor, UniqueIds, HasId;
    var groups := GroupAll([], observations);
    var id := groups[i].id;
    DerivedRules(observations, existing, id);
    DerivedUnique(observations, existing);
    GroupMembers(observations, id);
    GroupIndexIs(groups, id, i);
  }

  lemma {:induction false} RefreshNothing(rules: seq<Rule>, groups: seq<Group>)
    requires ProperGroups(groups)
    requires forall i :: 0 <= i < |groups| ==> UpToDate(rules, groups[i])
    ensures RefreshAll(rules, groups) == rules
    decreases |groups|
  {
    hide Find, RuleFor, UpToDate, Refresh, ProperGroups;
    if groups != [] {
      LaterGroups(groups, 0);
      LaterGroups(groups, 1);
      RefreshUpToDate(rules, groups[0]);
      RefreshNothing(rules, groups[1..]);
    }
  }

  lemma RefreshUpToDate(rules: seq<Rule>, g: Group)
    requires g.members != [] && UpToDate(rules, g)
    ensures Refresh(rules, g) == rules
  {
    hide Find, RuleFor;
    assert g == Group(g.id, g.members);
    FindAt(rules, g.id);
  }

  // ----- Learn, accept, enforce -----

  function Accept(r: Rule): Rule {
    r.(status := Accepted)
  }

  predicate SameTarget(a: Call, b: Call) {
    a.principal == b.principal && a.tool == b.tool
  }

  ghost predicate IdsDistinct(observations: seq<Observation>) {
    forall o, o' :: o in observations && o' in observations && IdOf(o) == IdOf(o') ==> SameTarget(o.call, o'.call)
  }

  ghost predicate NoWildcard(observations: seq<Observation>) {
    forall o :: o in observations ==> o.call.principal != "*"
  }

  predicate SawDim(observations: seq<Observation>, target: Call, d: Dim, v: string) {
    exists o :: o in observations && SameTarget(o.call, target) && d in o.call.dims && o.call.dims[d] == v
  }

  predicate SawArg(observations: seq<Observation>, target: Call, k: string, b: string) {
    exists o :: o in observations && SameTarget(o.call, target) && k in o.call.args && o.call.args[k] == b
  }

  predicate SawTarget(observations: seq<Observation>, target: Call) {
    exists o :: o in observations && SameTarget(o.call, target)
  }

  lemma {:induction false} FirstOfMap(p: Rule -> bool, q: Rule -> bool, f: Rule -> Rule, s: seq<Rule>)
    requires forall r :: p(f(r)) == q(r)
    ensures First(p, Map(f, s)) == if First(q, s).Some? then Some(f(First(q, s).value)) else None
  {
    if s != [] {
      assert Map(f, s)[1..] == Map(f, s[1..]);
      FirstOfMap(p, q, f, s[1..]);
    }
  }

  /** The learned rule for a target, and no other, is in force for it once accepted. */
  lemma LearnedInForce(observations: seq<Observation>, call: Call)
    requires IdsDistinct(observations) && NoWildcard(observations)
    ensures var id := RuleId(call.principal, call.tool);
            var seen := Filter(HasId(id), observations);
            && (SawTarget(observations, call) ==> seen != [])
            && First(SubjectAndTool(call), Derived(observations, []))
               == if SawTarget(observations, call) then Some(RuleFor(Group(id, seen))) else None
  {
    hide RuleFor, Filter, Derived, First, RuleId;
    var rules, id := Derived(observations, []), RuleId(call.principal, call.tool);
    var r := First(SubjectAndTool(call), rules);
    if r.Some? {
      LearnedRule(observations, r.value);
      var seen := Filter(HasId(r.value.id), observations);
      FilterMembers(HasId(r.value.id), observations, seen[0]);
      assert seen[0] in observations && SameTarget(seen[0].call, call);
    } else if SawTarget(observations, call) {
      var o :| o in observations && SameTarget(o.call, call);
      TargetHasRule(observations, o);
      assert false;
    }
  }

  lemma LearnedRule(observations: seq<Observation>, r: Rule)
    requires r in Derived(observations, [])
    ensures var seen := Filter(HasId(r.id), observations);
            seen != [] && r == RuleFor(Group(r.id, seen))
  {
    hide RuleFor, Filter, Derived;
    DerivedRules(observations, [], r.id);
    FindUnique(Derived(observations, []), r);
  }

  lemma TargetHasRule(observations: seq<Observation>, o: Observation)
    requires IdsDistinct(observations) && o in observations
    ensures exists r :: r in Derived(observations, []) && SubjectAndTool(o.call)(r)
  {
    hide RuleFor, Filter, Derived, IdOf;
    var id := IdOf(o);
    DerivedRules(observations, [], id);
    FilterMembers(HasId(id), observations, o);
    var seen := Filter(HasId(id), observations);
    FilterMembers(HasId(id), observations, seen[0]);
    assert IdOf(seen[0]) == id;
    assert RuleFor(Group(id, seen)) in Derived(observations, []);
  }

  /**
   * Once everything learned is accepted, a call is allowed exactly when each of its
   * dimensions (none of them empty) and each of its argument buckets was seen for that
   * subject and tool.
   */
  lemma LearnedExactly(observations: seq<Observation>, call: Call)
    requires IdsDistinct(observations) && NoWildcard(observations)
    ensures Allowed(call, Map(Accept, Derived(observations, []))) <==>
            && SawTarget(observations, call)
            && (forall d :: d in call.dims ==> call.dims[d] != "" && SawDim(observations, call, d, call.dims[d]))
            && (forall k :: k in call.args ==> SawArg(observations, call, k, call.args[k]))
  {
    hide Derived, Filter, Evaluate, Permits, PermitsArg, SawTarget, SawDim, SawArg, ConstraintsFrom, First;
    var id := RuleId(call.principal, call.tool);
    AllowedByFirst(call, Map(Accept, Derived(observations, [])));
    FirstOfMap(InForce(call), SubjectAndTool(call), Accept, Derived(observations, []));
    LearnedInForce(observations, call);
    var seen := Filter(HasId(id), observations);
    if SawTarget(observations, call) {
      forall d | d in call.dims
        ensures Permits(ConstraintsFrom(seen), d, call.dims[d])
           <==> call.dims[d] != "" && SawDim(observations, call, d, call.dims[d])
      {
        SeenDims(observations, call, d, call.dims[d]);
      }
      forall k | k in call.args
        ensures PermitsArg(ConstraintsFrom(seen), k, call.args[k]) <==> SawArg(observations, call, k, call.args[k])
      {
        SeenArgs(observations, call, k, call.args[k]);
      }
    }
  }

  lemma TargetById(observations: seq<Observation>, call: Call, o: Observation)
    requires IdsDistinct(observations) && SawTarget(observations, call)
    ensures o in Filter(HasId(RuleId(call.principal, call.tool)), observations) <==>
            o in observations && SameTarget(o.call, call)
  {
    hide RuleId;
    FilterMembers(HasId(RuleId(call.principal, call.tool)), observations, o);
    var w :| w in observations && SameTarget(w.call, call);
    assert IdOf(w) == RuleId(call.principal, call.tool);
  }

  lemma SeenDims(observations: seq<Observation>, call: Call, d: Dim, v: string)
    requires IdsDistinct(observations) && SawTarget(observations, call)
    ensures Permits(ConstraintsFrom(Filter(HasId(RuleId(call.principal, call.tool)), observations)), d, v) <==>
            v != "" && SawDim(observations, call, d, v)
  {
    hide RuleId, Filter, Permits, ConstraintsFrom, SawTarget, IdsDistinct;
    var seen := Filter(HasId(RuleId(call.principal, call.tool)), observations);
    LearnedPermits(seen, d, v);
    forall o: Observation ensures o in seen <==> o in observations && SameTarget(o.call, call) {
      TargetById(observations, call, o);
    }
  }

  lemma SeenArgs(observations: seq<Observation>, call: Call, k: string, b: string)
    requires IdsDistinct(observations) && SawTarget(observations, call)
    ensures PermitsArg(ConstraintsFrom(Filter(HasId(RuleId(call.principal, call.tool)), observations)), k, b) <==>
            SawArg(observations, call, k, b)
  {
    hide RuleId, Filter, PermitsArg, ConstraintsFrom, SawTarget, IdsDistinct;
    var seen := Filter(HasId(RuleId(call.principal, call.tool)), observations);
    LearnedPermitsArg(seen, k, b);
    forall o: Observation ensures o in seen <==> o in observations && SameTarget(o.call, call) {
      TargetById(observations, call, o);
    }
  }

  /** An observed call is allowed, unless it carries an empty dimension. */
  lemma ObservedAllowed(observations: seq<Observation>, o: Observation)
    requires IdsDistinct(observations) && NoWildcard(observations) && o in observations
    ensures Allowed(o.call, Map(Accept, Derived(observations, []))) <==>
            forall d :: d in o.call.dims ==> o.call.dims[d] != ""
  {
    hide Allowed, Derived;
    LearnedExactly(observations, o.call);
    assert SameTarget(o.call, o.call);
  }

  /** The dimensions of a recorded call: the textual arguments, trimmed, unless nothing is left. */
  function SignatureDims(args: map<Dim, string>): map<Dim, string> {
    map d | d in args && Text.Trim(args[d]) != "" :: Text.Trim(args[d])
  }

  /** The gateway records and evaluates calls under derived signatures only. */
  ghost predicate Recorded(call: Call) {
    exists args :: call.dims == SignatureDims(args)
  }

  /** Every recorded call is allowed by its own profile. */
  lemma RecordedAllowed(observations: seq<Observation>, o: Observation)
    requires IdsDistinct(observations) && NoWildcard(observations) && o in observations && Recorded(o.call)
    ensures Allowed(o.call, Map(Accept, Derived(observations, [])))
  {
    hide Allowed, Derived, IdsDistinct, NoWildcard;
    ObservedAllowed(observations, o);
  }

  // ----- Rule ids -----

  /** A subject that holds no separator and cannot run into the one after it. */
  predicate Unambiguous(subject: string) {
    && (subject != "" ==> subject[|subject| - 1] != ':')
    && forall i :: 0 <= i < |subject| - 1 ==> !(subject[i] == ':' && subject[i + 1] == ':')
  }

  /** Unambiguous, and not the wildcard. */
  predicate Plain(subject: string) {
    subject != "*" && Unambiguous(subject)
  }

  /** Rules of unambiguous subjects have distinct ids for distinct subjects or tools. */
  lemma RuleIdInjective(s: string, t: string, s': string, t': string)
    requires Unambiguous(s) && Unambiguous(s') && RuleId(s, t) == RuleId(s', t')
    ensures s == s' && t == t'
  {
    if |s| > |s'| {
      SeparatorInside(s', t', s, t);
      assert false;
    } else if |s| < |s'| {
      SeparatorInside(s, t, s', t');
      assert false;
    } else {
      var id := RuleId(s, t);
      assert s == id[..|s|] && s' == id[..|s|] && t == id[|s| + 2..] && t' == id[|s| + 2..];
    }
  }

  /** When a shorter subject shares the id, a separator begins in the longer one where the shorter ends. */
  lemma SeparatorInside(s: string, t: string, s': string, t': string)
    requires |s| < |s'| && RuleId(s, t) == RuleId(s', t')
    ensures s'[|s|] == ':' && (|s| + 1 < |s'| ==> s'[|s| + 1] == ':')
    ensures !Unambiguous(s')
  {
    var id := RuleId(s, t);
    assert id[|s|] == ':' && id[|s| + 1] == ':';
    assert id[..|s'|] == s';
  }

  /** Wherever a separator begins in a subject, the subject before it can have the same id. */
  lemma RuleIdsCollide(s: string, i: nat, t: string) returns (t': string)
    requires i < |s| && s[i] == ':' && (i + 1 == |s| || s[i + 1] == ':')
    ensures RuleId(s[..i], t') == RuleId(s, t)
  {
    var id := RuleId(s, t);
    t' := id[i + 2..];
    assert id[i] == s[i] && id[i + 1] == if i + 1 == |s| then ':' else s[i + 1];
    assert id[i..i + 2] == [id[i], id[i + 1]] == "::";
    assert id[..i] == s[..i] && id == id[..i] + id[i..i + 2] + id[i + 2..];
  }

  /** A subject, with any tool, shares its rule id with a shorter subject exactly when it is ambiguous. */
  lemma AmbiguousExactly(s: string, t: string)
    ensures (exists s', t' :: |s'| < |s| && RuleId(s', t') == RuleId(s, t)) <==> !Unambiguous(s)
  {
    hide RuleId;
    if s', t' :| |s'| < |s| && RuleId(s', t') == RuleId(s, t) {
      SeparatorInside(s', t', s, t);
    }
    if !Unambiguous(s) {
      var i :| 0 <= i < |s| && s[i] == ':' && (i + 1 == |s| || s[i + 1] == ':');
      var t' := RuleIdsCollide(s, i, t);
      assert |s[..i]| < |s|;
    }
  }

  /** The longer subject continues the shorter with a separator, or with its first colon at the end. */
  predicate Continues(longer: string, s: string) {
    s + "::" <= longer || longer == s + ":"
  }

  /** Two subjects can share a rule id exactly when one continues the other with a separator. */
  lemma SubjectsCollideExactly(s: string, s': string)
    requires s != s'
    ensures (exists t, t' :: RuleId(s, t) == RuleId(s', t')) <==> Continues(s', s) || Continues(s, s')
  {
    hide RuleId, Continues;
    if t, t' :| RuleId(s, t) == RuleId(s', t') {
      SharedId(s, t, s', t');
    }
    if Continues(s', s) {
      var t := ContinuedCollides(s, s');
      assert RuleId(s, t) == RuleId(s', "");
    } else if Continues(s, s') {
      var t' := ContinuedCollides(s', s);
      assert RuleId(s, "") == RuleId(s', t');
    }
  }

  lemma SharedId(s: string, t: string, s': string, t': string)
    requires s != s' && RuleId(s, t) == RuleId(s', t')
    ensures Continues(s', s) || Continues(s, s')
  {
    hide Continues;
    var id := RuleId(s, t);
    assert id[..|s|] == s && id[..|s'|] == s';
    if |s| < |s'| {
      SharedContinues(s, t, s', t');
    } else {
      SharedContinues(s', t', s, t);
    }
  }

  lemma SharedContinues(s: string, t: string, s': string, t': string)
    requires |s| < |s'| && RuleId(s, t) == RuleId(s', t')
    ensures Continues(s', s)
  {
    SeparatorInside(s, t, s', t');
    var id := RuleId(s, t);
    assert id[..|s|] == s && id[..|s'|] == s' && s'[..|s|] == s;
    if |s'| == |s| + 1 {
      assert s' == s + ":";
    } else {
      assert s'[..|s| + 2] == s + "::";
    }
  }

  lemma ContinuedCollides(s: string, s': string) returns (t: string)
    requires Continues(s', s)
    ensures RuleId(s, t) == RuleId(s', "")
  {
    hide RuleId;
    assert s'[..|s|] == s;
    t := RuleIdsCollide(s', |s|, "");
  }
}

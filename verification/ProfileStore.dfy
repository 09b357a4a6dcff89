/**
 * The profile store (inspect/profile-store.ts): the rule list behind learning, review,
 * one-click widening and enforcement.
 */
module ProfileStores {
  import opened Prelude
  import opened Sorting
  import opened Profiles
  import CanonicalJson

  /** The list with `v` in it, in order; a missing list counts as empty. */
  function AddTo(values: seq<string>, v: string): seq<string> {
    Sort(CanonicalJson.KeyLe, if v in values then values else values + [v])
  }

  function DimValues(c: Constraints, d: Dim): seq<string> {
    if d in c.dims then c.dims[d] else []
  }

  function ArgBuckets(c: Constraints, k: string): seq<string> {
    if k in c.args then c.args[k] else []
  }

  function WidenedDims(c: Constraints, call: Call, among: set<Dim>): map<Dim, seq<string>> {
    map d | d in c.dims.Keys + (call.dims.Keys * among) ::
      if d in call.dims && d in among then AddTo(DimValues(c, d), call.dims[d]) else DimValues(c, d)
  }

  function WidenedArgs(c: Constraints, call: Call, among: set<string>): map<string, seq<string>> {
    map k | k in c.args.Keys + (call.args.Keys * among) ::
      if k in call.args && k in among then AddTo(ArgBuckets(c, k), call.args[k]) else ArgBuckets(c, k)
  }

  function Widened(c: Constraints, call: Call): Constraints {
    Constraints(WidenedDims(c, call, {Source, Service, Namespace}), WidenedArgs(c, call, call.args.Keys))
  }

  /** The rule `absorb` leaves under the id of the call. */
  function AbsorbedRule(found: Option<Rule>, call: Call, ts: int): Rule {
    match found
    case None =>
      Rule(RuleId(call.principal, call.tool), call.principal, call.tool, Widened(Constraints(map[], map[]), call),
           Accepted, Provenance(1, ts, ts))
    case Some(r) =>
      r.(status := Accepted, constraints := Widened(r.constraints, call),
         provenance := r.provenance.(lastSeen := ts))
  }

  function Absorbed(rules: seq<Rule>, call: Call, ts: int): seq<Rule> {
    var r := AbsorbedRule(Find(rules, RuleId(call.principal, call.tool)), call, ts);
    var i := IndexOf(rules, RuleId(call.principal, call.tool));
    if i < |rules| then rules[i := r] else rules + [r]
  }

  function WithStatus(rules: seq<Rule>, id: string, status: Status): seq<Rule> {
    var i := IndexOf(rules, id);
    if i < |rules| then rules[i := rules[i].(status := status)] else rules
  }

  /** An empty subject in the patch is no subject. */
  function Patched(r: Rule, constraints: Option<Constraints>, subject: string): Rule {
    r.(constraints := if constraints.Some? then constraints.value else r.constraints,
       subject := if subject != "" then subject else r.subject)
  }

  function WithPatch(rules: seq<Rule>, id: string, constraints: Option<Constraints>, subject: string): seq<Rule> {
    var i := IndexOf(rules, id);
    if i < |rules| then rules[i := Patched(rules[i], constraints, subject)] else rules
  }

  function OtherThan(id: string): Rule -> bool {
    (r: Rule) => r.id != id
  }

  class ProfileStore {
    var rules: seq<Rule>

    constructor (rules: seq<Rule>)
      ensures this.rules == rules
    {
      this.rules := rules;
    }

    method Derive(observations: seq<Observation>) returns (all: seq<Rule>)
      modifies this
      ensures rules == Derived(observations, old(rules)) && all == rules
    {
      rules := DeriveProfile(observations, rules);
      all := rules;
    }

    method IndexById(id: string) returns (i: nat)
      ensures i == IndexOf(rules, id)
    {
      hide IndexOf;
      i := 0;
      while i < |rules| && rules[i].id != id
        invariant i <= |rules| && forall j :: 0 <= j < i ==> rules[j].id != id
      {
        i := i + 1;
      }
      IndexIs(rules, id, i);
    }

    /** None when no rule has the id. */
    method SetStatus(id: string, status: Status) returns (r: Option<Rule>)
      modifies this
      ensures rules == WithStatus(old(rules), id, status) && r == Find(rules, id)
    {
      hide IndexOf, Find;
      FindAt(rules, id);
      var i := IndexById(id);
      if i == |rules| {
        return None;
      }
      rules := rules[i := rules[i].(status := status)];
      IndexIs(rules, id, i);
      FindAt(rules, id);
      return Some(rules[i]);
    }

    method Update(id: string, constraints: Option<Constraints>, subject: string) returns (r: Option<Rule>)
      modifies this
      ensures rules == WithPatch(old(rules), id, constraints, subject) && r == Find(rules, id)
    {
      hide IndexOf, Find;
      FindAt(rules, id);
      var i := IndexById(id);
      if i == |rules| {
        return None;
      }
      if constraints.Some? {
        rules := rules[i := rules[i].(constraints := constraints.value)];
      }
      if subject != "" {
        rules := rules[i := rules[i].(subject := subject)];
      }
      IndexIs(rules, id, i);
      FindAt(rules, id);
      return Some(rules[i]);
    }

    method Remove(id: string) returns (removed: bool)
      modifies this
      ensures rules == Filter(OtherThan(id), old(rules)) && removed == Find(old(rules), id).Some?
    {
      var before := |rules|;
      FilterShrinks(rules, id);
      rules := Filter(OtherThan(id), rules);
      removed := |rules| != before;
    }

    method Absorb(call: Call, ts: int) returns (r: Rule)
      modifies this
      ensures rules == Absorbed(old(rules), call, ts)
      ensures r == AbsorbedRule(Find(old(rules), RuleId(call.principal, call.tool)), call, ts)
    {
      hide IndexOf, Find, AddTo, RuleId;
      var id := RuleId(call.principal, call.tool);
      FindAt(rules, id);
      var i := IndexById(id);
      if i == |rules| {
        r := Rule(id, call.principal, call.tool, Constraints(map[], map[]), Accepted, Provenance(1, ts, ts));
        rules := rules + [r];
      } else {
        r := rules[i].(status := Accepted, provenance := rules[i].provenance.(lastSeen := ts));
      }
      var constraints := Widen(r.constraints, call);
      r := r.(constraints := constraints);
      rules := rules[i := r];
    }

    method Evaluate(call: Call) returns (r: EvalResult)
      ensures r == Profiles.Evaluate(call, rules)
    {
      r := EvaluateCall(call, rules);
    }
  }

  method Widen(c: Constraints, call: Call) returns (w: Constraints)
    ensures w == Widened(c, call)
  {
    hide AddTo, WidenedDims, WidenedArgs;
    WidenedNone(c, call);
    var dims := c.dims;
    for i := 0 to |DIMS|
      invariant dims == WidenedDims(c, call, FirstDims(i))
    {
      var d := DIMS[i];
      assert FirstDims(i + 1) == FirstDims(i) + {d} && d !in FirstDims(i);
      WidenedDimsMore(c, call, FirstDims(i), d);
      if d in call.dims {
        dims := dims[d := AddTo(if d in dims then dims[d] else [], call.dims[d])];
      }
    }
    assert FirstDims(|DIMS|) == {Source, Service, Namespace};
    var args := WidenArgs(c, call);
    w := Constraints(dims, args);
  }

  method WidenArgs(c: Constraints, call: Call) returns (args: map<string, seq<string>>)
    ensures args == WidenedArgs(c, call, call.args.Keys)
  {
    hide AddTo, WidenedDims, WidenedArgs;
    WidenedNone(c, call);
    args := c.args;
    var todo := call.args.Keys;
    assert call.args.Keys - todo == {};
    while todo != {}
      invariant todo <= call.args.Keys
      invariant args == WidenedArgs(c, call, call.args.Keys - todo)
    {
      var k :| k in todo;
      WidenedArgsMore(c, call, call.args.Keys - todo, k);
      assert call.args.Keys - todo + {k} == call.args.Keys - (todo - {k});
      args := args[k := AddTo(if k in args then args[k] else [], call.args[k])];
      todo := todo - {k};
    }
    assert call.args.Keys - todo == call.args.Keys;
  }

  lemma WidenedNone(c: Constraints, call: Call)
    ensures WidenedDims(c, call, {}) == c.dims && WidenedArgs(c, call, {}) == c.args
  {
  }

  lemma WidenedDimsMore(c: Constraints, call: Call, among: set<Dim>, d: Dim)
    requires d !in among
    ensures var before := WidenedDims(c, call, among);
            WidenedDims(c, call, among + {d})
            == if d in call.dims then before[d := AddTo(if d in before then before[d] else [], call.dims[d])] else before
  {
    hide AddTo;
  }

  lemma WidenedArgsMore(c: Constraints, call: Call, among: set<string>, k: string)
    requires k !in among && k in call.args
    ensures var before := WidenedArgs(c, call, among);
            WidenedArgs(c, call, among + {k})
            == before[k := AddTo(if k in before then before[k] else [], call.args[k])]
  {
    hide AddTo;
  }

  lemma {:induction false} FilterShrinks(rules: seq<Rule>, id: string)
    ensures |Filter(OtherThan(id), rules)| == |rules| <==> Find(rules, id).None?
  {
    if rules != [] {
      FilterShrinks(rules[1..], id);
    }
  }

  // ----- What absorbing a call allows -----

  ghost predicate NoWildcardRules(rules: seq<Rule>) {
    forall r :: r in rules ==> r.subject != "*"
  }

  /** The id of the call stands for its subject and tool, and for nothing else. */
  ghost predicate IdStandsFor(rules: seq<Rule>, call: Call) {
    forall r :: r in rules ==>
      (r.id == RuleId(call.principal, call.tool) <==> r.subject == call.principal && r.tool == call.tool)
  }

  lemma AddToMembers(values: seq<string>, v: string, x: string)
    ensures x in AddTo(values, v) <==> x in values || x == v
  {
    SortMembers(CanonicalJson.KeyLe, if v in values then values else values + [v]);
  }

  lemma WidenedPermits(c: Constraints, call: Call, d: Dim, v: string)
    ensures Permits(Widened(c, call), d, v) <==> Permits(c, d, v) || (d in call.dims && call.dims[d] == v)
  {
    hide AddTo;
    if d in call.dims {
      AddToMembers(DimValues(c, d), call.dims[d], v);
    }
  }

  lemma WidenedPermitsArg(c: Constraints, call: Call, k: string, b: string)
    ensures PermitsArg(Widened(c, call), k, b) <==> PermitsArg(c, k, b) || (k in call.args && call.args[k] == b)
  {
    hide AddTo;
    if k in call.args {
      AddToMembers(ArgBuckets(c, k), call.args[k], b);
    }
  }

  /** What the rule of the id permits, whether it is accepted or not. */
  function OldConstraints(rules: seq<Rule>, call: Call): Constraints {
    var found := Find(rules, RuleId(call.principal, call.tool));
    if found.Some? then found.value.constraints else Constraints(map[], map[])
  }

  lemma AbsorbedIds(rules: seq<Rule>, call: Call, ts: int)
    requires UniqueIds(rules)
    ensures var id := RuleId(call.principal, call.tool);
            var r := AbsorbedRule(Find(rules, id), call, ts);
            && r.id == id && UniqueIds(Absorbed(rules, call, ts)) && r in Absorbed(rules, call, ts)
            && (forall x :: x in Absorbed(rules, call, ts) && x != r ==> x in rules)
  {
    hide RuleId, Find, Widened;
    var id := RuleId(call.principal, call.tool);
    FindAt(rules, id);
    var r, i, after := AbsorbedRule(Find(rules, id), call, ts), IndexOf(rules, id), Absorbed(rules, call, ts);
    assert after[i] == r;
    forall x | x in after && x != r ensures x in rules {
      var k :| 0 <= k < |after| && after[k] == x;
      assert rules[k] == x;
    }
  }

  lemma AbsorbedInForce(rules: seq<Rule>, call: Call, ts: int, other: Call)
    requires UniqueIds(rules) && NoWildcardRules(rules) && IdStandsFor(rules, call) && call.principal != "*"
    ensures First(InForce(other), Absorbed(rules, call, ts))
         == if SameTarget(other, call)
            then Some(AbsorbedRule(Find(rules, RuleId(call.principal, call.tool)), call, ts))
            else First(InForce(other), rules)
  {
    hide RuleId, First, Widened, IndexOf;
    var id := RuleId(call.principal, call.tool);
    var found := Find(rules, id);
    var r, after := AbsorbedRule(found, call, ts), Absorbed(rules, call, ts);
    AbsorbedIds(rules, call, ts);
    assert r.subject == call.principal && r.tool == call.tool;
    if SameTarget(other, call) {
      assert InForce(other)(r);
      var x := First(InForce(other), after).value;
      assert x.id == id;
      FindUnique(after, x);
      FindUnique(after, r);
    } else {
      FirstUnaffected(rules, IndexOf(rules, id), r, InForce(other));
    }
  }

  lemma FirstUnaffected(rules: seq<Rule>, i: nat, r: Rule, p: Rule -> bool)
    requires i <= |rules| && !p(r) && (i < |rules| ==> !p(rules[i]))
    ensures First(p, if i < |rules| then rules[i := r] else rules + [r]) == First(p, rules)
  {
    FirstAppend(p, rules, [r]);
    if i < |rules| {
      var a, b := rules[..i], rules[i + 1..];
      assert rules == a + [rules[i]] + b && rules[i := r] == a + [r] + b;
      FirstAppend(p, a + [rules[i]], b);
      FirstAppend(p, a, [rules[i]]);
      FirstAppend(p, a + [r], b);
      FirstAppend(p, a, [r]);
    }
  }

  /**
   * Exactly what is allowed after absorbing a call: for its subject and tool, whatever mixes
   * the values of the call with those the rule already listed, whatever its status was; for
   * every other target, what was allowed before.
   */
  lemma AbsorbExactly(rules: seq<Rule>, call: Call, ts: int, other: Call)
    requires UniqueIds(rules) && NoWildcardRules(rules) && IdStandsFor(rules, call) && call.principal != "*"
    ensures !SameTarget(other, call) ==> Allowed(other, Absorbed(rules, call, ts)) == Allowed(other, rules)
    ensures SameTarget(other, call) ==>
      (Allowed(other, Absorbed(rules, call, ts)) <==>
        && (forall d :: d in other.dims ==>
              || Permits(OldConstraints(rules, call), d, other.dims[d])
              || (d in call.dims && call.dims[d] == other.dims[d]))
        && (forall k :: k in other.args ==>
              || PermitsArg(OldConstraints(rules, call), k, other.args[k])
              || (k in call.args && call.args[k] == other.args[k])))
  {
    hide Absorbed, First, Find, Evaluate, Permits, PermitsArg, Widened, RuleId, UniqueIds, NoWildcardRules, IdStandsFor;
    AllowedByFirst(other, rules);
    AllowedByFirst(other, Absorbed(rules, call, ts));
    AbsorbedInForce(rules, call, ts, other);
    if SameTarget(other, call) {
      var c := OldConstraints(rules, call);
      forall d | d in other.dims
        ensures Permits(Widened(c, call), d, other.dims[d])
           <==> Permits(c, d, other.dims[d]) || (d in call.dims && call.dims[d] == other.dims[d])
      {
        WidenedPermits(c, call, d, other.dims[d]);
      }
      forall k | k in other.args
        ensures PermitsArg(Widened(c, call), k, other.args[k])
           <==> PermitsArg(c, k, other.args[k]) || (k in call.args && call.args[k] == other.args[k])
      {
        WidenedPermitsArg(c, call, k, other.args[k]);
      }
    }
  }

  /** The absorbed call is allowed from then on. */
  lemma AbsorbAllows(rules: seq<Rule>, call: Call, ts: int)
    requires UniqueIds(rules) && NoWildcardRules(rules) && IdStandsFor(rules, call) && call.principal != "*"
    ensures Allowed(call, Absorbed(rules, call, ts))
  {
    hide Absorbed, Permits, PermitsArg, Find, UniqueIds, Evaluate;
    AbsorbExactly(rules, call, ts, call);
  }

  /** No allowed call becomes a deviation. */
  lemma AbsorbKeepsAllowed(rules: seq<Rule>, call: Call, ts: int, other: Call)
    requires UniqueIds(rules) && NoWildcardRules(rules) && IdStandsFor(rules, call) && call.principal != "*"
    requires Allowed(other, rules)
    ensures Allowed(other, Absorbed(rules, call, ts))
  {
    hide Absorbed, First, Find, Evaluate, Permits, PermitsArg, RuleId;
    AbsorbExactly(rules, call, ts, other);
    if SameTarget(other, call) {
      AllowedByFirst(other, rules);
      FindUnique(rules, First(InForce(other), rules).value);
    }
  }

  // ----- When absorbing a call allows exactly that call -----

  /** The rule permits nothing under a key that the call does not have. */
  ghost predicate NothingElse(c: Constraints, call: Call) {
    && (forall d, v :: Permits(c, d, v) ==> d in call.dims)
    && (forall k, b :: PermitsArg(c, k, b) ==> k in call.args)
  }

  /** Every value of the other call is permitted or is the absorbed call's. */
  predicate Mixes(c: Constraints, call: Call, other: Call) {
    && (forall d :: d in other.dims ==>
          Permits(c, d, other.dims[d]) || (d in call.dims && call.dims[d] == other.dims[d]))
    && (forall k :: k in other.args ==>
          PermitsArg(c, k, other.args[k]) || (k in call.args && call.args[k] == other.args[k]))
  }

  /** Allowed after absorbing the call, and not before; `known` when an accepted rule was in force. */
  predicate Newly(c: Constraints, known: bool, call: Call, other: Call) {
    SameTarget(other, call) && Mixes(c, call, other) && !(known && Covers(c, other))
  }

  function Bare(call: Call): Call {
    call.(dims := map[], args := map[])
  }

  lemma SingleKey<K, V>(m: map<K, V>, k: K)
    requires k in m
    ensures |m| >= 1 && (|m| == 1 <==> m == map[k := m[k]])
  {
    assert m.Keys == {k} + (m.Keys - {k});
    if |m| == 1 {
      assert |m.Keys - {k}| == 0;
      assert m.Keys == {k};
      assert m == map[k := m[k]];
    }
  }

  lemma OneDim(c: Constraints, call: Call, other: Call, d: Dim)
    requires SameTarget(other, call) && Mixes(c, call, other) && NothingElse(c, call)
    requires d in other.dims && !Permits(c, d, other.dims[d]) && |call.dims| + |call.args| == 1
    ensures other == call
  {
    hide Permits, PermitsArg;
    SingleKey(call.dims, d);
    assert call.args == map[] && other.args == map[];
    assert other.dims.Keys == {d};
    assert other.dims == call.dims;
  }

  lemma OneArg(c: Constraints, call: Call, other: Call, k: string)
    requires SameTarget(other, call) && Mixes(c, call, other) && NothingElse(c, call)
    requires k in other.args && !PermitsArg(c, k, other.args[k]) && |call.dims| + |call.args| == 1
    ensures other == call
  {
    hide Permits, PermitsArg;
    SingleKey(call.args, k);
    assert call.dims == map[] && other.dims == map[];
    assert other.args.Keys == {k};
    assert other.args == call.args;
  }

  lemma NoValues(c: Constraints, call: Call, other: Call)
    requires SameTarget(other, call) && Mixes(c, call, other) && NothingElse(c, call)
    requires |call.dims| + |call.args| == 0
    ensures other == call
  {
    hide Permits, PermitsArg;
    assert call.dims == map[] && call.args == map[];
    assert other.dims == map[] && other.args == map[];
  }

  lemma CoveredMix(c: Constraints, call: Call, other: Call)
    requires Covers(c, call) && Mixes(c, call, other)
    ensures Covers(c, other)
  {
    hide Permits, PermitsArg;
  }

  lemma OnlyCallHolds(c: Constraints, known: bool, call: Call, other: Call)
    requires (known && Covers(c, call))
          || (|call.dims| + |call.args| == (if known then 1 else 0) && NothingElse(c, call))
    requires Newly(c, known, call, other)
    ensures other == call
  {
    hide Permits, PermitsArg, Mixes, NothingElse;
    if known && Covers(c, call) {
      CoveredMix(c, call, other);
    } else if !known {
      NoValues(c, call, other);
    } else if d :| d in other.dims && !Permits(c, d, other.dims[d]) {
      OneDim(c, call, other, d);
    } else {
      var k :| k in other.args && !PermitsArg(c, k, other.args[k]);
      OneArg(c, call, other, k);
    }
  }

  /** The call with one more permitted value. */
  lemma WiderIsNewly(c: Constraints, known: bool, call: Call, other: Call)
    requires !(known && Covers(c, call)) && SameTarget(other, call) && Mixes(c, call, other)
    requires forall d :: d in call.dims ==> d in other.dims && other.dims[d] == call.dims[d]
    requires forall k :: k in call.args ==> k in other.args && other.args[k] == call.args[k]
    ensures Newly(c, known, call, other)
  {
    hide Permits, PermitsArg;
  }

  lemma NothingElseNeeded(c: Constraints, known: bool, call: Call)
    requires !(known && Covers(c, call)) && forall other :: Newly(c, known, call, other) ==> other == call
    ensures NothingElse(c, call)
  {
    hide Permits, PermitsArg, Newly, Covers;
    forall d, v | Permits(c, d, v) ensures d in call.dims {
      if d !in call.dims {
        WiderIsNewly(c, known, call, call.(dims := call.dims[d := v]));
        assert false;
      }
    }
    forall k, b | PermitsArg(c, k, b) ensures k in call.args {
      if k !in call.args {
        WiderIsNewly(c, known, call, call.(args := call.args[k := b]));
        assert false;
      }
    }
  }

  lemma OneDimIsNewly(c: Constraints, known: bool, call: Call, d: Dim)
    requires d in call.dims && !Permits(c, d, call.dims[d])
    ensures Newly(c, known, call, Bare(call).(dims := map[d := call.dims[d]]))
  {
    hide Permits, PermitsArg;
    assert d in Bare(call).(dims := map[d := call.dims[d]]).dims;
  }

  lemma OneArgIsNewly(c: Constraints, known: bool, call: Call, k: string)
    requires k in call.args && !PermitsArg(c, k, call.args[k])
    ensures Newly(c, known, call, Bare(call).(args := map[k := call.args[k]]))
  {
    hide Permits, PermitsArg;
    assert k in Bare(call).(args := map[k := call.args[k]]).args;
  }

  lemma BareIsNewly(c: Constraints, call: Call)
    ensures Newly(c, false, call, Bare(call))
  {
  }

  lemma OneValueNeeded(c: Constraints, known: bool, call: Call)
    requires !(known && Covers(c, call)) && forall other :: Newly(c, known, call, other) ==> other == call
    ensures |call.dims| + |call.args| == if known then 1 else 0
  {
    hide Permits, PermitsArg, Newly;
    if !known {
      BareIsNewly(c, call);
    } else if d :| d in call.dims && !Permits(c, d, call.dims[d]) {
      OneDimIsNewly(c, known, call, d);
      SingleKey(call.dims, d);
    } else {
      var k :| k in call.args && !PermitsArg(c, k, call.args[k]);
      OneArgIsNewly(c, known, call, k);
      SingleKey(call.args, k);
    }
  }

  lemma {:induction false} FirstSame(p: Rule -> bool, q: Rule -> bool, rules: seq<Rule>)
    requires forall r :: p(r) == q(r)
    ensures First(p, rules) == First(q, rules)
  {
    if rules != [] {
      FirstSame(p, q, rules[1..]);
    }
  }

  /** For the target of the call, what was allowed before depends on the rule of its id. */
  lemma AllowedBefore(rules: seq<Rule>, call: Call, other: Call)
    requires UniqueIds(rules) && NoWildcardRules(rules) && IdStandsFor(rules, call) && SameTarget(other, call)
    ensures Allowed(other, rules) <==>
            First(InForce(call), rules).Some? && Covers(OldConstraints(rules, call), other)
  {
    hide Evaluate, First, Find, Covers, RuleId;
    AllowedByFirst(other, rules);
    FirstSame(InForce(other), InForce(call), rules);
    if First(InForce(call), rules).Some? {
      FindUnique(rules, First(InForce(call), rules).value);
    }
  }

  lemma NewlyIsNewly(rules: seq<Rule>, call: Call, ts: int, other: Call)
    requires UniqueIds(rules) && NoWildcardRules(rules) && IdStandsFor(rules, call) && call.principal != "*"
    ensures Allowed(other, Absorbed(rules, call, ts)) && !Allowed(other, rules) <==>
            Newly(OldConstraints(rules, call), First(InForce(call), rules).Some?, call, other)
  {
    hide Allowed, Absorbed, First, Covers, OldConstraints, Permits, PermitsArg, UniqueIds, NoWildcardRules, IdStandsFor;
    AbsorbExactly(rules, call, ts, other);
    if SameTarget(other, call) {
      AllowedBefore(rules, call, other);
    }
  }

  /**
   * Absorbing a call newly allows that call and no other exactly when it was allowed already,
   * or when it carries a single value to an accepted rule, or none to a target without one,
   * and the rule of its id permits nothing under any key that the call does not have.
   */
  lemma AbsorbOnlyCallExact(rules: seq<Rule>, call: Call, ts: int)
    requires UniqueIds(rules) && NoWildcardRules(rules) && IdStandsFor(rules, call) && call.principal != "*"
    ensures (forall other :: Allowed(other, Absorbed(rules, call, ts)) && !Allowed(other, rules) ==> other == call)
       <==> || Allowed(call, rules)
            || (&& |call.dims| + |call.args| == (if First(InForce(call), rules).Some? then 1 else 0)
                && NothingElse(OldConstraints(rules, call), call))
  {
    hide Allowed, Absorbed, First, OldConstraints, Permits, PermitsArg, UniqueIds, NoWildcardRules, IdStandsFor,
      NothingElse, Newly, Covers;
    var c, known := OldConstraints(rules, call), First(InForce(call), rules).Some?;
    AllowedBefore(rules, call, call);
    forall other
      ensures Allowed(other, Absorbed(rules, call, ts)) && !Allowed(other, rules) <==> Newly(c, known, call, other)
    {
      NewlyIsNewly(rules, call, ts, other);
    }
    if Allowed(call, rules)
      || (|call.dims| + |call.args| == (if known then 1 else 0) && NothingElse(c, call)) {
      forall other | Newly(c, known, call, other) ensures other == call {
        OnlyCallHolds(c, known, call, other);
      }
    } else if forall other :: Newly(c, known, call, other) ==> other == call {
      NothingElseNeeded(c, known, call);
      OneValueNeeded(c, known, call);
    }
  }

  const ONE_RULE := Rule("a::t", "a", "t", Constraints(map[Source := ["s"], Service := ["v"]], map[]), Accepted,
                         Provenance(1, 0, 0))

  /** More than the observed shape is allowed: values of separate calls mix. */
  lemma AbsorbAllowsMixtures()
    ensures var call := Call("a", "t", map[Source := "s2", Service := "v2"], map[]);
            var mixed := Call("a", "t", map[Source := "s", Service := "v2"], map[]);
            !Allowed(mixed, [ONE_RULE]) && Allowed(mixed, Absorbed([ONE_RULE], call, 1))
  {
    hide Evaluate, Absorbed, Find, First;
    var call := Call("a", "t", map[Source := "s2", Service := "v2"], map[]);
    var mixed := Call("a", "t", map[Source := "s", Service := "v2"], map[]);
    assert RuleId("a", "t") == "a::t";
    var c := ONE_RULE.constraints;
    assert !Permits(c, Service, "v2") && Permits(c, Source, "s");
    OnlyRule(mixed);
    AllowedByFirst(mixed, [ONE_RULE]);
    assert !Allowed(mixed, [ONE_RULE]) by {
      assert Service in mixed.dims;
    }
    AbsorbExactly([ONE_RULE], call, 1, mixed);
    assert OldConstraints([ONE_RULE], call) == c;
    forall d | d in mixed.dims ensures Permits(c, d, mixed.dims[d]) || (d in call.dims && call.dims[d] == mixed.dims[d]) {
      assert d == Source || d == Service;
    }
  }

  lemma OnlyRule(call: Call)
    requires call.principal == "a" && call.tool == "t"
    ensures First(InForce(call), [ONE_RULE]) == Some(ONE_RULE) && Find([ONE_RULE], "a::t") == Some(ONE_RULE)
  {
    var rules := [ONE_RULE];
    assert InForce(call)(rules[0]) && HasRuleId("a::t")(rules[0]);
  }

  // ----- Runs -----

  datatype Op =
    | Derive(observations: seq<Observation>)
    | SetStatus(id: string, status: Status)
    | Edit(id: string, constraints: Constraints)
    | Remove(id: string)
    | Absorb(call: Call, ts: int)

  function Step(rules: seq<Rule>, op: Op): seq<Rule> {
    match op
    case Derive(observations) => Derived(observations, rules)
    case SetStatus(id, status) => WithStatus(rules, id, status)
    case Edit(id, constraints) => WithPatch(rules, id, Some(constraints), "")
    case Remove(id) => Filter(OtherThan(id), rules)
    case Absorb(call, ts) => Absorbed(rules, call, ts)
  }

  function Run(rules: seq<Rule>, ops: seq<Op>): seq<Rule> {
    if ops == [] then rules else Step(Run(rules, ops[..|ops| - 1]), ops[|ops| - 1])
  }

  /** The traffic comes from principals that cannot be confused with the separator or the wildcard. */
  ghost predicate PlainOp(op: Op) {
    match op
    case Derive(observations) => forall o :: o in observations ==> Plain(o.call.principal)
    case Absorb(call, _) => Plain(call.principal)
    case _ => true
  }

  predicate SoundRule(r: Rule) {
    Plain(r.subject) && r.id == RuleId(r.subject, r.tool)
  }

  ghost predicate Sound(rules: seq<Rule>) {
    UniqueIds(rules) && forall r :: r in rules ==> SoundRule(r)
  }

  lemma {:induction false} FilterUnique(p: Rule -> bool, rules: seq<Rule>)
    requires UniqueIds(rules)
    ensures UniqueIds(Filter(p, rules))
  {
    if rules != [] {
      FilterUnique(p, rules[1..]);
      var rest := Filter(p, rules[1..]);
      forall j | 0 <= j < |rest| ensures rest[j].id != rules[0].id {
        FilterMembers(p, rules[1..], rest[j]);
        var k :| 0 <= k < |rules[1..]| && rules[1..][k] == rest[j];
        assert rules[k + 1] == rest[j];
      }
    }
  }

  lemma SoundDerive(rules: seq<Rule>, observations: seq<Observation>)
    requires Sound(rules) && PlainOp(Derive(observations))
    ensures Sound(Derived(observations, rules))
  {
    hide Derived, Filter, Find, RuleFor, Plain;
    var after := Derived(observations, rules);
    DerivedRules(observations, rules, "");
    forall r | r in after ensures SoundRule(r) {
      DerivedRules(observations, rules, r.id);
      FindUnique(after, r);
      var seen := Filter(HasId(r.id), observations);
      if seen != [] && r == RuleFor(Group(r.id, seen)) {
        FilterMembers(HasId(r.id), observations, seen[0]);
      } else {
        FoundInList(rules, r.id);
      }
    }
  }

  lemma FoundInList(rules: seq<Rule>, id: string)
    ensures Find(rules, id).Some? ==> Find(rules, id).value in rules
  {
  }

  lemma SoundReplace(rules: seq<Rule>, i: nat, r: Rule)
    requires Sound(rules) && i < |rules| && r.id == rules[i].id && SoundRule(r)
    ensures Sound(rules[i := r])
  {
    hide SoundRule;
    forall x | x in rules[i := r] ensures SoundRule(x) {
      var k :| 0 <= k < |rules| && rules[i := r][k] == x;
      assert k == i || rules[k] == x;
    }
  }

  lemma SoundAbsorb(rules: seq<Rule>, call: Call, ts: int)
    requires Sound(rules) && Plain(call.principal)
    ensures Sound(Absorbed(rules, call, ts))
  {
    hide Absorbed, Find, Plain, RuleId, Widened;
    AbsorbedIds(rules, call, ts);
    FoundInList(rules, RuleId(call.principal, call.tool));
  }

  /** Every operation keeps ids unique and tied to their subject and tool. */
  lemma StepSound(rules: seq<Rule>, op: Op)
    requires Sound(rules) && PlainOp(op)
    ensures Sound(Step(rules, op))
  {
    hide Derived, Absorbed, Plain, RuleId, Filter;
    match op
    case Derive(observations) =>
      SoundDerive(rules, observations);
    case SetStatus(id, status) =>
      var i := IndexOf(rules, id);
      if i < |rules| {
        assert rules[i] in rules;
        SoundReplace(rules, i, rules[i].(status := status));
      }
    case Edit(id, constraints) =>
      var i := IndexOf(rules, id);
      if i < |rules| {
        assert rules[i] in rules;
        SoundReplace(rules, i, Patched(rules[i], Some(constraints), ""));
      }
    case Remove(id) =>
      FilterUnique(OtherThan(id), rules);
      forall r | r in Filter(OtherThan(id), rules) ensures SoundRule(r) {
        FilterMembers(OtherThan(id), rules, r);
      }
    case Absorb(call, ts) =>
      SoundAbsorb(rules, call, ts);
  }

  lemma SoundStandsFor(rules: seq<Rule>, call: Call)
    requires Sound(rules) && Plain(call.principal)
    ensures NoWildcardRules(rules) && IdStandsFor(rules, call) && call.principal != "*"
  {
    hide RuleId;
    forall r | r in rules && r.id == RuleId(call.principal, call.tool)
      ensures r.subject == call.principal && r.tool == call.tool
    {
      RuleIdInjective(r.subject, r.tool, call.principal, call.tool);
    }
  }

  lemma {:induction false} RunSound(rules: seq<Rule>, ops: seq<Op>)
    requires Sound(rules) && forall i :: 0 <= i < |ops| ==> PlainOp(ops[i])
    ensures Sound(Run(rules, ops))
    decreases |ops|
  {
    hide Sound, Step, PlainOp;
    if ops != [] {
      RunSound(rules, ops[..|ops| - 1]);
      StepSound(Run(rules, ops[..|ops| - 1]), ops[|ops| - 1]);
    }
  }

  /**
   * Over any run of learning and absorbing, between which nobody edits, rejects or removes a
   * rule, an allowed call stays allowed.
   */
  lemma {:induction false} RunKeepsAllowed(rules: seq<Rule>, ops: seq<Op>, call: Call)
    requires Sound(rules) && Allowed(call, rules)
    requires forall i :: 0 <= i < |ops| ==> PlainOp(ops[i]) && (ops[i].Derive? || ops[i].Absorb?)
    ensures Allowed(call, Run(rules, ops))
    decreases |ops|
  {
    hide Evaluate, Derived, Absorbed, Plain;
    if ops != [] {
      var last, before := ops[|ops| - 1], Run(rules, ops[..|ops| - 1]);
      RunKeepsAllowed(rules, ops[..|ops| - 1], call);
      RunSound(rules, ops[..|ops| - 1]);
      if last.Derive? {
        DeriveInvisible(last.observations, before, call);
      } else {
        SoundStandsFor(before, last.call);
        AbsorbKeepsAllowed(before, last.call, last.ts, call);
      }
    }
  }

  function AcceptEach(rules: seq<Rule>, ids: seq<string>): seq<Rule>
    decreases |ids|
  {
    if ids == [] then rules else AcceptEach(WithStatus(rules, ids[0], Accepted), ids[1..])
  }

  function IdsOf(rules: seq<Rule>): (ids: seq<string>)
    ensures |ids| == |rules| && forall i :: 0 <= i < |ids| ==> ids[i] == rules[i].id
  {
    seq(|rules|, i requires 0 <= i < |rules| => rules[i].id)
  }

  /** Accepting the rules one by one accepts all of them. */
  lemma {:induction false} AcceptEachIsAll(rules: seq<Rule>, k: nat)
    requires UniqueIds(rules) && k <= |rules|
    ensures AcceptEach(Map(Accept, rules[..k]) + rules[k..], IdsOf(rules)[k..]) == Map(Accept, rules)
    decreases |rules| - k
  {
    hide IndexOf;
    var part := Map(Accept, rules[..k]) + rules[k..];
    if k == |rules| {
      assert rules[..k] == rules && part == Map(Accept, rules);
    } else {
      IndexIs(part, rules[k].id, k);
      assert WithStatus(part, rules[k].id, Accepted) == Map(Accept, rules[..k + 1]) + rules[k + 1..];
      assert IdsOf(rules)[k..][1..] == IdsOf(rules)[k + 1..];
      AcceptEachIsAll(rules, k + 1);
    }
  }

  lemma AcceptedSound(rules: seq<Rule>)
    requires Sound(rules)
    ensures Sound(Map(Accept, rules))
  {
    hide Plain, RuleId;
    var accepted := Map(Accept, rules);
    forall r | r in accepted ensures SoundRule(r) {
      var k :| 0 <= k < |accepted| && accepted[k] == r;
      assert rules[k] in rules;
    }
  }

  /** Traffic from plain principals has distinct ids and no wildcard. */
  lemma PlainTraffic(observations: seq<Observation>)
    requires PlainOp(Derive(observations))
    ensures IdsDistinct(observations) && NoWildcard(observations)
  {
    hide RuleId;
    forall x, y | x in observations && y in observations && IdOf(x) == IdOf(y) ensures SameTarget(x.call, y.call) {
      RuleIdInjective(x.call.principal, x.call.tool, y.call.principal, y.call.tool);
    }
  }

  lemma NothingSound()
    ensures Sound([])
  {
  }

  /**
   * The whole cycle: learn from traffic, accept every rule, and go on learning and absorbing.
   * An observed call without an empty dimension is never again a deviation.
   */
  lemma LearnedStaysAllowed(observations: seq<Observation>, o: Observation, ops: seq<Op>)
    requires o in observations && PlainOp(Derive(observations)) && forall d :: d in o.call.dims ==> o.call.dims[d] != ""
    requires forall i :: 0 <= i < |ops| ==> PlainOp(ops[i]) && (ops[i].Derive? || ops[i].Absorb?)
    ensures var learned := Derived(observations, []);
            Allowed(o.call, Run(AcceptEach(learned, IdsOf(learned)), ops))
  {
    hide Derived, Allowed, Run, AcceptEach, Sound, PlainOp, IdsDistinct, NoWildcard;
    var learned := Derived(observations, []);
    NothingSound();
    SoundDerive([], observations);
    AcceptEachIsAll(learned, 0) by {
      SoundUnique(learned);
    }
    assert Map(Accept, learned[..0]) + learned[0..] == learned && IdsOf(learned)[0..] == IdsOf(learned);
    AcceptedSound(learned);
    PlainTraffic(observations);
    ObservedAllowed(observations, o);
    RunKeepsAllowed(Map(Accept, learned), ops, o.call);
  }

  /** So no recorded call ever becomes a deviation again. */
  lemma RecordedStaysAllowed(observations: seq<Observation>, o: Observation, ops: seq<Op>)
    requires o in observations && PlainOp(Derive(observations)) && Recorded(o.call)
    requires forall i :: 0 <= i < |ops| ==> PlainOp(ops[i]) && (ops[i].Derive? || ops[i].Absorb?)
    ensures var learned := Derived(observations, []);
            Allowed(o.call, Run(AcceptEach(learned, IdsOf(learned)), ops))
  {
    hide Derived, Allowed, Run, AcceptEach, PlainOp;
    LearnedStaysAllowed(observations, o, ops);
  }

  lemma SoundUnique(rules: seq<Rule>)
    requires Sound(rules)
    ensures UniqueIds(rules)
  {
  }
}

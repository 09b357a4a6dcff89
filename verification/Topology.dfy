/**
 * The topology store of the Kubernetes connector (connectors/kubernetes-graph.ts): a
 * graph index that emits incremental events, and the subscribers that follow it.
 */
module Topology {
  import opened Prelude

  datatype Resource = Resource(
    id: string, kind: string, name: string, source: string, labels: map<string, string>, attributes: map<string, string>)

  datatype Edge = Edge(from: string, to: string, relation: string, source: string, confidence: real)

  datatype Event =
    | ResourceAdded(resource: Resource)
    | ResourceUpdated(resource: Resource)
    | ResourceRemoved(resource: Resource)
    | EdgeAdded(edge: Edge)
    | EdgeRemoved(edge: Edge)

  function EdgeKey(e: Edge): string {
    e.from + "|" + e.relation + "|" + e.to
  }

  function KeySet(edges: seq<Edge>): set<string> {
    set e | e in edges :: EdgeKey(e)
  }

  // ----- Building resources and edges -----

  datatype OwnerRef = OwnerRef(kind: string, name: string)

  /** A watched object; an absent text is the empty one. */
  datatype KubeObject = KubeObject(
    name: string, namespace: string, uid: string, labels: map<string, string>, owners: seq<OwnerRef>,
    phase: string, nodeName: string, ready: string)

  datatype Kind = Pod | Node | Deployment | ReplicaSet | Namespace

  function NamespacedId(kind: string, namespace: string, name: string): string {
    "k8s:" + kind + ":" + namespace + "/" + name
  }

  function ClusterScopedId(kind: string, name: string): string {
    "k8s:" + kind + ":" + name
  }

  function KindName(k: Kind): string {
    match k
    case Pod => "pod"
    case Node => "node"
    case Deployment => "deployment"
    case ReplicaSet => "replicaset"
    case Namespace => "namespace"
  }

  predicate Namespaced(k: Kind) {
    k.Pod? || k.Deployment? || k.ReplicaSet?
  }

  function IdOf(k: Kind, o: KubeObject): string {
    if Namespaced(k) then NamespacedId(KindName(k), o.namespace, o.name) else ClusterScopedId(KindName(k), o.name)
  }

  function Attributes(k: Kind, o: KubeObject): map<string, string> {
    (if o.uid != "" then map["uid" := o.uid] else map[])
    + (if k.Pod? && o.phase != "" then map["phase" := o.phase] else map[])
    + (if k.Pod? && o.nodeName != "" then map["nodeName" := o.nodeName] else map[])
    + (if k.Node? && o.ready != "" then map["ready" := o.ready] else map[])
  }

  function ResourceOf(source: string, k: Kind, o: KubeObject): Option<Resource> {
    if o.name == "" || (Namespaced(k) && o.namespace == "") then None
    else Some(Resource(IdOf(k, o), KindName(k), o.name, source, o.labels, Attributes(k, o)))
  }

  const KNOWN_OWNER_KINDS: map<string, string> :=
    map["Deployment" := "deployment", "ReplicaSet" := "replicaset", "StatefulSet" := "statefulset",
        "DaemonSet" := "daemonset", "Job" := "job", "CronJob" := "cronjob"]

  function OwnerEdges(source: string, from: string, owners: seq<OwnerRef>, namespace: string): (edges: seq<Edge>)
    ensures forall e :: e in edges ==> e.from == from
  {
    if owners == [] then []
    else
      var ref := owners[0];
      (if ref.kind in KNOWN_OWNER_KINDS
       then [Edge(from, NamespacedId(KNOWN_OWNER_KINDS[ref.kind], namespace, ref.name), "OWNED_BY", source, 1.0)]
       else [])
      + OwnerEdges(source, from, owners[1..], namespace)
  }

  /** The outgoing edges of an object; cluster-scoped objects have none. */
  function EdgesOf(source: string, k: Kind, o: KubeObject): (edges: seq<Edge>)
    ensures forall e :: e in edges ==> e.from == IdOf(k, o)
    ensures ResourceOf(source, k, o).None? ==> edges == []
  {
    if !Namespaced(k) || o.name == "" || o.namespace == "" then []
    else
      var from := IdOf(k, o);
      [Edge(from, ClusterScopedId("namespace", o.namespace), "IN_NAMESPACE", source, 1.0)]
      + (if k.Pod? && o.nodeName != "" then [Edge(from, ClusterScopedId("node", o.nodeName), "RUNS_ON", source, 1.0)] else [])
      + (if k.Deployment? then [] else OwnerEdges(source, from, o.owners, o.namespace))
  }

  // ----- The store -----

  /** The edges whose keys are not in the other list: what a diff reports. */
  function NotIn(edges: seq<Edge>, other: set<string>): seq<Edge> {
    Filter(KeyNotIn(other), edges)
  }

  function KeyNotIn(other: set<string>): Edge -> bool {
    (e: Edge) => EdgeKey(e) !in other
  }

  function Removed(edges: seq<Edge>): (evs: seq<Event>)
    ensures |evs| == |edges| && forall i :: 0 <= i < |evs| ==> evs[i] == EdgeRemoved(edges[i])
  {
    seq(|edges|, i requires 0 <= i < |edges| => EdgeRemoved(edges[i]))
  }

  function Added(edges: seq<Edge>): (evs: seq<Event>)
    ensures |evs| == |edges| && forall i :: 0 <= i < |evs| ==> evs[i] == EdgeAdded(edges[i])
  {
    seq(|edges|, i requires 0 <= i < |edges| => EdgeAdded(edges[i]))
  }

  lemma NotInStep(edges: seq<Edge>, i: nat, other: set<string>)
    requires i < |edges|
    ensures NotIn(edges[i..], other)
         == (if EdgeKey(edges[i]) !in other then [edges[i]] else []) + NotIn(edges[i + 1..], other)
  {
    assert edges[i..][1..] == edges[i + 1..];
  }

  lemma NotInNone(edges: seq<Edge>, other: set<string>)
    ensures NotIn(edges[|edges|..], other) == []
  {
  }

  lemma RemovedMore(edges: seq<Edge>, e: Edge)
    ensures Removed(edges + [e]) == Removed(edges) + [EdgeRemoved(e)]
  {
  }

  lemma AddedMore(edges: seq<Edge>, e: Edge)
    ensures Added(edges + [e]) == Added(edges) + [EdgeAdded(e)]
  {
  }

  /** The graph, without the revision and the listeners. */
  datatype Graph = Graph(resources: map<string, Resource>, edgesByOwner: map<string, seq<Edge>>)

  datatype Op = Upsert(resource: Resource, edges: seq<Edge>) | Remove(id: string)

  function OwnedBy(g: Graph, id: string): seq<Edge> {
    if id in g.edgesByOwner then g.edgesByOwner[id] else []
  }

  function After(g: Graph, op: Op): Graph {
    match op
    case Upsert(r, edges) => Graph(g.resources[r.id := r], g.edgesByOwner[r.id := edges])
    case Remove(id) =>
      if id in g.resources then Graph(g.resources - {id}, g.edgesByOwner - {id}) else g
  }

  /** The events an operation emits, in order. */
  function Events(g: Graph, op: Op): seq<Event> {
    match op
    case Upsert(r, edges) =>
      var prev := OwnedBy(g, r.id);
      [if r.id in g.resources then ResourceUpdated(r) else ResourceAdded(r)]
      + Removed(NotIn(prev, KeySet(edges))) + Added(NotIn(edges, KeySet(prev)))
    case Remove(id) =>
      if id in g.resources then Removed(OwnedBy(g, id)) + [ResourceRemoved(g.resources[id])] else []
  }

  class TopologyStore {
    const source: string
    var resources: map<string, Resource>
    var edgesByOwner: map<string, seq<Edge>>
    var rev: nat
    /** Every event delivered so far; a listener receives the part after its subscription. */
    ghost var delivered: seq<Event>

    constructor (source: string)
      ensures State() == Graph(map[], map[]) && rev == 0 && delivered == [] && this.source == source
    {
      this.source := source;
      resources, edgesByOwner, rev := map[], map[], 0;
      delivered := [];
    }

    function State(): Graph
      reads this
    {
      Graph(resources, edgesByOwner)
    }

    method Emit(e: Event)
      modifies this`rev, this`delivered
      ensures rev == old(rev) + 1 && delivered == old(delivered) + [e]
    {
      rev := rev + 1;
      delivered := delivered + [e];
    }

    /** Reports each previous edge whose key is not among the next ones. */
    method EmitRemoved(prev: seq<Edge>, nextKeys: set<string>)
      modifies this`rev, this`delivered
      ensures delivered == old(delivered) + Removed(NotIn(prev, nextKeys))
      ensures rev == old(rev) + |NotIn(prev, nextKeys)|
    {
      hide EdgeKey, NotIn, Removed;
      ghost var was, done: seq<Edge> := delivered, [];
      assert prev[0..] == prev;
      for i := 0 to |prev|
        invariant done + NotIn(prev[i..], nextKeys) == NotIn(prev, nextKeys)
        invariant delivered == was + Removed(done) && rev == old(rev) + |done|
      {
        NotInStep(prev, i, nextKeys);
        if EdgeKey(prev[i]) !in nextKeys {
          Emit(EdgeRemoved(prev[i]));
          RemovedMore(done, prev[i]);
          done := done + [prev[i]];
        }
      }
      NotInNone(prev, nextKeys);
    }

    /** Reports each new edge whose key was not among the previous ones. */
    method EmitAdded(edges: seq<Edge>, prevKeys: set<string>)
      modifies this`rev, this`delivered
      ensures delivered == old(delivered) + Added(NotIn(edges, prevKeys))
      ensures rev == old(rev) + |NotIn(edges, prevKeys)|
    {
      hide EdgeKey, NotIn, Added;
      ghost var was, done: seq<Edge> := delivered, [];
      assert edges[0..] == edges;
      for i := 0 to |edges|
        invariant done + NotIn(edges[i..], prevKeys) == NotIn(edges, prevKeys)
        invariant delivered == was + Added(done) && rev == old(rev) + |done|
      {
        NotInStep(edges, i, prevKeys);
        if EdgeKey(edges[i]) !in prevKeys {
          Emit(EdgeAdded(edges[i]));
          AddedMore(done, edges[i]);
          done := done + [edges[i]];
        }
      }
      NotInNone(edges, prevKeys);
    }

    method UpsertResource(r: Resource, ownedEdges: seq<Edge>)
      modifies this
      ensures State() == After(old(State()), Upsert(r, ownedEdges))
      ensures delivered == old(delivered) + Events(old(State()), Upsert(r, ownedEdges))
      ensures rev == old(rev) + |Events(old(State()), Upsert(r, ownedEdges))|
    {
      hide NotIn, Removed, Added, KeySet, EdgeKey;
      var existed := r.id in resources;
      resources := resources[r.id := r];
      var prev := if r.id in edgesByOwner then edgesByOwner[r.id] else [];
      edgesByOwner := edgesByOwner[r.id := ownedEdges];
      Emit(if existed then ResourceUpdated(r) else ResourceAdded(r));
      var prevKeys, nextKeys := KeySet(prev), KeySet(ownedEdges);
      EmitRemoved(prev, nextKeys);
      EmitAdded(ownedEdges, prevKeys);
    }

    method RemoveResource(id: string)
      modifies this
      ensures State() == After(old(State()), Remove(id))
      ensures delivered == old(delivered) + Events(old(State()), Remove(id))
      ensures rev == old(rev) + |Events(old(State()), Remove(id))|
    {
      if id !in resources {
        return;
      }
      var r := resources[id];
      resources := resources - {id};
      var prev := if id in edgesByOwner then edgesByOwner[id] else [];
      edgesByOwner := edgesByOwner - {id};
      for i := 0 to |prev|
        invariant State() == After(old(State()), Remove(id))
        invariant delivered == old(delivered) + Removed(prev)[..i]
        invariant rev == old(rev) + i
      {
        Emit(EdgeRemoved(prev[i]));
      }
      Emit(ResourceRemoved(r));
    }
  }

  // ----- A subscriber's copy -----

  datatype Mirror = Mirror(resources: map<string, Resource>, edgeKeys: set<string>)

  function Apply(m: Mirror, ev: Event): Mirror {
    match ev
    case ResourceAdded(r) => m.(resources := m.resources[r.id := r])
    case ResourceUpdated(r) => m.(resources := m.resources[r.id := r])
    case ResourceRemoved(r) => m.(resources := m.resources - {r.id})
    case EdgeAdded(e) => m.(edgeKeys := m.edgeKeys + {EdgeKey(e)})
    case EdgeRemoved(e) => m.(edgeKeys := m.edgeKeys - {EdgeKey(e)})
  }

  function ApplyAll(m: Mirror, evs: seq<Event>): Mirror {
    if evs == [] then m else Apply(ApplyAll(m, evs[..|evs| - 1]), evs[|evs| - 1])
  }

  function AllKeys(edgesByOwner: map<string, seq<Edge>>): set<string> {
    set id, e | id in edgesByOwner && e in edgesByOwner[id] :: EdgeKey(e)
  }

  /** The copy a subscriber builds from a snapshot. */
  function Snapshot(g: Graph): Mirror {
    Mirror(g.resources, AllKeys(g.edgesByOwner))
  }

  /** What the connector guarantees: edges leave the resource they are filed under, and ids hold no separator. */
  predicate Proper(op: Op) {
    op.Upsert? ==> '|' !in op.resource.id && forall e :: e in op.edges ==> e.from == op.resource.id
  }

  ghost predicate Inv(g: Graph) {
    && g.edgesByOwner.Keys == g.resources.Keys
    && (forall id :: id in g.resources ==> g.resources[id].id == id && '|' !in id)
    && (forall id, e :: id in g.edgesByOwner && e in g.edgesByOwner[id] ==> e.from == id)
  }

  /** The part of an edge key before the first separator. */
  function SourceOf(key: string): string {
    if key == "" || key[0] == '|' then "" else [key[0]] + SourceOf(key[1..])
  }

  /** Every known edge leaves a known resource. */
  ghost predicate Anchored(m: Mirror) {
    forall k :: k in m.edgeKeys ==> SourceOf(k) in m.resources
  }

  lemma {:induction false} SourceOfPrefix(from: string, rest: string)
    requires '|' !in from
    ensures SourceOf(from + "|" + rest) == from
  {
    var key := from + "|" + rest;
    if from != "" {
      assert key[1..] == from[1..] + "|" + rest;
      SourceOfPrefix(from[1..], rest);
    }
  }

  lemma SourceOfKey(e: Edge)
    requires '|' !in e.from
    ensures SourceOf(EdgeKey(e)) == e.from
  {
    assert EdgeKey(e) == e.from + "|" + (e.relation + "|" + e.to);
    SourceOfPrefix(e.from, e.relation + "|" + e.to);
  }

  // ----- Following one operation -----

  lemma {:induction false} ApplyConcat(m: Mirror, a: seq<Event>, b: seq<Event>)
    ensures ApplyAll(m, a + b) == ApplyAll(ApplyAll(m, a), b)
  {
    hide Apply;
    if b == [] {
      assert a + b == a;
    } else {
      var n := |b| - 1;
      assert (a + b)[..|a + b| - 1] == a + b[..n];
      ApplyConcat(m, a, b[..n]);
    }
  }

  lemma {:induction false} ApplyRemoved(m: Mirror, edges: seq<Edge>)
    ensures ApplyAll(m, Removed(edges)) == Mirror(m.resources, m.edgeKeys - KeySet(edges))
  {
    if edges == [] {
      assert KeySet(edges) == {} && m.edgeKeys - {} == m.edgeKeys;
    } else {
      var n := |edges| - 1;
      assert Removed(edges)[..n] == Removed(edges[..n]);
      ApplyRemoved(m, edges[..n]);
      KeySetSnoc(edges);
    }
  }

  lemma {:induction false} ApplyAdded(m: Mirror, edges: seq<Edge>)
    ensures ApplyAll(m, Added(edges)) == Mirror(m.resources, m.edgeKeys + KeySet(edges))
  {
    if edges == [] {
      assert KeySet(edges) == {};
    } else {
      var n := |edges| - 1;
      assert Added(edges)[..n] == Added(edges[..n]);
      ApplyAdded(m, edges[..n]);
      KeySetSnoc(edges);
    }
  }

  lemma KeySetSnoc(edges: seq<Edge>)
    requires edges != []
    ensures KeySet(edges) == KeySet(edges[..|edges| - 1]) + {EdgeKey(edges[|edges| - 1])}
  {
    hide EdgeKey;
    var n := |edges| - 1;
    assert edges == edges[..n] + [edges[n]];
  }

  lemma {:induction false} KeysNotIn(edges: seq<Edge>, other: set<string>)
    ensures KeySet(NotIn(edges, other)) == KeySet(edges) - other
  {
    hide EdgeKey;
    if edges != [] {
      KeysNotIn(edges[1..], other);
      assert edges == [edges[0]] + edges[1..];
      KeySetCons(edges[0], edges[1..]);
      KeySetCons(edges[0], NotIn(edges[1..], other));
    } else {
      assert KeySet(edges) == {};
    }
  }

  lemma KeySetCons(e: Edge, edges: seq<Edge>)
    ensures KeySet([e] + edges) == {EdgeKey(e)} + KeySet(edges)
    ensures [] + edges == edges
  {
    hide EdgeKey;
  }

  /** The keys filed under one owner, and those of all others. */
  lemma KeysByOwner(g: Graph, id: string)
    ensures AllKeys(g.edgesByOwner) == AllKeys(g.edgesByOwner - {id}) + KeySet(OwnedBy(g, id))
    ensures forall edges :: AllKeys(g.edgesByOwner[id := edges]) == AllKeys(g.edgesByOwner - {id}) + KeySet(edges)
  {
    hide EdgeKey;
    var rest := g.edgesByOwner - {id};
    forall edges ensures AllKeys(g.edgesByOwner[id := edges]) == AllKeys(rest) + KeySet(edges) {
      var all := g.edgesByOwner[id := edges];
      forall k ensures k in AllKeys(all) <==> k in AllKeys(rest) + KeySet(edges) {
        if k in AllKeys(all) {
          var o, e :| o in all && e in all[o] && EdgeKey(e) == k;
          if o != id {
            assert o in rest && e in rest[o];
          }
        }
        if k in AllKeys(rest) {
          var o, e :| o in rest && e in rest[o] && EdgeKey(e) == k;
          assert o in all && e in all[o];
        }
        if k in KeySet(edges) {
          var e :| e in edges && EdgeKey(e) == k;
          assert id in all && e in all[id];
        }
      }
    }
    if id in g.edgesByOwner {
      assert g.edgesByOwner[id := g.edgesByOwner[id]] == g.edgesByOwner;
    } else {
      assert rest == g.edgesByOwner;
    }
  }

  /** Keys of different owners never coincide. */
  lemma OwnersDisjoint(g: Graph, id: string, edges: seq<Edge>)
    requires Inv(g) && '|' !in id && forall e :: e in edges ==> e.from == id
    ensures AllKeys(g.edgesByOwner - {id}) !! KeySet(edges)
  {
    hide EdgeKey;
    var rest := g.edgesByOwner - {id};
    forall k | k in AllKeys(rest) && k in KeySet(edges) ensures false {
      var o, e :| o in rest && e in rest[o] && EdgeKey(e) == k;
      var f :| f in edges && EdgeKey(f) == k;
      SourceOfKey(e);
      SourceOfKey(f);
    }
  }

  lemma Replace(others: set<string>, prev: set<string>, next: set<string>)
    requires others !! prev
    ensures (others + prev) - (prev - next) + (next - prev) == others + next
    ensures (others + prev) - prev == others
  {
  }

  lemma FollowsUpsert(g: Graph, r: Resource, edges: seq<Edge>)
    requires Inv(g) && Proper(Upsert(r, edges))
    ensures ApplyAll(Snapshot(g), Events(g, Upsert(r, edges))) == Snapshot(After(g, Upsert(r, edges)))
  {
    hide EdgeKey, AllKeys, KeySet, ApplyAll, NotIn, Removed, Added;
    var prev := OwnedBy(g, r.id);
    var ev := if r.id in g.resources then ResourceUpdated(r) else ResourceAdded(r);
    var m := Snapshot(g);
    var m' := m.(resources := m.resources[r.id := r]);
    var removed, added := Removed(NotIn(prev, KeySet(edges))), Added(NotIn(edges, KeySet(prev)));
    FollowsFirst(m, ev);
    FollowsDiff(m', prev, edges);
    ApplyConcat(m, [ev] + removed, added);
    ApplyConcat(m, [ev], removed);
    KeysByOwner(g, r.id);
    OwnersDisjoint(g, r.id, prev);
    Replace(AllKeys(g.edgesByOwner - {r.id}), KeySet(prev), KeySet(edges));
  }

  lemma FollowsRemove(g: Graph, id: string)
    requires Inv(g) && id in g.resources
    ensures ApplyAll(Snapshot(g), Events(g, Remove(id))) == Snapshot(After(g, Remove(id)))
  {
    hide EdgeKey, AllKeys, KeySet, ApplyAll, Removed;
    var prev := OwnedBy(g, id);
    var m := Snapshot(g);
    ApplyRemoved(m, prev);
    ApplyConcat(m, Removed(prev), [ResourceRemoved(g.resources[id])]);
    FollowsFirst(ApplyAll(m, Removed(prev)), ResourceRemoved(g.resources[id]));
    KeysByOwner(g, id);
    OwnersDisjoint(g, id, prev);
    Replace(AllKeys(g.edgesByOwner - {id}), KeySet(prev), {});
  }

  lemma KeepsInv(g: Graph, op: Op)
    requires Inv(g) && Proper(op)
    ensures Inv(After(g, op))
  {
  }

  /** Following the events of one operation leads exactly to the new graph. */
  lemma FollowsOperation(g: Graph, op: Op)
    requires Inv(g) && Proper(op)
    ensures ApplyAll(Snapshot(g), Events(g, op)) == Snapshot(After(g, op)) && Inv(After(g, op))
  {
    hide EdgeKey, AllKeys, KeySet, Inv, Proper, NotIn, Removed, Added;
    KeepsInv(g, op);
    match op
    case Upsert(r, edges) => FollowsUpsert(g, r, edges);
    case Remove(id) =>
      if id in g.resources {
        FollowsRemove(g, id);
      }
  }

  lemma FollowsFirst(m: Mirror, ev: Event)
    ensures ApplyAll(m, [ev]) == Apply(m, ev)
  {
    assert [ev][..0] == [];
  }

  /** Removing what is only in `prev` and adding what is only in `next` replaces one key set by the other. */
  lemma FollowsDiff(m: Mirror, prev: seq<Edge>, next: seq<Edge>)
    ensures ApplyAll(ApplyAll(m, Removed(NotIn(prev, KeySet(next)))), Added(NotIn(next, KeySet(prev))))
         == Mirror(m.resources, m.edgeKeys - (KeySet(prev) - KeySet(next)) + (KeySet(next) - KeySet(prev)))
  {
    hide KeySet, ApplyAll, NotIn;
    ApplyRemoved(m, NotIn(prev, KeySet(next)));
    KeysNotIn(prev, KeySet(next));
    KeysNotIn(next, KeySet(prev));
    ApplyAdded(ApplyAll(m, Removed(NotIn(prev, KeySet(next)))), NotIn(next, KeySet(prev)));
  }

  // ----- No edge without its source -----

  lemma SnapshotAnchored(g: Graph)
    requires Inv(g)
    ensures Anchored(Snapshot(g))
  {
    hide EdgeKey, SourceOf;
    forall k | k in AllKeys(g.edgesByOwner) ensures SourceOf(k) in g.resources {
      var id, e :| id in g.edgesByOwner && e in g.edgesByOwner[id] && EdgeKey(e) == k;
      SourceOfKey(e);
    }
  }

  /** An edge event that cannot leave a dangling edge when `id` is known. */
  predicate EdgeEventFor(ev: Event, id: string) {
    ev.EdgeRemoved? || (ev.EdgeAdded? && SourceOf(EdgeKey(ev.edge)) == id)
  }

  lemma {:induction false} EdgeEventsAnchored(m: Mirror, evs: seq<Event>, id: string)
    requires Anchored(m) && id in m.resources && forall i :: 0 <= i < |evs| ==> EdgeEventFor(evs[i], id)
    ensures Anchored(ApplyAll(m, evs)) && ApplyAll(m, evs).resources == m.resources
  {
    hide EdgeKey, SourceOf;
    if evs != [] {
      EdgeEventsAnchored(m, evs[..|evs| - 1], id);
    }
  }

  lemma NotInMembers(edges: seq<Edge>, other: set<string>)
    ensures forall e :: e in NotIn(edges, other) ==> e in edges
  {
    forall e | e in NotIn(edges, other) ensures e in edges {
      FilterMembers(KeyNotIn(other), edges, e);
    }
  }

  /** Even between the events of one operation no edge is known without its source. */
  lemma AnchoredThroughout(g: Graph, op: Op, k: nat)
    requires Inv(g) && Proper(op) && k <= |Events(g, op)|
    ensures Anchored(ApplyAll(Snapshot(g), Events(g, op)[..k]))
  {
    hide EdgeKey, SourceOf, AllKeys, Anchored, NotIn;
    var m, evs := Snapshot(g), Events(g, op);
    SnapshotAnchored(g);
    if k == |evs| {
      FollowsOperation(g, op);
      SnapshotAnchored(After(g, op));
      assert evs[..k] == evs;
    } else if op.Remove? {
      EdgeEventsAnchored(m, evs[..k], op.id);
    } else if k > 0 {
      UpsertAnchored(g, op.resource, op.edges, k);
    }
  }

  lemma UpsertAnchored(g: Graph, r: Resource, edges: seq<Edge>, k: nat)
    requires Inv(g) && Proper(Upsert(r, edges)) && 0 < k <= |Events(g, Upsert(r, edges))|
    ensures Anchored(ApplyAll(Snapshot(g), Events(g, Upsert(r, edges))[..k]))
  {
    hide EdgeKey, SourceOf, AllKeys, NotIn, ApplyAll;
    var m, evs := Snapshot(g), Events(g, Upsert(r, edges));
    var added := NotIn(edges, KeySet(OwnedBy(g, r.id)));
    SnapshotAnchored(g);
    NotInMembers(edges, KeySet(OwnedBy(g, r.id)));
    forall i | 1 <= i < |evs| ensures EdgeEventFor(evs[i], r.id) {
      var n := 1 + |NotIn(OwnedBy(g, r.id), KeySet(edges))|;
      if i >= n {
        assert evs[i] == EdgeAdded(added[i - n]) && added[i - n] in added;
        SourceOfKey(added[i - n]);
      }
    }
    FollowsFirst(m, evs[0]);
    assert evs[..k] == [evs[0]] + evs[1..k];
    ApplyConcat(m, [evs[0]], evs[1..k]);
    EdgeEventsAnchored(Apply(m, evs[0]), evs[1..k], r.id);
  }

  // ----- Whole runs -----

  function RunFrom(g: Graph, ops: seq<Op>): Graph
    decreases |ops|
  {
    if ops == [] then g else RunFrom(After(g, ops[0]), ops[1..])
  }

  /** Everything a listener receives while the operations are performed. */
  function EventsFrom(g: Graph, ops: seq<Op>): seq<Event>
    decreases |ops|
  {
    if ops == [] then [] else Events(g, ops[0]) + EventsFrom(After(g, ops[0]), ops[1..])
  }

  predicate AllProper(ops: seq<Op>) {
    forall i :: 0 <= i < |ops| ==> Proper(ops[i])
  }

  /**
   * A subscriber that takes a snapshot at any point and applies every later event has
   * exactly the resources and edge keys of the store after each operation.
   */
  lemma {:induction false} SubscriberFollows(g: Graph, ops: seq<Op>)
    requires Inv(g) && AllProper(ops)
    ensures ApplyAll(Snapshot(g), EventsFrom(g, ops)) == Snapshot(RunFrom(g, ops)) && Inv(RunFrom(g, ops))
    decreases |ops|
  {
    hide Snapshot, Events, After, Inv, Proper;
    if ops == [] {
    } else {
      var g' := After(g, ops[0]);
      FollowsOperation(g, ops[0]);
      SubscriberFollows(g', ops[1..]);
      ApplyConcat(Snapshot(g), Events(g, ops[0]), EventsFrom(g', ops[1..]));
    }
  }

  /** At every point of the event stream each known edge leaves a known resource. */
  lemma {:induction false} SubscriberNeverDangles(g: Graph, ops: seq<Op>, k: nat)
    requires Inv(g) && AllProper(ops) && k <= |EventsFrom(g, ops)|
    ensures Anchored(ApplyAll(Snapshot(g), EventsFrom(g, ops)[..k]))
    decreases |ops|
  {
    hide Snapshot, Events, After, Inv, Proper, Anchored;
    var evs := EventsFrom(g, ops);
    if ops == [] {
      SnapshotAnchored(g);
    } else {
      var g', n := After(g, ops[0]), |Events(g, ops[0])|;
      if k <= n {
        assert evs[..k] == Events(g, ops[0])[..k];
        AnchoredThroughout(g, ops[0], k);
      } else {
        FollowsOperation(g, ops[0]);
        SubscriberNeverDangles(g', ops[1..], k - n);
        assert evs[..k] == Events(g, ops[0]) + EventsFrom(g', ops[1..])[..k - n];
        ApplyConcat(Snapshot(g), Events(g, ops[0]), EventsFrom(g', ops[1..])[..k - n]);
      }
    }
  }

  /** The revision counts the events, so two equal revisions of one store are one graph. */
  lemma {:induction false} EqualRevisionsEqualGraphs(g: Graph, ops: seq<Op>, rev: nat, rev': nat)
    requires rev' == rev + |EventsFrom(g, ops)|
    ensures rev' == rev ==> RunFrom(g, ops) == g
    decreases |ops|
  {
    hide NotIn, Removed, Added;
    if ops != [] && |EventsFrom(g, ops)| == 0 {
      assert Events(g, ops[0]) == [];
      assert After(g, ops[0]) == g;
      EqualRevisionsEqualGraphs(g, ops[1..], rev, rev');
    }
  }

  /** The connector's own objects are proper: their edges leave the resource they build. */
  lemma BuildersAreProper(source: string, k: Kind, o: KubeObject)
    requires ResourceOf(source, k, o).Some? && '|' !in o.name && '|' !in o.namespace
    ensures Proper(Upsert(ResourceOf(source, k, o).value, EdgesOf(source, k, o)))
  {
    hide OwnerEdges, Attributes, EdgesOf;
    IdWithoutBar(k, o);
  }

  lemma IdWithoutBar(k: Kind, o: KubeObject)
    requires '|' !in o.name && '|' !in o.namespace
    ensures '|' !in IdOf(k, o)
  {
    hide KindName;
    KindWithoutBar(k);
  }

  lemma KindWithoutBar(k: Kind)
    ensures '|' !in KindName(k)
  {
  }
}

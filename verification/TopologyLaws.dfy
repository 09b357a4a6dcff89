/**
 * What the events of the topology store and the objects built from the cluster mean
 * (connectors/kubernetes-graph.ts).
 */
module TopologyLaws {
  import opened Prelude
  import opened Topology

  // ----- Events -----

  /** Every event tells what its operation did: each kind is emitted only where it is the case. */
  lemma EventsTell(g: Graph, op: Op, k: nat)
    requires Inv(g) && Proper(op) && k < |Events(g, op)|
    ensures var after, keys, keys' := After(g, op), AllKeys(g.edgesByOwner), AllKeys(After(g, op).edgesByOwner);
            match Events(g, op)[k]
            case ResourceAdded(r) => r.id !in g.resources && after.resources == g.resources[r.id := r]
            case ResourceUpdated(r) => r.id in g.resources && after.resources == g.resources[r.id := r]
            case ResourceRemoved(r) =>
              r.id in g.resources && g.resources[r.id] == r && after.resources == g.resources - {r.id}
            case EdgeAdded(e) => EdgeKey(e) !in keys && EdgeKey(e) in keys'
            case EdgeRemoved(e) => EdgeKey(e) in keys && EdgeKey(e) !in keys'
  {
    hide EdgeKey, AllKeys, NotIn, KeySet;
    match op
    case Upsert(r, edges) =>
      var prev := OwnedBy(g, r.id);
      var gone, more := NotIn(prev, KeySet(edges)), NotIn(edges, KeySet(prev));
      KeysByOwner(g, r.id);
      OwnersDisjoint(g, r.id, prev);
      OwnersDisjoint(g, r.id, edges);
      if 1 <= k <= |gone| {
        KeptKey(prev, edges, k - 1);
      } else if k > |gone| {
        KeptKey(edges, prev, k - 1 - |gone|);
      }
    case Remove(id) =>
      var prev := OwnedBy(g, id);
      KeysByOwner(g, id);
      OwnersDisjoint(g, id, prev);
      if k < |prev| {
        KeyOf(prev, k);
      }
  }

  /** An edge that is kept is one of the list whose key the other list does not have. */
  lemma KeptKey(edges: seq<Edge>, other: seq<Edge>, i: nat)
    requires i < |NotIn(edges, KeySet(other))|
    ensures var e := NotIn(edges, KeySet(other))[i]; EdgeKey(e) in KeySet(edges) && EdgeKey(e) !in KeySet(other)
  {
    hide EdgeKey;
    var kept := NotIn(edges, KeySet(other));
    assert kept[i] in kept;
    FilterMembers(KeyNotIn(KeySet(other)), edges, kept[i]);
  }

  lemma KeyOf(edges: seq<Edge>, i: nat)
    requires i < |edges|
    ensures EdgeKey(edges[i]) in KeySet(edges)
  {
    hide EdgeKey;
  }

  // ----- Keys and ids -----

  /** What stands before the first separator is determined by the text. */
  lemma FirstPart(sep: char, a: string, x: string, b: string, y: string)
    requires sep !in a && sep !in b && a + [sep] + x == b + [sep] + y
    ensures a == b && x == y
  {
    var s, t := a + [sep] + x, b + [sep] + y;
    assert s[|a|] == sep && t[|b|] == sep;
    assert forall i :: 0 <= i < |a| ==> s[i] == a[i];
    assert forall i :: 0 <= i < |b| ==> t[i] == b[i];
    assert s[..|a|] == a && t[..|b|] == b;
    assert s[|a| + 1..] == x && t[|b| + 1..] == y;
  }

  /** Edges have one key exactly when they join the same resources by the same relation. */
  lemma EdgeKeyExact(e: Edge, f: Edge)
    requires '|' !in e.from && '|' !in e.relation && '|' !in f.from && '|' !in f.relation
    ensures EdgeKey(e) == EdgeKey(f) <==> e.from == f.from && e.relation == f.relation && e.to == f.to
  {
    if EdgeKey(e) == EdgeKey(f) {
      assert EdgeKey(e) == e.from + "|" + (e.relation + "|" + e.to);
      assert EdgeKey(f) == f.from + "|" + (f.relation + "|" + f.to);
      FirstPart('|', e.from, e.relation + "|" + e.to, f.from, f.relation + "|" + f.to);
      FirstPart('|', e.relation, e.to, f.relation, f.to);
    }
  }

  lemma KindNames(k: Kind, l: Kind)
    ensures ':' !in KindName(k) && (KindName(k) == KindName(l) <==> k == l)
  {
  }

  /** Objects have one id exactly when they are of one kind and have one name in one namespace. */
  lemma IdsExact(k: Kind, o: KubeObject, l: Kind, p: KubeObject)
    requires '/' !in o.namespace && '/' !in p.namespace
    ensures IdOf(k, o) == IdOf(l, p) <==>
            k == l && o.name == p.name && (k in {Pod, Deployment, ReplicaSet} ==> o.namespace == p.namespace)
  {
    hide KindName;
    var x := if Namespaced(k) then o.namespace + "/" + o.name else o.name;
    var y := if Namespaced(l) then p.namespace + "/" + p.name else p.name;
    KindNames(k, l);
    KindNames(l, k);
    IdParts(k, o, x);
    IdParts(l, p, y);
    if IdOf(k, o) == IdOf(l, p) {
      SameTail("k8s:", KindName(k) + ":" + x, KindName(l) + ":" + y);
      FirstPart(':', KindName(k), x, KindName(l), y);
      if Namespaced(k) {
        FirstPart('/', o.namespace, o.name, p.namespace, p.name);
      }
    }
  }

  lemma IdParts(k: Kind, o: KubeObject, x: string)
    requires x == if Namespaced(k) then o.namespace + "/" + o.name else o.name
    ensures IdOf(k, o) == "k8s:" + (KindName(k) + ":" + x)
  {
    hide KindName;
  }

  lemma SameTail(front: string, a: string, b: string)
    requires front + a == front + b
    ensures a == b
  {
    assert (front + a)[|front|..] == a && (front + b)[|front|..] == b;
  }

  // ----- Objects of the cluster -----

  /** Another object of the cluster, of which only name and namespace matter. */
  function Named(namespace: string, name: string): KubeObject {
    KubeObject(name, namespace, "", map[], [], "", "", "")
  }

  /** The id of an owner: it lives in the namespace of what it owns. */
  function OwnerId(ref: OwnerRef, namespace: string): Option<string> {
    match ref.kind
    case "Deployment" => Some(NamespacedId("deployment", namespace, ref.name))
    case "ReplicaSet" => Some(NamespacedId("replicaset", namespace, ref.name))
    case "StatefulSet" => Some(NamespacedId("statefulset", namespace, ref.name))
    case "DaemonSet" => Some(NamespacedId("daemonset", namespace, ref.name))
    case "Job" => Some(NamespacedId("job", namespace, ref.name))
    case "CronJob" => Some(NamespacedId("cronjob", namespace, ref.name))
    case _ => None
  }

  /** What an edge of an object says. */
  ghost predicate Says(k: Kind, o: KubeObject, relation: string, to: string) {
    || (relation == "IN_NAMESPACE" && to == IdOf(Namespace, Named("", o.namespace)))
    || (relation == "RUNS_ON" && k.Pod? && o.nodeName != "" && to == IdOf(Node, Named("", o.nodeName)))
    || (relation == "OWNED_BY" && !k.Deployment?
        && exists i :: 0 <= i < |o.owners| && OwnerId(o.owners[i], o.namespace) == Some(to))
  }

  lemma OwnerIds(ref: OwnerRef, namespace: string)
    ensures OwnerId(ref, namespace) == if ref.kind in KNOWN_OWNER_KINDS
                                       then Some(NamespacedId(KNOWN_OWNER_KINDS[ref.kind], namespace, ref.name)) else None
  {
    hide NamespacedId;
    assert KNOWN_OWNER_KINDS.Keys == {"Deployment", "ReplicaSet", "StatefulSet", "DaemonSet", "Job", "CronJob"};
  }

  lemma {:induction false} OwnerEdgesExact(source: string, from: string, owners: seq<OwnerRef>, ns: string, e: Edge)
    ensures e in OwnerEdges(source, from, owners, ns) <==>
            && e == Edge(from, e.to, "OWNED_BY", source, 1.0)
            && exists i :: 0 <= i < |owners| && OwnerId(owners[i], ns) == Some(e.to)
  {
    if owners != [] {
      hide OwnerId, NamespacedId;
      OwnerEdgesExact(source, from, owners[1..], ns, e);
      OwnerIds(owners[0], ns);
      if i :| 0 <= i < |owners| && OwnerId(owners[i], ns) == Some(e.to) {
        assert i > 0 ==> owners[1..][i - 1] == owners[i];
      }
      if i :| 0 <= i < |owners| - 1 && OwnerId(owners[1..][i], ns) == Some(e.to) {
        assert owners[i + 1] == owners[1..][i];
      }
    }
  }

  /**
   * The edges built for an object are exactly these: a pod, deployment or replica set is in its
   * namespace, a scheduled pod runs on its node, and pods and replica sets are owned by their
   * owners of known kinds; each leaves the object with full confidence.
   */
  lemma EdgesExact(source: string, k: Kind, o: KubeObject, e: Edge)
    ensures e in EdgesOf(source, k, o) <==>
            && k in {Pod, Deployment, ReplicaSet} && o.name != "" && o.namespace != ""
            && e == Edge(IdOf(k, o), e.to, e.relation, source, 1.0)
            && Says(k, o, e.relation, e.to)
  {
    hide OwnerEdges, OwnerId;
    OwnerEdgesExact(source, IdOf(k, o), o.owners, o.namespace, e);
  }

  /** The resource built for an object, field by field. */
  lemma ResourceExact(source: string, k: Kind, o: KubeObject, key: string)
    ensures var r := ResourceOf(source, k, o);
            && (r.Some? <==> o.name != "" && (k in {Pod, Deployment, ReplicaSet} ==> o.namespace != ""))
            && (r.Some? ==>
                  && r.value.id == IdOf(k, o) && r.value.kind == KindName(k) && r.value.name == o.name
                  && r.value.source == source && r.value.labels == o.labels
                  && (key in r.value.attributes <==>
                        || (key == "uid" && o.uid != "")
                        || (key == "phase" && k.Pod? && o.phase != "")
                        || (key == "nodeName" && k.Pod? && o.nodeName != "")
                        || (key == "ready" && k.Node? && o.ready != ""))
                  && (key in r.value.attributes ==>
                        r.value.attributes[key] == if key == "uid" then o.uid
                                                   else if key == "phase" then o.phase
                                                   else if key == "nodeName" then o.nodeName
                                                   else o.ready))
  {
  }

  lemma Spelled(kind: string, prefix: string, namespace: string, name: string)
    requires prefix == "k8s:" + kind + ":"
    ensures NamespacedId(kind, namespace, name) == prefix + namespace + "/" + name
    ensures ClusterScopedId(kind, name) == prefix + name
  {
  }

  /** The ids of pods and nodes as the platform's names make them. */
  lemma IdsSpelled(o: KubeObject)
    ensures IdOf(Pod, o) == "k8s:pod:" + o.namespace + "/" + o.name
    ensures IdOf(Node, o) == "k8s:node:" + o.name
  {
    hide NamespacedId, ClusterScopedId;
    Spelled("pod", "k8s:pod:", o.namespace, o.name);
    Spelled("node", "k8s:node:", "", o.name);
  }

  lemma WorkloadIdsSpelled(o: KubeObject)
    ensures IdOf(Deployment, o) == "k8s:deployment:" + o.namespace + "/" + o.name
    ensures IdOf(ReplicaSet, o) == "k8s:replicaset:" + o.namespace + "/" + o.name
    ensures IdOf(Namespace, o) == "k8s:namespace:" + o.name
  {
    hide NamespacedId, ClusterScopedId;
    Spelled("deployment", "k8s:deployment:", o.namespace, o.name);
    Spelled("replicaset", "k8s:replicaset:", o.namespace, o.name);
    Spelled("namespace", "k8s:namespace:", "", o.name);
  }
}

/** The cache built at start-up depends only on which pods are listed, not on their order. */
module StartUp {
  import IntSets
  import opened NodeState
  import opened Codec
  import opened NodeUpdates
  import opened CacheState

  /** The pod is assigned to this device of this node. */
  predicate On(pod: Pod, name: string, d: int) {
    Assigned(pod) && pod.nodeName == name && d in PodIds(pod)
  }

  ghost predicate SomeOn(ps: set<Pod>, name: string, d: int) {
    exists p :: p in ps && On(p, name, d)
  }

  ghost predicate UniqueUids(ps: set<Pod>) {
    forall p, q :: p in ps && q in ps && p.uid == q.uid ==> p == q
  }

  /** The map holds exactly the given pods, each under its UID. */
  ghost predicate ExactlyOn(m: map<UID, Pod>, ps: set<Pod>, name: string, d: int) {
    && (forall p :: p in ps && On(p, name, d) ==> p.uid in m)
    && (forall uid :: uid in m ==> m[uid] in ps && m[uid].uid == uid && On(m[uid], name, d))
  }

  /** A device holds the assigned pods annotated with it and is used if there is one. */
  ghost predicate DeviceOf(dev: Device, ps: set<Pod>, name: string, d: int) {
    ExactlyOn(dev.pods, ps, name, d) && (dev.isUsed <==> SomeOn(ps, name, d))
  }

  /** Matrix entries are zero on exactly the used rows and columns and original elsewhere. */
  ghost predicate TopologyOf(n: Node) {
    && n.topology.Keys == n.spec.topology.Keys
    && forall p :: p in n.topology ==>
         n.topology[p] == if Used(n, p.0) || Used(n, p.1) then 0 else n.spec.topology[p]
  }

  ghost predicate NodeOf(n: Node, spec: NodeSpec, ps: set<Pod>, name: string) {
    && n.spec == spec && (forall d :: d in n.devs <==> 0 <= d < spec.gpuCount)
    && (forall d :: d in n.devs ==> DeviceOf(n.devs[d], ps, name, d))
    && TopologyOf(n)
  }

  predicate HoldsOn(spec: NodeSpec, pod: Pod) {
    exists id :: id in PodIds(pod) && 0 <= id < spec.gpuCount
  }

  predicate Known(lister: Lister, pod: Pod) {
    Assigned(pod) && pod.nodeName in lister && HoldsOn(lister[pod.nodeName], pod)
  }

  ghost predicate NodeListed(ps: set<Pod>, name: string) {
    exists p :: p in ps && Assigned(p) && p.nodeName == name
  }

  ghost predicate NodesOf(nodes: map<string, Node>, lister: Lister, ps: set<Pod>) {
    && (forall name :: name in nodes <==> NodeListed(ps, name))
    && (forall name :: name in nodes ==> name in lister && NodeOf(nodes[name], lister[name], ps, name))
  }

  ghost predicate KnownOf(known: map<UID, Pod>, lister: Lister, ps: set<Pod>) {
    && (forall p :: p in ps && Known(lister, p) ==> p.uid in known)
    && (forall uid :: uid in known ==> known[uid] in ps && known[uid].uid == uid && Known(lister, known[uid]))
  }

  /** The cache that the listed pods ps should give. */
  ghost predicate CacheOf(c: Cache, lister: Lister, ps: set<Pod>) {
    NodesOf(c.nodes, lister, ps) && KnownOf(c.known, lister, ps)
  }

  // ---------- Adding one pod ----------

  lemma FreshIsEmpty(spec: NodeSpec, ps: set<Pod>, name: string)
    requires !NodeListed(ps, name)
    ensures NodeOf(FreshNode(spec), spec, ps, name)
  {
    var n := FreshNode(spec);
    forall d | d in n.devs ensures DeviceOf(n.devs[d], ps, name, d) {
      assert !SomeOn(ps, name, d);
    }
  }

  lemma DeviceElsewhere(dev: Device, ps: set<Pod>, name: string, d: int, pod: Pod)
    requires DeviceOf(dev, ps, name, d) && !On(pod, name, d)
    ensures DeviceOf(dev, ps + {pod}, name, d)
  {
    if SomeOn(ps, name, d) {
      var p :| p in ps && On(p, name, d);
      assert p in ps + {pod};
    }
  }

  lemma DeviceHere(dev: Device, ps: set<Pod>, name: string, d: int, pod: Pod)
    requires DeviceOf(dev, ps, name, d) && On(pod, name, d) && UniqueUids(ps + {pod})
    ensures DeviceOf(WithPod(dev, pod), ps + {pod}, name, d)
  {
    ExactlyWithPod(dev.pods, ps, name, d, pod);
    assert pod in ps + {pod};
  }

  lemma ExactlyWithPod(m: map<UID, Pod>, ps: set<Pod>, name: string, d: int, pod: Pod)
    requires ExactlyOn(m, ps, name, d) && On(pod, name, d) && UniqueUids(ps + {pod})
    ensures ExactlyOn(m[pod.uid := pod], ps + {pod}, name, d)
  {
    var with := m[pod.uid := pod];
    forall p | p in ps + {pod} && On(p, name, d) ensures p.uid in with {
    }
    forall uid | uid in with ensures with[uid] in ps + {pod} && with[uid].uid == uid && On(with[uid], name, d) {
      if uid != pod.uid { assert with[uid] == m[uid]; }
    }
  }

  lemma NodeElsewhere(n: Node, spec: NodeSpec, ps: set<Pod>, name: string, pod: Pod)
    requires NodeOf(n, spec, ps, name) && (pod.nodeName != name || !Assigned(pod))
    ensures NodeOf(n, spec, ps + {pod}, name)
  {
    forall d | d in n.devs ensures DeviceOf(n.devs[d], ps + {pod}, name, d) {
      DeviceElsewhere(n.devs[d], ps, name, d, pod);
    }
  }

  lemma NodeHere(n: Node, spec: NodeSpec, ps: set<Pod>, name: string, pod: Pod)
    requires NodeOf(n, spec, ps, name) && pod.nodeName == name && Assigned(pod) && UniqueUids(ps + {pod})
    ensures NodeOf(AddIds(n, pod, PodIds(pod)), spec, ps + {pod}, name)
  {
    var ids := PodIds(pod);
    var r := AddIds(n, pod, ids);
    AddIdsClosed(n, pod, ids);
    forall d | d in r.devs ensures DeviceOf(r.devs[d], ps + {pod}, name, d) {
      if d in ids {
        DeviceHere(n.devs[d], ps, name, d, pod);
      } else {
        DeviceElsewhere(n.devs[d], ps, name, d, pod);
      }
    }
    forall p | p in r.topology
      ensures r.topology[p] == if Used(r, p.0) || Used(r, p.1) then 0 else spec.topology[p]
    {
      assert Used(r, p.0) <==> Used(n, p.0) || (p.0 in n.devs && p.0 in ids);
      assert Used(r, p.1) <==> Used(n, p.1) || (p.1 in n.devs && p.1 in ids);
    }
  }

  lemma CacheSkips(c: Cache, lister: Lister, ps: set<Pod>, pod: Pod)
    requires CacheOf(c, lister, ps) && !Assigned(pod)
    ensures CacheOf(c, lister, ps + {pod})
  {
    forall name ensures name in c.nodes <==> NodeListed(ps + {pod}, name) {
      if NodeListed(ps, name) {
        var p :| p in ps && Assigned(p) && p.nodeName == name;
        assert p in ps + {pod};
      }
    }
    forall name | name in c.nodes ensures NodeOf(c.nodes[name], lister[name], ps + {pod}, name) {
      NodeElsewhere(c.nodes[name], lister[name], ps, name, pod);
    }
  }

  lemma NodesAfterAdd(c: Cache, lister: Lister, ps: set<Pod>, pod: Pod)
    requires CacheOf(c, lister, ps) && Assigned(pod) && pod.nodeName in lister && UniqueUids(ps + {pod})
    ensures NodesOf(AddPod(c, lister, pod).nodes, lister, ps + {pod})
  {
    var here := pod.nodeName;
    var c1 := WithNode(c, here, lister[here]);
    if here !in c.nodes { FreshIsEmpty(lister[here], ps, here); }
    assert NodeOf(c1.nodes[here], lister[here], ps, here);
    NodeHere(c1.nodes[here], lister[here], ps, here, pod);
    var r := AddPod(c, lister, pod).nodes;
    forall name ensures name in r <==> NodeListed(ps + {pod}, name) {
      if name == here {
        assert pod in ps + {pod};
      } else if NodeListed(ps, name) {
        var p :| p in ps && Assigned(p) && p.nodeName == name;
        assert p in ps + {pod};
      }
    }
    forall name | name in r ensures name in lister && NodeOf(r[name], lister[name], ps + {pod}, name) {
      if name != here { NodeElsewhere(c.nodes[name], lister[name], ps, name, pod); }
    }
  }

  lemma KnownAfterAdd(known: map<UID, Pod>, lister: Lister, ps: set<Pod>, pod: Pod)
    requires KnownOf(known, lister, ps) && UniqueUids(ps + {pod})
    ensures KnownOf(if Known(lister, pod) then known[pod.uid := pod] else known, lister, ps + {pod})
  {
    assert pod in ps + {pod};
  }

  lemma HoldsIsKnown(n: Node, lister: Lister, pod: Pod)
    requires Assigned(pod) && pod.nodeName in lister
    requires forall d :: d in n.devs <==> 0 <= d < lister[pod.nodeName].gpuCount
    ensures Holds(n, pod) <==> Known(lister, pod)
  {
  }

  lemma CacheAfterAdd(c: Cache, lister: Lister, ps: set<Pod>, pod: Pod)
    requires CacheOf(c, lister, ps) && Assigned(pod) && pod.nodeName in lister && UniqueUids(ps + {pod})
    ensures CacheOf(AddPod(c, lister, pod), lister, ps + {pod})
  {
    NodesAfterAdd(c, lister, ps, pod);
    KnownAfterAdd(c.known, lister, ps, pod);
    HoldsIsKnown(WithNode(c, pod.nodeName, lister[pod.nodeName]).nodes[pod.nodeName], lister, pod);
  }

  // ---------- The whole list ----------

  function PodSet(pods: seq<Pod>): set<Pod> {
    set p | p in pods
  }

  ghost predicate NodesListed(lister: Lister, ps: set<Pod>) {
    forall p :: p in ps && Assigned(p) ==> p.nodeName in lister
  }

  /** Building succeeds when all referenced nodes are listed, and gives the cache of the listed pods. */
  lemma {:induction false} BuildIsExact(lister: Lister, pods: seq<Pod>)
    requires UniqueUids(PodSet(pods)) && NodesListed(lister, PodSet(pods))
    ensures BuildPods(EMPTY, lister, pods).1 && CacheOf(BuildPods(EMPTY, lister, pods).0, lister, PodSet(pods))
  {
    if pods != [] {
      var front, pod := pods[..|pods| - 1], pods[|pods| - 1];
      assert pods == front + [pod];
      assert PodSet(pods) == PodSet(front) + {pod};
      BuildIsExact(lister, front);
      var c := BuildPods(EMPTY, lister, front).0;
      if Assigned(pod) {
        CacheAfterAdd(c, lister, PodSet(front), pod);
      } else {
        CacheSkips(c, lister, PodSet(front), pod);
      }
    }
  }

  // ---------- The description determines the cache ----------

  lemma SamePods(m: map<UID, Pod>, m': map<UID, Pod>, ps: set<Pod>, name: string, d: int)
    requires ExactlyOn(m, ps, name, d) && ExactlyOn(m', ps, name, d) && UniqueUids(ps)
    ensures m == m'
  {
    assert forall uid :: uid in m ==> m[uid].uid in m';
    assert forall uid :: uid in m' ==> m'[uid].uid in m;
    assert m.Keys == m'.Keys;
  }

  lemma SameNode(n: Node, n': Node, spec: NodeSpec, ps: set<Pod>, name: string)
    requires NodeOf(n, spec, ps, name) && NodeOf(n', spec, ps, name) && UniqueUids(ps)
    ensures n == n'
  {
    forall d | d in n.devs ensures n.devs[d] == n'.devs[d] {
      SamePods(n.devs[d].pods, n'.devs[d].pods, ps, name, d);
    }
    IntSets.SameMap(n.devs, n'.devs);
    assert n.topology == n'.topology;
  }

  lemma SameNodes(nodes: map<string, Node>, nodes': map<string, Node>, lister: Lister, ps: set<Pod>)
    requires NodesOf(nodes, lister, ps) && NodesOf(nodes', lister, ps) && UniqueUids(ps)
    ensures nodes == nodes'
  {
    assert nodes.Keys == nodes'.Keys;
    forall name | name in nodes ensures nodes[name] == nodes'[name] {
      SameNode(nodes[name], nodes'[name], lister[name], ps, name);
    }
  }

  lemma SameKnown(known: map<UID, Pod>, known': map<UID, Pod>, lister: Lister, ps: set<Pod>)
    requires KnownOf(known, lister, ps) && KnownOf(known', lister, ps) && UniqueUids(ps)
    ensures known == known'
  {
    assert forall uid :: uid in known ==> known[uid].uid in known';
    assert forall uid :: uid in known' ==> known'[uid].uid in known;
    assert known.Keys == known'.Keys;
  }

  /** The built cache does not depend on the order in which the pods are listed. */
  lemma BuildIgnoresOrder(lister: Lister, pods: seq<Pod>, pods': seq<Pod>)
    requires PodSet(pods) == PodSet(pods') && UniqueUids(PodSet(pods)) && NodesListed(lister, PodSet(pods))
    ensures BuildPods(EMPTY, lister, pods) == BuildPods(EMPTY, lister, pods')
  {
    BuildIsExact(lister, pods);
    BuildIsExact(lister, pods');
    var c, c' := BuildPods(EMPTY, lister, pods).0, BuildPods(EMPTY, lister, pods').0;
    SameNodes(c.nodes, c'.nodes, lister, PodSet(pods));
    SameKnown(c.known, c'.known, lister, PodSet(pods));
  }

  /** The cache that start-up returns. */
  function Built(lister: Lister, pods: seq<Pod>): Cache {
    BuildNodes(BuildPods(EMPTY, lister, pods).0, lister, lister.Keys)
  }

  /** The returned cache holds exactly the listed nodes that have GPUs or a listed assigned pod; on
      each of them the devices, the matrix and the known pods are those of the listed pods. */
  lemma BuiltIsExact(lister: Lister, pods: seq<Pod>)
    requires UniqueUids(PodSet(pods)) && NodesListed(lister, PodSet(pods))
    ensures var c, ps := Built(lister, pods), PodSet(pods);
            && (forall name :: name in c.nodes <==>
                 NodeListed(ps, name) || (name in lister && name != "" && lister[name].gpuCount > 0))
            && (forall name :: name in c.nodes ==> name in lister && NodeOf(c.nodes[name], lister[name], ps, name))
            && KnownOf(c.known, lister, ps)
  {
    var before, c, ps := BuildPods(EMPTY, lister, pods).0, Built(lister, pods), PodSet(pods);
    BuildIsExact(lister, pods);
    forall name | name in c.nodes ensures name in lister && NodeOf(c.nodes[name], lister[name], ps, name) {
      if name !in before.nodes { FreshIsEmpty(lister[name], ps, name); }
    }
  }

  lemma BuiltIgnoresOrder(lister: Lister, pods: seq<Pod>, pods': seq<Pod>)
    requires PodSet(pods) == PodSet(pods') && UniqueUids(PodSet(pods)) && NodesListed(lister, PodSet(pods))
    ensures Built(lister, pods) == Built(lister, pods')
  {
    BuildIgnoresOrder(lister, pods, pods');
  }

  // ---------- Exclusivity after start-up ----------

  ghost predicate Exclusive(n: Node) {
    forall d, u, v :: d in n.devs && u in n.devs[d].pods && v in n.devs[d].pods ==> u == v
  }

  /** Two listed pods, complete or not, are assigned to one device. */
  ghost predicate Share(lister: Lister, ps: set<Pod>, p: Pod, q: Pod, name: string, d: int) {
    && p in ps && q in ps && p != q && On(p, name, d) && On(q, name, d)
    && name in lister && 0 <= d < lister[name].gpuCount
  }

  lemma NodeIsExclusiveIff(n: Node, lister: Lister, ps: set<Pod>, name: string)
    requires name in lister && NodeOf(n, lister[name], ps, name) && UniqueUids(ps)
    ensures Exclusive(n) <==> !exists p, q, d :: Share(lister, ps, p, q, name, d)
  {
    if p, q, d :| Share(lister, ps, p, q, name, d) {
      assert d in n.devs && DeviceOf(n.devs[d], ps, name, d);
      assert p.uid in n.devs[d].pods && q.uid in n.devs[d].pods && p.uid != q.uid;
    } else {
      forall d, u, v | d in n.devs && u in n.devs[d].pods && v in n.devs[d].pods ensures u == v {
        assert DeviceOf(n.devs[d], ps, name, d);
        var p, q := n.devs[d].pods[u], n.devs[d].pods[v];
        assert !Share(lister, ps, p, q, name, d);
      }
    }
  }

  /** The built cache puts at most one pod on each device if and only if no two of the listed assigned
      pods share a device; a completed pod that is still listed counts. */
  lemma BuiltIsExclusiveIff(lister: Lister, pods: seq<Pod>)
    requires UniqueUids(PodSet(pods)) && NodesListed(lister, PodSet(pods))
    ensures var nodes := Built(lister, pods).nodes;
            (forall name :: name in nodes ==> Exclusive(nodes[name]))
              <==> !exists p, q, name, d :: Share(lister, PodSet(pods), p, q, name, d)
  {
    var nodes, ps := Built(lister, pods).nodes, PodSet(pods);
    BuiltIsExact(lister, pods);
    forall name | name in nodes
      ensures Exclusive(nodes[name]) <==> !exists p, q, d :: Share(lister, ps, p, q, name, d)
    {
      NodeIsExclusiveIff(nodes[name], lister, ps, name);
    }
    forall p, q, name, d | Share(lister, ps, p, q, name, d) ensures name in nodes {
      assert NodeListed(ps, name);
    }
  }
}

/** The scheduler cache in memory (pkg/cache/cache.go). */
module SchedulerCaches {
  import opened NodeState
  import opened Codec
  import opened NodeUpdates
  import opened NodeInfos
  import opened CacheState

  /** Node infos that are valid and share no memory. */
  ghost predicate Separate(nodes: map<string, NodeInfo>) {
    && (forall name :: name in nodes ==> nodes[name].Valid())
    && (forall a, b :: a in nodes && b in nodes && a != b ==> nodes[a].repr !! nodes[b].repr)
  }

  ghost function Objects(nodes: map<string, NodeInfo>): set<object> {
    set name, o | name in nodes && o in nodes[name].repr :: o
  }

  ghost function States(nodes: map<string, NodeInfo>): map<string, Node>
    requires Separate(nodes)
    reads Objects(nodes)
  {
    map name | name in nodes :: nodes[name].State()
  }

  lemma AddSeparate(nodes: map<string, NodeInfo>, name: string, n: NodeInfo)
    requires Separate(nodes) && n.Valid() && n.repr !! Objects(nodes)
    ensures Separate(nodes[name := n])
  {
    forall a | a in nodes ensures nodes[a].repr !! n.repr {
      assert nodes[a].repr <= Objects(nodes);
    }
  }

  lemma AddState(nodes: map<string, NodeInfo>, name: string, n: NodeInfo)
    requires Separate(nodes) && n.Valid() && Separate(nodes[name := n])
    ensures States(nodes[name := n]) == States(nodes)[name := n.State()]
    ensures Objects(nodes[name := n]) <= Objects(nodes) + n.repr
  {
  }

  lemma SameStates(nodes: map<string, NodeInfo>, expected: map<string, Node>)
    requires Separate(nodes) && nodes.Keys == expected.Keys
    requires forall name :: name in nodes ==> nodes[name].State() == expected[name]
    ensures States(nodes) == expected
  {
  }

  class SchedulerCache {
    var nodes: map<string, NodeInfo>
    var knownPods: map<UID, Pod>

    ghost predicate Valid()
      reads this
    {
      Separate(nodes) && this !in Objects(nodes)
    }

    ghost function State(): Cache
      requires Valid()
      reads this, Objects(nodes)
    {
      Cache(States(nodes), knownPods)
    }

    constructor ()
      ensures Valid() && State() == EMPTY && Objects(nodes) == {}
    {
      nodes := map[];
      knownPods := map[];
    }

    /** `KnownPod` */
    predicate KnownPod(uid: UID)
      reads this
    {
      uid in knownPods
    }

    /** `GetNodeInfo` */
    method GetNodeInfo(name: string, lister: Lister) returns (r: Option<NodeInfo>)
      requires Valid() && ListerOk(lister)
      modifies this`nodes
      ensures Valid() && fresh(Objects(nodes) - old(Objects(nodes)))
      ensures r.Some? <==> name in lister
      ensures r.None? ==> nodes == old(nodes)
      ensures r.Some? ==> name in nodes && nodes[name] == r.value
      ensures State() == if name in lister then WithNode(old(State()), name, lister[name]) else old(State())
    {
      if name !in lister { return None; }
      var node := lister[name];
      if name !in nodes {
        StoreNode(name, node);
      } else if nodes[name].node.gpuCount <= 0 && node.gpuCount > 0 {
        StoreNode(name, node);
      }
      r := Some(nodes[name]);
    }

    method StoreNode(name: string, spec: NodeSpec)
      requires Valid() && Decoded(spec.topology, spec.gpuCount)
      modifies this`nodes
      ensures Valid() && fresh(Objects(nodes) - old(Objects(nodes)))
      ensures name in nodes
      ensures State() == old(State()).(nodes := old(State()).nodes[name := FreshNode(spec)])
    {
      var n := new NodeInfo(spec);
      AddSeparate(nodes, name, n);
      AddState(nodes, name, n);
      nodes := nodes[name := n];
    }
  
    /** `AddOrUpdatePod` */
    method AddOrUpdatePod(pod: Pod, lister: Lister) returns (ok: bool)
      requires Valid() && ListerOk(lister)
      modifies this, Objects(nodes)
      ensures Valid() && fresh(Objects(nodes) - old(Objects(nodes)))
      ensures State() == AddPod(old(State()), lister, pod)
      ensures ok == !AddFails(lister, pod)
    {
      if pod.nodeName == "" { return true; }
      var n := GetNodeInfo(pod.nodeName, lister);
      if n.None? { return false; }
      PutPod(pod);
      ok := true;
    }

    method PutPod(pod: Pod)
      requires Valid() && pod.nodeName in nodes
      modifies this`knownPods, nodes[pod.nodeName].repr
      ensures Valid()
      ensures State() == CacheState.PutPod(old(State()), pod)
    {
      var added := UpdateNode(pod);
      if added {
        RememberPod(pod);
      }
    }

    method RememberPod(pod: Pod)
      requires Valid()
      modifies this`knownPods
      ensures Valid() && nodes == old(nodes) && State() == CacheState.RememberPod(old(State()), pod)
    {
      knownPods := knownPods[pod.uid := pod];
    }

    method UpdateNode(pod: Pod) returns (added: bool)
      requires Valid() && pod.nodeName in nodes
      modifies nodes[pod.nodeName].repr
      ensures Valid() && added == Holds(old(State()).nodes[pod.nodeName], pod)
      ensures State() == old(State()).(nodes := old(State()).nodes[pod.nodeName :=
                           AddIds(old(State()).nodes[pod.nodeName], pod, PodIds(pod))])
    {
      var n := nodes[pod.nodeName];
      ghost var before := States(nodes);
      added := n.AddOrUpdatePod(pod);
      SameStates(nodes, before[pod.nodeName := n.State()]);
    }

    /** `RemovePod` */
    method RemovePod(pod: Pod, lister: Lister)
      requires Valid() && ListerOk(lister)
      modifies this, Objects(nodes)
      ensures Valid() && fresh(Objects(nodes) - old(Objects(nodes)))
      ensures State() == CacheState.RemovePod(old(State()), lister, pod)
    {
      var n := GetNodeInfo(pod.nodeName, lister);
      if n.Some? {
        ClearPod(pod);
      }
      ForgetPod(pod.uid);
    }

    method ForgetPod(uid: UID)
      requires Valid()
      modifies this`knownPods
      ensures Valid() && nodes == old(nodes) && State() == CacheState.ForgetPod(old(State()), uid)
    {
      knownPods := knownPods - {uid};
    }

    method ClearPod(pod: Pod)
      requires Valid() && pod.nodeName in nodes
      modifies nodes[pod.nodeName].repr
      ensures Valid()
      ensures State() == CacheState.ClearPod(old(State()), pod)
    {
      var n := nodes[pod.nodeName];
      ghost var before := States(nodes);
      n.RemovePod(pod);
      SameStates(nodes, before[pod.nodeName := n.State()]);
    }

    /** `BuildCache`; the pods and the nodes are visited in the order of the lists. */
    method BuildCache(pods: seq<Pod>, lister: Lister) returns (ok: bool)
      requires Valid() && ListerOk(lister) && State() == EMPTY
      modifies this, Objects(nodes)
      ensures Valid()
      ensures var built := BuildPods(EMPTY, lister, pods);
              ok == built.1 && State() == if ok then BuildNodes(built.0, lister, lister.Keys) else built.0
    {
      for i := 0 to |pods|
        invariant Valid() && fresh(Objects(nodes) - old(Objects(nodes)))
        invariant BuildPods(EMPTY, lister, pods[..i]) == (State(), true)
      {
        assert pods[..i + 1][..i] == pods[..i];
        var ids := GetGPUIDFromAnnotation(pods[i]);
        if |ids| > 0 && |pods[i].nodeName| != 0 {
          var added := AddOrUpdatePod(pods[i], lister);
          if !added {
            BuildStops(EMPTY, lister, pods, i + 1);
            return false;
          }
        }
      }
      assert pods[..|pods|] == pods;
      ok := true;
      AddListedNodes(lister);
    }

    lemma {:induction false} BuildStops(c: Cache, lister: Lister, pods: seq<Pod>, i: nat)
      requires i <= |pods| && !BuildPods(c, lister, pods[..i]).1
      ensures BuildPods(c, lister, pods) == BuildPods(c, lister, pods[..i])
    {
      if i < |pods| {
        var front := pods[..|pods| - 1];
        assert front[..i] == pods[..i];
        BuildStops(c, lister, front, i);
      } else {
        assert pods[..i] == pods;
      }
    }

    method AddListedNodes(lister: Lister)
      requires Valid() && ListerOk(lister)
      modifies this`nodes
      ensures Valid() && State() == BuildNodes(old(State()), lister, lister.Keys)
    {
      var todo := lister.Keys;
      ghost var before := State();
      BuildNodesNone(before, lister);
      assert lister.Keys - todo == {};
      while todo != {}
        invariant todo <= lister.Keys && Valid()
        invariant State() == BuildNodes(before, lister, lister.Keys - todo)
        decreases todo
      {
        var name :| name in todo;
        ghost var done := lister.Keys - todo;
        BuildNodesStep(before, lister, done, name);
        todo := todo - {name};
        assert lister.Keys - todo == done + {name};
        AddListedNode(name, lister);
      }
      assert lister.Keys - todo == lister.Keys;
    }

    method AddListedNode(name: string, lister: Lister)
      requires Valid() && ListerOk(lister) && name in lister
      modifies this`nodes
      ensures Valid()
      ensures State() == if NewGpuNode(old(State()), lister, name)
                         then CacheState.StoreNode(old(State()), name, lister[name]) else old(State())
    {
      if |name| != 0 && lister[name].gpuCount > 0 && name !in nodes {
        StoreNode(name, lister[name]);
      }
    }
  }
}

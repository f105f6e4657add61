/** The abstract effect of the scheduler cache's operations (pkg/cache/cache.go). */
module CacheState {
  import opened NodeState
  import opened Codec
  import opened NodeUpdates

  type Lister = map<string, NodeSpec>

  datatype Cache = Cache(nodes: map<string, Node>, known: map<UID, Pod>)

  const EMPTY := Cache(map[], map[])

  /** Listed nodes carry a decoded matrix. */
  ghost predicate ListerOk(lister: Lister) {
    forall name :: name in lister ==> Decoded(lister[name].topology, lister[name].gpuCount)
  }

  function FreshNode(spec: NodeSpec): Node {
    Node(spec, FreshDevices(spec.gpuCount), spec.topology)
  }

  /** A node is (re)built when it is new, or when it turned from a node without GPUs into one with GPUs. */
  predicate NeedsNode(c: Cache, name: string, spec: NodeSpec) {
    name !in c.nodes || (c.nodes[name].spec.gpuCount <= 0 && spec.gpuCount > 0)
  }

  /** The effect of `GetNodeInfo` for a listed node. */
  function WithNode(c: Cache, name: string, spec: NodeSpec): (r: Cache)
    ensures name in r.nodes
  {
    if NeedsNode(c, name, spec) then c.(nodes := c.nodes[name := FreshNode(spec)]) else c
  }

  predicate AddFails(lister: Lister, pod: Pod) {
    pod.nodeName != "" && pod.nodeName !in lister
  }

  /** The pod is put on its node and, if a device took it, remembered. */
  function PutPod(c: Cache, pod: Pod): Cache
    requires pod.nodeName in c.nodes
  {
    var n := c.nodes[pod.nodeName];
    Cache(c.nodes[pod.nodeName := AddIds(n, pod, PodIds(pod))],
          if Holds(n, pod) then c.known[pod.uid := pod] else c.known)
  }

  function AddPod(c: Cache, lister: Lister, pod: Pod): Cache {
    if pod.nodeName == "" || pod.nodeName !in lister then c
    else PutPod(WithNode(c, pod.nodeName, lister[pod.nodeName]), pod)
  }

  function ClearPod(c: Cache, pod: Pod): Cache
    requires pod.nodeName in c.nodes
  {
    c.(nodes := c.nodes[pod.nodeName := RemoveIds(c.nodes[pod.nodeName], pod, PodIds(pod))])
  }

  function RememberPod(c: Cache, pod: Pod): Cache {
    c.(known := c.known[pod.uid := pod])
  }

  function ForgetPod(c: Cache, uid: UID): Cache {
    c.(known := c.known - {uid})
  }

  function RemovePod(c: Cache, lister: Lister, pod: Pod): Cache {
    if pod.nodeName in lister
    then ForgetPod(ClearPod(WithNode(c, pod.nodeName, lister[pod.nodeName]), pod), pod.uid)
    else ForgetPod(c, pod.uid)
  }

  // ---------- Start-up ----------

  predicate Assigned(pod: Pod) {
    |PodIds(pod)| > 0 && pod.nodeName != ""
  }

  /** The pods of the list, in order, up to one whose node is not listed. */
  function BuildPods(c: Cache, lister: Lister, pods: seq<Pod>): (Cache, bool) {
    if pods == [] then (c, true)
    else
      var front, pod := BuildPods(c, lister, pods[..|pods| - 1]), pods[|pods| - 1];
      if !front.1 || !Assigned(pod) then front
      else if AddFails(lister, pod) then (front.0, false)
      else (AddPod(front.0, lister, pod), true)
  }

  function StoreNode(c: Cache, name: string, spec: NodeSpec): Cache {
    c.(nodes := c.nodes[name := FreshNode(spec)])
  }

  /** A node is built anew exactly if it is not cached or was cached without GPUs and has some now; nothing
      else changes. */
  lemma NodeIsRebuiltIff(c: Cache, name: string, spec: NodeSpec)
    ensures var r := WithNode(c, name, spec);
            && r.known == c.known && r.nodes.Keys == c.nodes.Keys + {name}
            && (forall other :: other in c.nodes && other != name ==> r.nodes[other] == c.nodes[other])
            && r.nodes[name] == if name in c.nodes && (c.nodes[name].spec.gpuCount > 0 || spec.gpuCount == 0)
                                then c.nodes[name] else Node(spec, FreshDevices(spec.gpuCount), spec.topology)
  {
  }

  /** A pod without a listed node changes nothing but what is known of it: adding it does nothing, and
      removing it forgets it. */
  lemma UnlistedNode(c: Cache, lister: Lister, pod: Pod)
    requires pod.nodeName !in lister || pod.nodeName == ""
    ensures AddPod(c, lister, pod) == c
    ensures pod.nodeName !in lister ==> RemovePod(c, lister, pod) == Cache(c.nodes, c.known - {pod.uid})
  {
  }

  /** The pods before the first assigned one whose node is not listed are built, and no later one. */
  lemma {:induction false} BuildStopsAt(c: Cache, lister: Lister, pods: seq<Pod>, i: nat)
    requires i < |pods| && PodIds(pods[i]) != [] && pods[i].nodeName != "" && pods[i].nodeName !in lister
    requires forall j :: 0 <= j < i && PodIds(pods[j]) != [] && pods[j].nodeName != "" ==> pods[j].nodeName in lister
    ensures BuildPods(c, lister, pods) == (BuildPods(c, lister, pods[..i]).0, false)
  {
    var front := pods[..|pods| - 1];
    if i < |front| {
      assert front[..i] == pods[..i];
      BuildStopsAt(c, lister, front, i);
    } else {
      assert front == pods[..i];
      BuildSucceeds(c, lister, front);
    }
  }

  lemma {:induction false} BuildSucceeds(c: Cache, lister: Lister, pods: seq<Pod>)
    requires forall j ::
      0 <= j < |pods| && PodIds(pods[j]) != [] && pods[j].nodeName != "" ==> pods[j].nodeName in lister
    ensures BuildPods(c, lister, pods).1
  {
    if pods != [] {
      var front := pods[..|pods| - 1];
      assert forall j :: 0 <= j < |front| ==> front[j] == pods[j];
      BuildSucceeds(c, lister, front);
    }
  }

  /** Pods without GPU ids or without a node are skipped, others on a listed node are added. */
  lemma BuildOneMore(c: Cache, lister: Lister, pods: seq<Pod>, pod: Pod)
    requires BuildPods(c, lister, pods).1 && (PodIds(pod) == [] || pod.nodeName == "" || pod.nodeName in lister)
    ensures BuildPods(c, lister, pods + [pod]).1
    ensures var before := BuildPods(c, lister, pods).0;
            BuildPods(c, lister, pods + [pod]).0
              == if PodIds(pod) == [] || pod.nodeName == "" then before else AddPod(before, lister, pod)
  {
    assert (pods + [pod])[..|pods|] == pods;
  }

  predicate NewGpuNode(c: Cache, lister: Lister, name: string) {
    name in lister && name != "" && lister[name].gpuCount > 0 && name !in c.nodes
  }

  /** Among `names`, the listed GPU nodes that no pod has brought in are added. */
  function BuildNodes(c: Cache, lister: Lister, names: set<string>): Cache {
    c.(nodes := map name | name in c.nodes.Keys + lister.Keys
                         && (name in c.nodes || (name in names && NewGpuNode(c, lister, name))) ::
                  if name in c.nodes then c.nodes[name] else FreshNode(lister[name]))
  }

  lemma BuildNodesNone(c: Cache, lister: Lister)
    ensures BuildNodes(c, lister, {}) == c
  {
    assert BuildNodes(c, lister, {}).nodes == c.nodes;
  }

  lemma BuildNodesStep(c: Cache, lister: Lister, names: set<string>, name: string)
    requires name in lister && name !in names
    ensures var before := BuildNodes(c, lister, names);
            BuildNodes(c, lister, names + {name})
              == if NewGpuNode(before, lister, name) then StoreNode(before, name, lister[name]) else before
  {
    var before, after := BuildNodes(c, lister, names), BuildNodes(c, lister, names + {name});
    if NewGpuNode(before, lister, name) {
      assert after.nodes == before.nodes[name := FreshNode(lister[name])];
    } else {
      assert after.nodes == before.nodes;
    }
  }
}

/** The abstract effect of adding and removing pods on the state of one node. */
module NodeUpdates {
  import IntSets
  import opened NodeState
  import opened Codec
  import opened Topology

  function WithPod(d: Device, pod: Pod): Device {
    Device(d.pods[pod.uid := pod], true)
  }

  /** The device becomes unused whoever else is left on it. */
  function WithoutPod(d: Device, pod: Pod): Device {
    Device(d.pods - {pod.uid}, false)
  }

  function AddId(n: Node, pod: Pod, id: int): Node {
    if id in n.devs
    then n.(devs := n.devs[id := WithPod(n.devs[id], pod)], topology := Consumed(n.topology, id))
    else n
  }

  function RemoveId(n: Node, pod: Pod, id: int): Node {
    if id in n.devs
    then n.(devs := n.devs[id := WithoutPod(n.devs[id], pod)], topology := Recovered(n.topology, id, n.spec.topology))
    else n
  }

  /** The commit of an allocation leaves the topology alone. */
  function CommitId(n: Node, pod: Pod, id: int): Node {
    if id in n.devs then n.(devs := n.devs[id := WithPod(n.devs[id], pod)]) else n
  }

  function AddIds(n: Node, pod: Pod, ids: seq<int>): Node {
    if ids == [] then n else AddId(AddIds(n, pod, ids[..|ids| - 1]), pod, ids[|ids| - 1])
  }

  function RemoveIds(n: Node, pod: Pod, ids: seq<int>): Node {
    if ids == [] then n else RemoveId(RemoveIds(n, pod, ids[..|ids| - 1]), pod, ids[|ids| - 1])
  }

  function CommitIds(n: Node, pod: Pod, ids: seq<int>): Node {
    if ids == [] then n else CommitId(CommitIds(n, pod, ids[..|ids| - 1]), pod, ids[|ids| - 1])
  }

  /** Some annotated id is a device of the node. */
  predicate Holds(n: Node, pod: Pod) {
    exists id :: id in PodIds(pod) && id in n.devs
  }

  // ---------- Closed forms ----------

  function DevsWith(n: Node, pod: Pod, ids: seq<int>): map<int, Device> {
    map i | i in n.devs :: if i in ids then WithPod(n.devs[i], pod) else n.devs[i]
  }

  function DevsWithout(n: Node, pod: Pod, ids: seq<int>): map<int, Device> {
    map i | i in n.devs :: if i in ids then WithoutPod(n.devs[i], pod) else n.devs[i]
  }

  /** The pair touches one of the node's devices listed in ids. */
  predicate Touches(n: Node, ids: seq<int>, p: (int, int)) {
    (p.0 in n.devs && p.0 in ids) || (p.1 in n.devs && p.1 in ids)
  }

  function Zeroed(n: Node, ids: seq<int>): Matrix {
    map p | p in n.topology :: if Touches(n, ids, p) then 0 else n.topology[p]
  }

  function Restored(n: Node, ids: seq<int>): Matrix
    requires n.topology.Keys == n.spec.topology.Keys
  {
    map p | p in n.topology :: if Touches(n, ids, p) then n.spec.topology[p] else n.topology[p]
  }

  lemma TwiceIsOnce(d: Device, pod: Pod)
    ensures WithPod(WithPod(d, pod), pod) == WithPod(d, pod)
    ensures WithoutPod(WithoutPod(d, pod), pod) == WithoutPod(d, pod)
  {
    assert d.pods - {pod.uid} - {pod.uid} == d.pods - {pod.uid};
  }

  lemma {:induction false} AddIdsClosed(n: Node, pod: Pod, ids: seq<int>)
    ensures AddIds(n, pod, ids) == Node(n.spec, DevsWith(n, pod, ids), Zeroed(n, ids))
  {
    if ids == [] {
      IntSets.SameMap(DevsWith(n, pod, ids), n.devs);
      assert Zeroed(n, ids) == n.topology;
    } else {
      var front, id := ids[..|ids| - 1], ids[|ids| - 1];
      AddIdsClosed(n, pod, front);
      assert ids == front + [id];
      if id in n.devs { TwiceIsOnce(n.devs[id], pod); }
      var m := AddIds(n, pod, front);
      var r := AddId(m, pod, id);
      IntSets.SameMap(r.devs, DevsWith(n, pod, ids));
      assert r.topology == Zeroed(n, ids);
    }
  }

  lemma {:induction false} RemoveIdsClosed(n: Node, pod: Pod, ids: seq<int>)
    requires n.topology.Keys == n.spec.topology.Keys
    ensures RemoveIds(n, pod, ids) == Node(n.spec, DevsWithout(n, pod, ids), Restored(n, ids))
  {
    if ids == [] {
      IntSets.SameMap(DevsWithout(n, pod, ids), n.devs);
      assert Restored(n, ids) == n.topology;
    } else {
      var front, id := ids[..|ids| - 1], ids[|ids| - 1];
      RemoveIdsClosed(n, pod, front);
      assert ids == front + [id];
      if id in n.devs { TwiceIsOnce(n.devs[id], pod); }
      var m := RemoveIds(n, pod, front);
      var r := RemoveId(m, pod, id);
      assert m.topology.Keys == n.spec.topology.Keys;
      IntSets.SameMap(r.devs, DevsWithout(n, pod, ids));
      assert r.topology == Restored(n, ids);
    }
  }

  lemma {:induction false} CommitIdsClosed(n: Node, pod: Pod, ids: seq<int>)
    ensures CommitIds(n, pod, ids) == Node(n.spec, DevsWith(n, pod, ids), n.topology)
  {
    if ids == [] {
      IntSets.SameMap(DevsWith(n, pod, ids), n.devs);
    } else {
      var front, id := ids[..|ids| - 1], ids[|ids| - 1];
      CommitIdsClosed(n, pod, front);
      assert ids == front + [id];
      if id in n.devs { TwiceIsOnce(n.devs[id], pod); }
      IntSets.SameMap(CommitId(CommitIds(n, pod, front), pod, id).devs, DevsWith(n, pod, ids));
    }
  }
}

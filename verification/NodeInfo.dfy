/** Devices and nodes in memory (pkg/types/deviceinfo.go, pkg/types/nodeinfo.go). */
module NodeInfos {
  import IntSets
  import opened NodeState
  import opened Codec
  import opened Topology
  import opened NodeUpdates

  class DeviceInfo {
    const idx: int
    var podMap: map<UID, Pod>
    var isUsed: bool

    constructor (index: int)
      ensures idx == index && State() == Device(map[], false)
    {
      idx := index;
      podMap := map[];
      isUsed := false;
    }

    function State(): Device
      reads this
    {
      Device(podMap, isUsed)
    }

    method AddPod(pod: Pod)
      modifies this
      ensures State() == WithPod(old(State()), pod)
    {
      podMap := podMap[pod.uid := pod];
      isUsed := true;
    }

    method RemovePod(pod: Pod)
      modifies this
      ensures State() == WithoutPod(old(State()), pod)
    {
      podMap := podMap - {pod.uid};
      isUsed := false;
    }
  }

  class NodeInfo {
    const node: NodeSpec
    const devs: map<int, DeviceInfo>
    const gpuCount: nat
    const gpuTopology: array2<int>
    ghost const repr: set<object>

    /** The fields that never change after construction fit together. */
    ghost predicate Valid() {
      && gpuCount == node.gpuCount
      && (forall id :: id in devs <==> 0 <= id < gpuCount)
      && (forall id :: id in devs ==> devs[id].idx == id)
      && Decoded(node.topology, node.gpuCount)
      && SquareArray(gpuTopology) && gpuTopology.Length0 == Rows(node.topology, gpuCount)
      && gpuTopology in repr && (forall id :: id in devs ==> devs[id] in repr)
    }

    function State(): Node
      requires Valid()
      reads repr
    {
      Node(node, map id | id in devs :: devs[id].State(), MatrixOf(gpuTopology))
    }

    /** `NewNodeInfo` */
    constructor (spec: NodeSpec)
      requires Decoded(spec.topology, spec.gpuCount)
      ensures Valid() && fresh(repr) && node == spec
      ensures State() == Node(spec, FreshDevices(spec.gpuCount), spec.topology)
    {
      var devMap: map<int, DeviceInfo> := map[];
      ghost var objects: set<object> := {};
      for i := 0 to spec.gpuCount
        invariant fresh(objects)
        invariant forall id :: id in devMap <==> 0 <= id < i
        invariant forall id :: id in devMap ==>
          devMap[id].idx == id && devMap[id] in objects && devMap[id].State() == Device(map[], false)
      {
        var d := new DeviceInfo(i);
        devMap := devMap[i := d];
        objects := objects + {d};
      }
      var topology := OriginTopology(spec);
      node := spec;
      devs := devMap;
      gpuCount := spec.gpuCount;
      gpuTopology := topology;
      repr := objects + {topology};
      new;
      IntSets.SameMap(State().devs, FreshDevices(spec.gpuCount));
    }

    lemma StateIsWellFormed()
      requires Valid()
      ensures WellFormed(State())
    {
      MatrixIsSquare(gpuTopology);
    }

    method AddDevice(pod: Pod, id: int)
      requires Valid() && id in devs
      modifies repr
      ensures State() == CommitId(old(State()), pod, id)
    {
      var dev := devs[id];
      dev.AddPod(pod);
      assert forall i :: i in devs && i != id ==> devs[i].idx != dev.idx;
      assert State().devs == CommitId(old(State()), pod, id).devs;
    }

    method AddOne(pod: Pod, id: int)
      requires Valid() && id in devs
      modifies repr
      ensures State() == AddId(old(State()), pod, id)
    {
      AddDevice(pod, id);
      ConsumeId(gpuTopology, id);
    }

    /** `AddOrUpdatePod` */
    method AddOrUpdatePod(pod: Pod) returns (added: bool)
      requires Valid()
      modifies repr
      ensures State() == AddIds(old(State()), pod, PodIds(pod))
      ensures added == Holds(old(State()), pod)
    {
      var ids := GetGPUIDFromAnnotation(pod);
      added := false;
      if |ids| > 0 {
        for i := 0 to |ids|
          invariant State() == AddIds(old(State()), pod, ids[..i])
          invariant added <==> exists id :: id in ids[..i] && id in devs
        {
          assert ids[..i + 1][..i] == ids[..i];
          if ids[i] in devs {
            AddOne(pod, ids[i]);
            added := true;
          }
        }
        assert ids[..|ids|] == ids;
      }
      assert old(State()).devs.Keys == devs.Keys;
    }

    /** `RemovePod` */
    method RemovePod(pod: Pod)
      requires Valid()
      modifies repr
      ensures State() == RemoveIds(old(State()), pod, PodIds(pod))
    {
      var ids := GetGPUIDFromAnnotation(pod);
      var originTopology := OriginTopology(node);
      for i := 0 to |ids|
        invariant MatrixOf(originTopology) == node.topology
        invariant State() == RemoveIds(old(State()), pod, ids[..i])
      {
        assert ids[..i + 1][..i] == ids[..i];
        var id := ids[i];
        if id >= 0 && id in devs {
          RemoveOne(pod, id, originTopology);
        }
      }
      assert ids[..|ids|] == ids;
    }

    method RemoveOne(pod: Pod, id: int, originTopology: array2<int>)
      requires Valid() && id in devs && originTopology !in repr
      requires SquareArray(originTopology) && MatrixOf(originTopology) == node.topology
      modifies repr
      ensures State() == RemoveId(old(State()), pod, id)
    {
      RemoveDevice(pod, id);
      RecoveryId(gpuTopology, id, originTopology);
    }

    method RemoveDevice(pod: Pod, id: int)
      requires Valid() && id in devs
      modifies repr
      ensures State() == old(State()).(devs := old(State()).devs[id := WithoutPod(old(State()).devs[id], pod)])
    {
      var dev := devs[id];
      dev.RemovePod(pod);
      assert forall i :: i in devs && i != id ==> devs[i].idx != dev.idx;
      assert State().devs == old(State()).devs[id := WithoutPod(old(State()).devs[id], pod)];
    }
  }
}

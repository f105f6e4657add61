/** Values of the node state that the policies read: pods, devices, link matrix. */
module NodeState {
  import IntSets

  type UID = string

  /** The parts of a pod that matter here; `group` is the annotation that lists GPU ids, if present. */
  datatype Option<T> = None | Some(value: T)

  datatype Pod = Pod(uid: UID, key: string, nodeName: string, group: Option<string>, request: nat, complete: bool)

  datatype Device = Device(pods: map<UID, Pod>, isUsed: bool)

  /** Link types by pair of GPU indices. */
  type Matrix = map<(int, int), int>

  /** A node object of the API server with its decoded topology annotation. */
  datatype NodeSpec = NodeSpec(name: string, gpuCount: nat, topology: Matrix)

  datatype Node = Node(spec: NodeSpec, devs: map<int, Device>, topology: Matrix)

  predicate Used(n: Node, id: int) {
    id in n.devs && n.devs[id].isUsed
  }

  function FreeIds(n: Node): set<int> {
    set id | id in n.devs && !n.devs[id].isUsed
  }

  function UsedIds(n: Node): set<int> {
    set id | id in n.devs && n.devs[id].isUsed
  }

  function Link(m: Matrix, i: int, j: int): int {
    if (i, j) in m then m[(i, j)] else 0
  }

  ghost predicate Symmetric(m: Matrix) {
    forall i, j :: Link(m, i, j) == Link(m, j, i)
  }

  ghost predicate Square(m: Matrix, n: nat) {
    forall i, j :: (i, j) in m <==> 0 <= i < n && 0 <= j < n
  }

  /** The number of rows of a decoded matrix: it is empty when the annotation is missing. */
  function Rows(m: Matrix, gpuCount: nat): nat {
    if (0, 0) in m then gpuCount else 0
  }

  /** What decoding the topology annotation of a node yields. */
  ghost predicate Decoded(m: Matrix, gpuCount: nat) {
    Square(m, Rows(m, gpuCount))
  }

  lemma DecodedIff(m: Matrix, gpuCount: nat)
    ensures Decoded(m, gpuCount) <==> Square(m, gpuCount) || Square(m, 0)
  {
    assert Square(m, 0) ==> (0, 0) !in m;
    assert Square(m, gpuCount) ==> ((0, 0) in m <==> gpuCount > 0);
  }

  /** Devices are keyed 0..gpuCount-1 and both matrices are decoded ones. */
  ghost predicate WellFormed(n: Node) {
    && (forall id :: id in n.devs <==> 0 <= id < n.spec.gpuCount)
    && Decoded(n.topology, n.spec.gpuCount) && Decoded(n.spec.topology, n.spec.gpuCount)
  }

  /** The devices of a node before any pod: unused, keyed 0..count-1. */
  function FreshDevices(count: nat): (devs: map<int, Device>)
    ensures forall id :: id in devs <==> 0 <= id < count
    ensures forall id :: id in devs ==> devs[id] == Device(map[], false)
  {
    if count == 0 then map[] else FreshDevices(count - 1)[count - 1 := Device(map[], false)]
  }

  /** used + available = gpuCount */
  lemma FreeAndUsed(n: Node)
    requires WellFormed(n)
    ensures |FreeIds(n)| + |UsedIds(n)| == n.spec.gpuCount == |n.devs|
  {
    IntSets.RangeCount(n.devs.Keys, n.spec.gpuCount);
    assert FreeIds(n) + UsedIds(n) == n.devs.Keys;
    assert FreeIds(n) !! UsedIds(n);
  }
}

/** What adding, committing and removing pods keeps on one node. */
module NodeTheory {
  import IntSets
  import opened NodeState
  import opened Codec
  import opened Topology
  import opened NodeUpdates
  import opened GpuPartitions
  import opened Scores
  import opened BestEffort

  // ---------- The mutated matrix ----------

  /** The matrix equals the original one at every pair of unused devices. */
  ghost predicate TopologyAgrees(n: Node) {
    && n.topology.Keys == n.spec.topology.Keys
    && forall p :: p in n.topology && !Used(n, p.0) && !Used(n, p.1) ==> n.topology[p] == n.spec.topology[p]
  }

  /** Whatever pods are added, committed or removed, in whatever order and however often. */
  lemma TopologyAgreementIsKept(n: Node, pod: Pod, ids: seq<int>)
    requires TopologyAgrees(n)
    ensures TopologyAgrees(AddIds(n, pod, ids))
    ensures TopologyAgrees(CommitIds(n, pod, ids))
    ensures TopologyAgrees(RemoveIds(n, pod, ids))
  {
    TopologyAfterAdd(n, pod, ids);
    CommitIdsClosed(n, pod, ids);
    UsedAfter(n, pod, ids);
    TopologyAfterRemove(n, pod, ids);
  }

  /** Which devices are used afterwards. */
  lemma UsedAfter(n: Node, pod: Pod, ids: seq<int>)
    ensures n.topology.Keys == n.spec.topology.Keys ==>
              forall d :: Used(RemoveIds(n, pod, ids), d) <==> Used(n, d) && d !in ids
    ensures forall d :: Used(CommitIds(n, pod, ids), d) <==> Used(n, d) || (d in n.devs && d in ids)
    ensures forall d :: Used(AddIds(n, pod, ids), d) <==> Used(n, d) || (d in n.devs && d in ids)
  {
    if n.topology.Keys == n.spec.topology.Keys { RemoveIdsClosed(n, pod, ids); }
    CommitIdsClosed(n, pod, ids);
    AddIdsClosed(n, pod, ids);
  }

  lemma TopologyAfterAdd(n: Node, pod: Pod, ids: seq<int>)
    requires TopologyAgrees(n)
    ensures TopologyAgrees(AddIds(n, pod, ids))
  {
    AddIdsClosed(n, pod, ids);
    UsedAfter(n, pod, ids);
  }

  lemma TopologyAfterRemove(n: Node, pod: Pod, ids: seq<int>)
    requires TopologyAgrees(n)
    ensures TopologyAgrees(RemoveIds(n, pod, ids))
  {
    var r := RemoveIds(n, pod, ids);
    RemoveIdsClosed(n, pod, ids);
    UsedAfter(n, pod, ids);
    forall p | p in r.topology && !Used(r, p.0) && !Used(r, p.1) ensures r.topology[p] == r.spec.topology[p] {
      if !Touches(n, ids, p) {
        assert !Used(n, p.0) || p.0 in ids;
        assert Used(n, p.0) ==> p.0 in n.devs;
        assert Used(n, p.1) ==> p.1 in n.devs;
      }
    }
  }

  /** Both matrices are symmetric and of one size. */
  ghost predicate SymmetricNode(n: Node) {
    n.topology.Keys == n.spec.topology.Keys && Symmetric(n.topology) && Symmetric(n.spec.topology)
  }

  /** Symmetric matrices stay symmetric, so the statements about symmetric matrices hold for a node
      after any additions, commits and removals. */
  lemma SymmetryIsKept(n: Node, pod: Pod, ids: seq<int>)
    requires SymmetricNode(n)
    ensures SymmetricNode(AddIds(n, pod, ids)) && SymmetricNode(CommitIds(n, pod, ids))
    ensures SymmetricNode(RemoveIds(n, pod, ids))
  {
    AddIdsClosed(n, pod, ids);
    CommitIdsClosed(n, pod, ids);
    RemoveIdsClosed(n, pod, ids);
    SymmetricUpdates(n, ids);
  }

  lemma SymmetricUpdates(n: Node, ids: seq<int>)
    requires SymmetricNode(n)
    ensures Symmetric(Zeroed(n, ids)) && Symmetric(Restored(n, ids))
  {
    forall i, j
      ensures Link(Zeroed(n, ids), i, j) == Link(Zeroed(n, ids), j, i)
      ensures Link(Restored(n, ids), i, j) == Link(Restored(n, ids), j, i)
    {
      assert Link(n.topology, i, j) == Link(n.topology, j, i);
      assert Link(n.spec.topology, i, j) == Link(n.spec.topology, j, i);
      assert Touches(n, ids, (i, j)) <==> Touches(n, ids, (j, i));
    }
  }

  /** The node as the API server describes it, with the same devices. */
  function Untouched(n: Node): Node {
    n.(topology := n.spec.topology)
  }

  lemma PairScoreIsOriginal(n: Node, a: int, b: int)
    requires TopologyAgrees(n)
    ensures PairScore(n, a, b) == PairScore(Untouched(n), a, b)
  {
    if !Used(n, a) && !Used(n, b) {
      assert (a, b) in n.topology <==> (a, b) in n.spec.topology;
      assert (a, b) in n.topology ==> n.topology[(a, b)] == n.spec.topology[(a, b)];
    }
  }

  lemma {:induction false} RowScoreIsOriginal(n: Node, x: int, s: seq<int>)
    requires TopologyAgrees(n)
    ensures RowScore(n, x, s) == RowScore(Untouched(n), x, s)
  {
    if s != [] {
      PairScoreIsOriginal(n, x, s[0]);
      RowScoreIsOriginal(n, x, s[1..]);
    }
  }

  lemma {:induction false} SetScoreIsOriginal(n: Node, s: seq<int>)
    requires TopologyAgrees(n)
    ensures SetScore(n, s) == SetScore(Untouched(n), s)
  {
    if s != [] {
      RowScoreIsOriginal(n, s[0], s[1..]);
      SetScoreIsOriginal(n, s[1..]);
    }
  }

  lemma {:induction false} PartitionScoreIsOriginal(n: Node, p: Partition)
    requires TopologyAgrees(n)
    ensures PartitionScore(n, p) == PartitionScore(Untouched(n), p)
  {
    if p != [] {
      PartitionScoreIsOriginal(n, p[..|p| - 1]);
      SetScoreIsOriginal(n, p[|p| - 1]);
    }
  }

  lemma {:induction false} BestIsOriginal(n: Node, candidates: seq<Partition>)
    requires TopologyAgrees(n)
    ensures Best(n, candidates) == Best(Untouched(n), candidates)
  {
    if candidates != [] {
      BestIsOriginal(n, candidates[..|candidates| - 1]);
      PartitionScoreIsOriginal(n, candidates[|candidates| - 1]);
    }
  }

  lemma {:induction false} BestBlockIsOriginal(n: Node, p: Partition)
    requires TopologyAgrees(n) && p != []
    ensures BestBlock(n, p) == BestBlock(Untouched(n), p)
  {
    SetScoreIsOriginal(n, p[|p| - 1]);
    if |p| > 1 { BestBlockIsOriginal(n, p[..|p| - 1]); }
  }

  /** Zeroing and restoring rows never changes what the best-effort policy selects or how it scores it. */
  lemma SelectionIsOriginal(n: Node, devices: seq<int>, req: int)
    requires TopologyAgrees(n)
    ensures Selection(n, devices, req) == Selection(Untouched(n), devices, req)
  {
    if 1 <= req <= |devices| {
      BestIsOriginal(n, Candidates(devices, req));
      var kept := Best(n, Candidates(devices, req)).0;
      if kept != [] { BestBlockIsOriginal(n, kept); }
    }
  }

  // ---------- The used flag ----------

  /** A device is marked used exactly if some pod is on it. */
  ghost predicate UsedAgrees(n: Node) {
    forall d :: d in n.devs ==> (n.devs[d].isUsed <==> n.devs[d].pods != map[])
  }

  /** No pod other than this one is on any of the listed devices. */
  ghost predicate OnlyHolder(n: Node, pod: Pod, ids: seq<int>) {
    forall d, uid :: d in n.devs && d in ids && uid in n.devs[d].pods ==> uid == pod.uid
  }

  /** Adding and committing keep the agreement. */
  lemma UsedAgreementIsKept(n: Node, pod: Pod, ids: seq<int>)
    requires UsedAgrees(n)
    ensures UsedAgrees(AddIds(n, pod, ids)) && UsedAgrees(CommitIds(n, pod, ids))
  {
    AddIdsClosed(n, pod, ids);
    CommitIdsClosed(n, pod, ids);
    forall d | d in n.devs && d in ids ensures WithPod(n.devs[d], pod).pods != map[] {
      assert pod.uid in WithPod(n.devs[d], pod).pods;
    }
  }

  /** Removing a pod keeps the agreement if and only if it is the only holder of its devices. */
  lemma RemovalKeepsAgreementIff(n: Node, pod: Pod, ids: seq<int>)
    requires UsedAgrees(n) && n.topology.Keys == n.spec.topology.Keys
    ensures UsedAgrees(RemoveIds(n, pod, ids)) <==> OnlyHolder(n, pod, ids)
  {
    RemoveIdsClosed(n, pod, ids);
    var r := RemoveIds(n, pod, ids);
    if OnlyHolder(n, pod, ids) {
      forall d | d in r.devs ensures r.devs[d].isUsed <==> r.devs[d].pods != map[] {
        if d in ids {
          assert forall uid :: uid in n.devs[d].pods ==> uid == pod.uid;
          assert (n.devs[d].pods - {pod.uid}).Keys == {};
        }
      }
    } else {
      var d, uid :| d in n.devs && d in ids && uid in n.devs[d].pods && uid != pod.uid;
      assert uid in r.devs[d].pods && !r.devs[d].isUsed;
    }
  }

  /** A node with one GPU. */
  const ONE_GPU := Node(NodeSpec("node", 1, map[(0, 0) := 0]), FreshDevices(1), map[(0, 0) := 0])

  // ---------- What an allocation moves ----------

  /** Committing ids of devices adds exactly them to the used ones. */
  lemma CommitMarks(n: Node, pod: Pod, ids: seq<int>)
    requires Reals(ids) <= n.devs.Keys && PADDING !in n.devs
    ensures FreeIds(CommitIds(n, pod, ids)) == FreeIds(n) - Reals(ids)
    ensures UsedIds(CommitIds(n, pod, ids)) == UsedIds(n) + Reals(ids)
  {
    var r := CommitIds(n, pod, ids);
    CommitIdsClosed(n, pod, ids);
    forall d ensures d in FreeIds(r) <==> d in FreeIds(n) - Reals(ids) {
      assert d in r.devs ==> (d in ids <==> d in Reals(ids));
    }
    IntSets.SameElements(FreeIds(r), FreeIds(n) - Reals(ids));
    forall d ensures d in UsedIds(r) <==> d in UsedIds(n) + Reals(ids) {
      assert d in Reals(ids) ==> d in n.devs.Keys;
    }
    IntSets.SameElements(UsedIds(r), UsedIds(n) + Reals(ids));
  }

  /** Committing distinct free ids moves exactly them from free to used. */
  lemma CommitMoves(n: Node, pod: Pod, ids: seq<int>)
    requires NoRepeat(ids) && Reals(ids) <= FreeIds(n) && PADDING !in n.devs
    ensures FreeIds(CommitIds(n, pod, ids)) == FreeIds(n) - Reals(ids)
    ensures UsedIds(CommitIds(n, pod, ids)) == UsedIds(n) + Reals(ids)
    ensures |FreeIds(CommitIds(n, pod, ids))| == |FreeIds(n)| - (|ids| - CountPadding(ids))
  {
    assert forall d :: d in Reals(ids) ==> d in FreeIds(n) && d in n.devs;
    CommitMarks(n, pod, ids);
    BlockSize(ids);
  }

  /** The ids are distinct free devices, possibly with padding, and at least one is real. */
  ghost predicate Allocatable(n: Node, ids: seq<int>) {
    && NoRepeat(ids) && Reals(ids) <= FreeIds(n) && (exists id :: id in Reals(ids))
    && forall i :: 0 <= i < |ids| ==> -1 <= ids[i] < INT_LIMIT
  }

  /** Removing an allocated pod gives its devices back if and only if the allocation contains no
      padding; otherwise its annotation reads as no GPUs and the removal changes nothing. */
  lemma GivenBackIff(n: Node, pod: Pod, ids: seq<int>)
    requires Allocatable(n, ids) && n.topology.Keys == n.spec.topology.Keys
    ensures var p := Annotated(pod, ids);
            var held := CommitIds(n, p, ids);
            && (FreeIds(RemoveIds(held, p, PodIds(p))) == FreeIds(n) <==> PADDING !in ids)
            && (PADDING in ids ==> RemoveIds(held, p, PodIds(p)) == held)
  {
    var p := Annotated(pod, ids);
    AllocationRoundTrip(ids);
    CommitIdsClosed(n, p, ids);
    if PADDING in ids {
      var id :| id in Reals(ids);
      assert id in FreeIds(n) && id !in FreeIds(CommitIds(n, p, ids));
    } else {
      FreeAgain(n, p, ids);
    }
  }

  lemma FreeAgain(n: Node, p: Pod, ids: seq<int>)
    requires Reals(ids) <= FreeIds(n) && n.topology.Keys == n.spec.topology.Keys && PADDING !in ids
    ensures FreeIds(RemoveIds(CommitIds(n, p, ids), p, ids)) == FreeIds(n)
  {
    var r := RemoveIds(CommitIds(n, p, ids), p, ids);
    CommitIdsClosed(n, p, ids);
    RemoveIdsClosed(CommitIds(n, p, ids), p, ids);
    forall d ensures d in FreeIds(r) <==> d in FreeIds(n) {
      assert d in ids ==> d in Reals(ids);
    }
    IntSets.SameElements(FreeIds(r), FreeIds(n));
  }

  // ---------- Link abbreviations ----------

  /** The abbreviation table numbers the PCIe links opposite to the nvml binding: among them a
      farther connection scores more. Any NVLink scores more than all of them. */
  lemma FartherPcieLinksScoreMore(i: nat, j: nat, nvlink: nat)
    requires i < j < 6 <= nvlink < 12
    ensures LinkScore(AbbrLink(LINKS[i])) < LinkScore(AbbrLink(LINKS[j])) < LinkScore(AbbrLink(LINKS[nvlink]))
  {
  }
}

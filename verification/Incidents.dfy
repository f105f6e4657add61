/** Runs of the transition system that lead to what one would not expect of it. */
module Incidents {
  import opened NodeState
  import opened Codec
  import opened NodeUpdates
  import opened NodeTheory
  import opened CacheState
  import opened GpuPartitions
  import opened Allocation
  import opened StartUp
  import opened Cluster
  import opened Runs
  import PaddedSelection
  import BestEffort

  ghost predicate Reachable(s: State) {
    exists start :: Initial(start) && Leads(start, s)
  }

  lemma ReachableKeepsInv(s: State)
    requires Reachable(s)
    ensures Inv(s)
  {
    var start :| Initial(start) && Leads(start, s);
    var ss: seq<State>, es: seq<Event> :| IsPath(ss, es) && ss[0] == start && ss[|es|] == s;
    RunKeepsInv(ss, es, |es|);
  }

  lemma InitialIsReachable(s: State)
    requires Initial(s)
    ensures Reachable(s)
  {
    assert IsPath([s], []);
  }

  lemma LeadsReachable(s: State, s': State)
    requires Reachable(s) && Leads(s, s')
    ensures Reachable(s')
  {
    var start :| Initial(start) && Leads(start, s);
    LeadsTransitive(start, s, s');
  }

  lemma NextIsReachable(s: State, e: Event)
    requires Reachable(s) && Enabled(s, e)
    ensures Reachable(Next(s, e))
  {
    var start :| Initial(start) && Leads(start, s);
    LeadsOn(start, s, e);
  }

  // ---------- Undisturbed allocations ----------

  /** The state between bind and commit of an allocation that is not disturbed before. */
  function BoundState(s: State, uid: UID, name: string, ids: seq<int>): State
    requires uid in s.pods && name in s.lister
  {
    var pod := Annotated(s.pods[uid], ids);
    s.(pods := s.pods[uid := pod.(nodeName := name)], cache := WithNode(s.cache, name, s.lister[name]),
       claims := s.claims[uid := Claim(name, ids)], pending := Some(Pending(pod, name, ids, Bound)))
  }

  /** The state after an allocation that is not disturbed between its steps. */
  function AllocatedState(s: State, uid: UID, name: string, ids: seq<int>): State
    requires uid in s.pods && name in s.lister
  {
    var pod, b := Annotated(s.pods[uid], ids), BoundState(s, uid, name, ids);
    b.(cache := b.cache.(nodes := b.cache.nodes[name := CommitIds(b.cache.nodes[name], pod, ids)]),
       held := s.held + {uid}, pending := None)
  }

  lemma PodIsUnderItsUid(s: State, uid: UID)
    requires Reachable(s) && uid in s.pods
    ensures s.pods[uid].uid == uid
  {
    ReachableKeepsInv(s);
  }

  lemma BoundLeads(s: State, uid: UID, name: string, ids: seq<int>)
    requires Enabled(s, Choose(uid, name, ids)) && s.pods[uid].uid == uid
    ensures Leads(s, BoundState(s, uid, name, ids))
  {
    var pod, cache := Annotated(s.pods[uid], ids), WithNode(s.cache, name, s.lister[name]);
    LeadsStep(s, Choose(uid, name, ids));
    var s1 := s.(cache := cache, pending := Some(Pending(pod, name, ids, Picked)));
    LeadsOn(s, s1, Annotate);
    var s2 := s1.(pods := s.pods[uid := pod], pending := Some(Pending(pod, name, ids, Written)));
    LeadsOn(s, s2, Bind);
    assert s2.pods[uid := pod.(nodeName := name)] == s.pods[uid := pod.(nodeName := name)];
  }

  lemma AllocatedLeads(s: State, uid: UID, name: string, ids: seq<int>)
    requires Enabled(s, Choose(uid, name, ids)) && s.pods[uid].uid == uid
    ensures Leads(s, AllocatedState(s, uid, name, ids))
  {
    BoundLeads(s, uid, name, ids);
    LeadsOn(s, BoundState(s, uid, name, ids), Commit);
  }

  lemma AllocatedIsReachable(s: State, uid: UID, name: string, ids: seq<int>)
    requires Reachable(s) && Enabled(s, Choose(uid, name, ids))
    ensures Reachable(AllocatedState(s, uid, name, ids)) && s.pods[uid].uid == uid
  {
    PodIsUnderItsUid(s, uid);
    AllocatedLeads(s, uid, name, ids);
    LeadsReachable(s, AllocatedState(s, uid, name, ids));
  }

  /** A successful allocation that nothing disturbs is a run from the choice to the commit, with the effect
      that the program has on the node and on the pod. */
  lemma AllocateIsRun(s: State, runner: Runner, uid: UID, name: string, r: Result)
    requires Inv(s) && RunnerOk(runner) && s.pending.None?
    requires uid in s.pods && s.pods[uid].nodeName == "" && name in s.lister
    requires r.Allocated?
    requires AllocateResult(WithNode(s.cache, name, s.lister[name]).nodes[name], runner, s.pods[uid], Updated, true, r)
    ensures var n, s' := WithNode(s.cache, name, s.lister[name]).nodes[name], AllocatedState(s, uid, name, r.ids);
            && Leads(s, s') && s'.pending.None? && uid in s'.held
            && s'.cache.nodes == WithNode(s.cache, name, s.lister[name]).nodes[name := CommitIds(n, r.pod, r.ids)]
            && s'.pods == s.pods[uid := r.pod.(nodeName := name)]
  {
    var n := WithNode(s.cache, name, s.lister[name]).nodes[name];
    AllocatedPod(n, runner, s.pods[uid], Updated, true, r);
    PolicyChoiceIsAllowed(s, runner, uid, name, r.ids);
    AllocatedLeads(s, uid, name, r.ids);
  }

  /** An allocation that fails after its choice is a run that leaves at most the annotation behind, and the
      node info it was given. */
  lemma FailedAllocateIsRun(s: State, uid: UID, name: string, ids: seq<int>, written: bool) returns (s': State)
    requires Inv(s) && Enabled(s, Choose(uid, name, ids))
    ensures Leads(s, s') && s'.pending.None? && s'.claims == s.claims && s'.held == s.held && s'.lister == s.lister
    ensures s'.cache == WithNode(s.cache, name, s.lister[name])
    ensures s'.pods == if written then s.pods[uid := Annotated(s.pods[uid], ids)] else s.pods
  {
    LeadsStep(s, Choose(uid, name, ids));
    var chosen := Next(s, Choose(uid, name, ids));
    if written {
      LeadsOn(s, chosen, Annotate);
      LeadsOn(s, Next(chosen, Annotate), Abort);
      s' := Next(Next(chosen, Annotate), Abort);
    } else {
      LeadsOn(s, chosen, Abort);
      s' := Next(chosen, Abort);
    }
  }

  // ---------- Two pods on one device ----------

  lemma LongerThanAll(uids: set<UID>) returns (w: UID)
    ensures forall u :: u in uids ==> |u| < |w|
  {
    if uids == {} {
      w := "";
    } else {
      var u :| u in uids;
      var rest := LongerThanAll(uids - {u});
      w := if |u| < |rest| then rest else u + "+";
      assert forall v :: v in uids ==> v == u || v in uids - {u};
    }
  }

  /** The device that the unguarded removal frees although another pod is on it. */
  lemma FreedDevice(s: State, u: UID) returns (name: string, d: int, v: UID)
    requires CacheInv(s) && u in s.pods && !RemovalGuard(s, u)
    ensures var r := Removed(s, u);
            && name in r.cache.nodes && name in r.lister && r.cache.nodes[name].spec.gpuCount > 0
            && d in FreeIds(r.cache.nodes[name]) && d != PADDING
            && Occupies(r.cache.nodes, name, d, v) && v in s.pods
  {
    var pod := s.pods[u];
    name := pod.nodeName;
    SyncNodes(s, u);
    var n := s.cache.nodes[name];
    d, v :| d in n.devs && d in PodIds(pod) && v in n.devs[d].pods && v != pod.uid;
    RemoveIdsClosed(n, pod, PodIds(pod));
    assert Holding(s.claims, Holders(s), v, name, d);
  }

  lemma FreeDeviceMayBeChosen(s: State, uid: UID, name: string, d: int)
    requires s.pending.None? && uid in s.pods && s.pods[uid].nodeName == "" && s.pods[uid].request == 1
    requires name in s.lister && name in s.cache.nodes && s.cache.nodes[name].spec.gpuCount > 0
    requires d in FreeIds(s.cache.nodes[name]) && d != PADDING
    ensures Enabled(s, Choose(uid, name, [d])) && WithNode(s.cache, name, s.lister[name]) == s.cache
  {
    assert d in Reals([d]);
  }

  /** An unguarded removal is followed by a run that puts a new pod on a device that another pod is on. */
  lemma UnguardedLeadsToSharing(s: State, u: UID) returns (s': State)
    requires Inv(s) && s.pending.None? && u in s.pods && !RemovalGuard(s, u)
    ensures Leads(Removed(s, u), s') && Shared(s')
  {
    var r := Removed(s, u);
    var name, d, v := FreedDevice(s, u);
    var w := LongerThanAll(s.pods.Keys);
    assert w !in s.pods && v != w;
    var pod := Pod(w, "default/" + w, "", None, 1, false);
    LeadsStep(r, CreatePod(pod));
    var s1 := r.(pods := r.pods[w := pod]);
    FreeDeviceMayBeChosen(s1, w, name, d);
    AllocatedLeads(s1, w, name, [d]);
    s' := AllocatedState(s1, w, name, [d]);
    LeadsTransitive(r, s1, s');
    CommitIdsClosed(r.cache.nodes[name], Annotated(pod, [d]), [d]);
    assert Occupies(s'.cache.nodes, name, d, v) && Occupies(s'.cache.nodes, name, d, w);
  }

  /** Removing a completed pod can lead to two pods on one device if and only if it is not guarded. */
  lemma RemovalLeadsToSharingIff(s: State, u: UID)
    requires Inv(s) && s.pending.None? && u in s.pods && s.pods[u].complete
    ensures (exists s' :: Leads(Removed(s, u), s') && Shared(s')) <==> !RemovalGuard(s, u)
  {
    if RemovalGuard(s, u) {
      SyncRemoveKeeps(s, u);
      forall s' | Leads(Removed(s, u), s') ensures !Shared(s') {
        NeverShared(Removed(s, u), s');
      }
    } else {
      var s' := UnguardedLeadsToSharing(s, u);
    }
  }

  // ---------- Removing a completed pod again ----------

  /** Once a device of a completed pod is given to another pod, removing the completed pod again would
      break the invariant. */
  lemma ReuseDisablesRemoval(s: State, gone: UID, uid: UID, name: string, ids: seq<int>, d: int)
    requires Reachable(s) && Enabled(s, Choose(uid, name, ids))
    requires gone in s.pods && s.pods[gone].complete && s.pods[gone].nodeName == name
    requires d in PodIds(s.pods[gone]) && d in ids
    ensures var s' := AllocatedState(s, uid, name, ids);
            && Reachable(s') && gone in s'.pods && s'.pods[gone].complete
            && !RemovalGuard(s', gone) && !Inv(Removed(s', gone))
  {
    var s' := AllocatedState(s, uid, name, ids);
    AllocatedIsReachable(s, uid, name, ids);
    ReachableKeepsInv(s);
    ReachableKeepsInv(s');
    ClaimNodeIsStable(s.cache, s.lister, s.claims[gone]);
    ClaimIds(s.pods, s.claims, s.lister, s.cache.nodes, gone);
    CommitIdsClosed(s.cache.nodes[name], Annotated(s.pods[uid], ids), ids);
    assert uid in s'.cache.nodes[name].devs[d].pods;
    RemovalKeepsInvIff(s', gone);
  }

  /** Start-up on a cluster without pods. */
  function EmptyCluster(lister: Lister): State {
    State(lister, map[], Built(lister, []), None, map[], {})
  }

  lemma EmptyClusterIsReachable(lister: Lister)
    requires forall name :: name in lister ==> name != "" && SpecOk(lister[name])
    ensures Reachable(EmptyCluster(lister))
  {
    var s := EmptyCluster(lister);
    assert Started(s, []);
    InitialIsReachable(s);
  }

  lemma OnlyNode(spec: NodeSpec)
    requires spec.gpuCount > 0
    ensures Built(map["node" := spec], []).nodes == map["node" := FreshNode(spec)]
  {
  }

  /** A cluster with one node of one GPU, where pod a comes first and pod b after it. */
  const ONE_NODE := EmptyCluster(map["node" := ONE_GPU.spec])
  const POD_A := Pod("a", "default/a", "", None, 1, false)
  const POD_B := Pod("b", "default/b", "", None, 1, false)
  const DONE_A := Annotated(POD_A, [0]).(nodeName := "node", complete := true)
  const BOUND_B := Annotated(POD_B, [0]).(nodeName := "node")

  lemma FirstGpuMayBeChosen(s: State, uid: UID)
    requires s.lister == ONE_NODE.lister && s.pending.None? && uid in s.pods
    requires s.pods[uid].nodeName == "" && s.pods[uid].request == 1
    requires "node" in s.cache.nodes ==> s.cache.nodes["node"].spec.gpuCount == 1 && 0 in FreeIds(s.cache.nodes["node"])
    ensures Enabled(s, Choose(uid, "node", [0]))
  {
    var n := WithNode(s.cache, "node", s.lister["node"]).nodes["node"];
    assert 0 in FreeIds(n);
    assert 0 in Reals([0]);
  }

  /** Pod a waits on the cluster just started. */
  ghost predicate Waiting(s: State) {
    && s.lister == ONE_NODE.lister && s.pods == map["a" := POD_A]
    && s.cache.nodes == map["node" := FreshNode(ONE_GPU.spec)]
    && s.pending.None? && s.claims == map[] && s.held == {}
  }

  lemma PodAMayBePlaced() returns (s: State)
    ensures Waiting(s) && Reachable(s) && Enabled(s, Choose("a", "node", [0]))
  {
    EmptyClusterIsReachable(ONE_NODE.lister);
    OnlyNode(ONE_GPU.spec);
    NextIsReachable(ONE_NODE, CreatePod(POD_A));
    s := ONE_NODE.(pods := map["a" := POD_A]);
    FirstGpuMayBeChosen(s, "a");
  }

  lemma PodAIsPlaced(s: State)
    requires Waiting(s)
    ensures var s' := AllocatedState(s, "a", "node", [0]);
            && s'.lister == s.lister && s'.pending.None? && s'.held == {"a"}
            && s'.pods == map["a" := DONE_A.(complete := false)]
            && s'.cache.nodes == map["node" := CommitIds(FreshNode(ONE_GPU.spec), Annotated(POD_A, [0]), [0])]
  {
  }

  /** Pod a runs on the GPU and completes. */
  lemma FirstGpuIsTaken() returns (s: State)
    ensures Reachable(s) && s.lister == ONE_NODE.lister && s.pending.None?
    ensures s.pods == map["a" := DONE_A] && s.held == {"a"}
    ensures s.cache.nodes == map["node" := CommitIds(FreshNode(ONE_GPU.spec), Annotated(POD_A, [0]), [0])]
  {
    var s1 := PodAMayBePlaced();
    AllocatedIsReachable(s1, "a", "node", [0]);
    PodAIsPlaced(s1);
    s := PodAFinishes(AllocatedState(s1, "a", "node", [0]));
  }

  lemma PodAFinishes(s: State) returns (s': State)
    requires Reachable(s) && s.pods == map["a" := DONE_A.(complete := false)]
    ensures Reachable(s') && s' == s.(pods := map["a" := DONE_A])
  {
    NextIsReachable(s, Finish("a"));
    s' := Next(s, Finish("a"));
  }

  lemma FirstGpuComesBack()
    ensures var n := CommitIds(FreshNode(ONE_GPU.spec), Annotated(POD_A, [0]), [0]);
            n.spec == ONE_GPU.spec && RemoveIds(n, DONE_A, [0]).spec == ONE_GPU.spec
            && 0 in FreeIds(RemoveIds(n, DONE_A, [0]))
  {
    var unused := FreshNode(ONE_GPU.spec);
    CommitIdsClosed(unused, Annotated(POD_A, [0]), [0]);
    RemoveIdsClosed(CommitIds(unused, Annotated(POD_A, [0]), [0]), DONE_A, [0]);
  }

  lemma RemovalIsReachable(s: State, uid: UID)
    requires Reachable(s) && uid in s.held && uid in s.pods && s.pods[uid].complete
    ensures Reachable(Removed(s, uid))
  {
    ReachableKeepsInv(s);
    HolderIsGuarded(s, uid);
    NextIsReachable(s, SyncRemove(uid));
  }

  /** Pod a was removed, and pod b was created. */
  lemma FirstGpuIsFreeAgain() returns (s: State)
    ensures Reachable(s) && s.lister == ONE_NODE.lister && s.pending.None?
    ensures s.pods == map["a" := DONE_A, "b" := POD_B] && PodIds(DONE_A) == [0]
    ensures "node" in s.cache.nodes && s.cache.nodes["node"].spec == ONE_GPU.spec && 0 in FreeIds(s.cache.nodes["node"])
  {
    var s3 := FirstGpuIsTaken();
    RemovalIsReachable(s3, "a");
    AllocationRoundTrip([0]);
    FirstGpuComesBack();
    var s4 := Removed(s3, "a");
    NextIsReachable(s4, CreatePod(POD_B));
    s := Next(s4, CreatePod(POD_B));
  }

  /** A run that leads to a completed pod whose next removal is not guarded, while the other pod runs
      on the GPU. */
  lemma GuardFailsOnSomeRun() returns (s: State)
    ensures Reachable(s) && s.lister == ONE_NODE.lister && s.pending.None?
    ensures s.pods == map["a" := DONE_A, "b" := BOUND_B]
    ensures !RemovalGuard(s, "a") && !Inv(Removed(s, "a"))
  {
    var s0 := FirstGpuIsFreeAgain();
    FirstGpuMayBeChosen(s0, "b");
    ReuseDisablesRemoval(s0, "a", "b", "node", [0], 0);
    s := AllocatedState(s0, "b", "node", [0]);
    PodBIsBound(s0);
  }

  lemma PodBIsBound(s: State)
    requires s.lister == ONE_NODE.lister && s.pods == map["a" := DONE_A, "b" := POD_B]
    ensures var s' := AllocatedState(s, "b", "node", [0]);
            s'.pods == map["a" := DONE_A, "b" := BOUND_B] && s'.lister == s.lister && s'.pending.None?
  {
  }

  /** After that run the further removal of pod a leads to two pods on its GPU. */
  lemma SharingHappens() returns (s: State, s': State)
    ensures Reachable(s) && "a" in s.pods && s.pods["a"].complete
    ensures Leads(Removed(s, "a"), s') && Shared(s')
  {
    s := GuardFailsOnSomeRun();
    ReachableKeepsInv(s);
    s' := UnguardedLeadsToSharing(s, "a");
  }

  // ---------- A commit after the removal ----------

  /** A run on which a pod completes between bind and commit, is removed by a synchronisation, and is
      then put on its device by the commit: from `removed` on it was off the device, in `committed` it
      holds it. */
  lemma LateCommitHappens() returns (removed: State, committed: State)
    ensures Reachable(removed) && Leads(removed, committed)
    ensures "a" in removed.pods && removed.pods["a"].complete && removed.pending.Some? && !OnDevices(removed, "a")
    ensures committed.pending.None? && "a" in Holders(committed)
    ensures "node" in committed.cache.nodes && Used(committed.cache.nodes["node"], 0)
  {
    var s1 := PodAMayBePlaced();
    BoundLeads(s1, "a", "node", [0]);
    var s2 := BoundState(s1, "a", "node", [0]);
    LeadsReachable(s1, s2);
    removed := CompletedInFlight(s2);
    ReachableKeepsInv(removed);
    LeadsStep(removed, Commit);
    committed := Next(removed, Commit);
    CommitHolders(removed);
    CommitKeeps(removed);
    HolderUses(committed, "a", 0);
  }

  /** Finishing and removing the pod in flight, which is not on its device yet. */
  lemma CompletedInFlight(s: State) returns (removed: State)
    requires Reachable(s) && s.pending.Some? && s.pending.value.stage.Bound? && s.pending.value.pod.uid == "a"
    requires "a" in s.pods && s.pods["a"].nodeName == "node"
    requires s.held == {} && s.claims == map["a" := Claim("node", [0])]
    ensures Reachable(removed) && removed.pending == s.pending && removed.claims == s.claims && removed.held == {}
    ensures "a" in removed.pods && removed.pods["a"].complete
  {
    NextIsReachable(s, Finish("a"));
    var done := Next(s, Finish("a"));
    ReachableKeepsInv(done);
    NobodyIsGuarded(done, "a");
    NextIsReachable(done, SyncRemove("a"));
    removed := Next(done, SyncRemove("a"));
  }

  lemma NobodyIsGuarded(s: State, u: UID)
    requires Inv(s) && u in s.pods && Holders(s) == {}
    ensures RemovalGuard(s, u)
  {
  }

  // ---------- Padding ----------

  /** For all sizes with two or more GPUs left over there is a run of the best-effort policy after which
      a pod has completed and was removed, but holds its devices in all later states. */
  lemma PaddedLeakHappens(m: nat, req: nat) returns (s: State)
    requires 2 <= req <= m < INT_LIMIT && m % req >= 2
    ensures Reachable(s) && "a" in s.pods && s.pods["a"].complete && "a" !in s.held
    ensures forall s' :: Leads(s, s') ==> "a" in Holders(s')
  {
    var ids, s1 := PaddedChoice(m, req);
    AllocatedIsReachable(s1, "a", "node", ids);
    var s2 := AllocatedState(s1, "a", "node", ids);
    NextIsReachable(s2, Finish("a"));
    var s3 := Next(s2, Finish("a"));
    RemovalIsReachable(s3, "a");
    s := Removed(s3, "a");
    ReachableKeepsInv(s);
    assert OnDevices(s, "a");
    CanBeGivenBackIff(s, "a");
  }

  lemma PaddedChoice(m: nat, req: nat) returns (ids: seq<int>, s: State)
    requires 2 <= req <= m < INT_LIMIT && m % req >= 2
    ensures Reachable(s) && "a" in s.pods && s.pods["a"].uid == "a" && s.held == {} && s.claims == map[]
    ensures Enabled(s, Choose("a", "node", ids)) && PADDING in ids
  {
    var spec := PaddedSelection.LinkedPair(m).spec;
    ids := PaddedIsChosen(m, req);
    s := PodWaits(spec, req);
    ReachableKeepsInv(s);
    PolicyChoiceIsAllowed(s, BestRunner, "a", "node", ids);
  }

  lemma PaddedIsChosen(m: nat, req: nat) returns (ids: seq<int>)
    requires 2 <= req <= m < INT_LIMIT && m % req >= 2
    ensures var spec := PaddedSelection.LinkedPair(m).spec;
            SpecOk(spec) && Chosen(FreshNode(spec), BestRunner, req, Found(ids)) && PADDING in ids
  {
    var n, devices := PaddedSelection.LinkedPair(m), PaddedSelection.Identity(m);
    PaddedSelection.PaddingWithRest(m, req);
    BestEffort.FreeDevicesCount(n, devices);
    var r := BestEffort.Selection(n, devices, req);
    assert BestEffort.SelectsFrom(n, req, r);
    ids := r.ids;
  }

  lemma PodWaits(spec: NodeSpec, req: nat) returns (s: State)
    requires SpecOk(spec) && spec.gpuCount > 0
    ensures Reachable(s) && s.lister == map["node" := spec] && s.pending.None?
    ensures s.cache.nodes == map["node" := FreshNode(spec)]
    ensures s.pods == map["a" := Pod("a", "default/a", "", None, req, false)] && s.held == {} && s.claims == map[]
  {
    var start := EmptyCluster(map["node" := spec]);
    var pod := Pod("a", "default/a", "", None, req, false);
    EmptyClusterIsReachable(start.lister);
    OnlyNode(spec);
    NextIsReachable(start, CreatePod(pod));
    s := Next(start, CreatePod(pod));
  }
}

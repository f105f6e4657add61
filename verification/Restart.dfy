/** Restarting the extender: the cache rebuilt from the listed pods against the cache it had. */
module Restart {
  import opened NodeState
  import opened Codec
  import opened GpuPartitions
  import opened StartUp
  import opened Cluster
  import opened Runs
  import opened Incidents

  // ---------- Who is where ----------

  ghost predicate SameOccupancy(nodes: map<string, Node>, nodes': map<string, Node>) {
    forall name, d, u :: Occupies(nodes, name, d, u) <==> Occupies(nodes', name, d, u)
  }

  lemma OccupiesNow(s: State, name: string, d: int, u: UID)
    requires Inv(s)
    ensures Occupies(s.cache.nodes, name, d, u) <==> Claims(s.claims, u, name, d) && u in Holders(s)
  {
    if name in s.cache.nodes && d in s.cache.nodes[name].devs {
      assert u in s.cache.nodes[name].devs[d].pods <==> Holding(s.claims, Holders(s), u, name, d);
    }
  }

  lemma ClaimIsDevice(s: State, u: UID, d: int)
    requires CacheInv(s) && u in s.claims && d in s.claims[u].ids && d != PADDING
    ensures 0 <= d < INT_LIMIT && s.claims[u].name in s.lister
  {
    assert d in s.cache.nodes[s.claims[u].name].devs;
  }

  lemma BindingsHold(s: State)
    requires CacheInv(s)
    ensures BindingsOk(s.lister, s.pods, s.claims)
  {
    forall u, id | u in s.claims && id in s.claims[u].ids ensures -1 <= id < INT_LIMIT {
      if id != PADDING { ClaimIsDevice(s, u, id); }
    }
  }

  // ---------- Restarts that keep the invariant ----------

  /** A restart is a step of the transition system, whatever is in progress, when no allocation contains
      padding, the claimed devices are within the listed sizes, and exactly those of the bound pods are
      listed that are not complete. */
  lemma RestartIsAllowed(s: State, listed: seq<Pod>)
    requires Reachable(s) && PodSet(listed) <= s.pods.Values
    requires forall u :: u in s.claims ==> WithinListed(s.lister, s.claims[u])
    requires forall u :: u in s.claims ==> (Listed(s, listed, u) <==> u in s.pods && !s.pods[u].complete)
    ensures Enabled(s, Restart(listed)) && Inv(Restarted(s, listed))
  {
    ReachableKeepsInv(s);
    BindingsHold(s);
    ListedAreApart(s, listed);
    RestartStarts(s, listed);
    StartedInv(Restarted(s, listed), listed);
  }

  lemma RestartStarts(s: State, listed: seq<Pod>)
    requires NodesInv(s.lister, s.cache.nodes) && BindingsOk(s.lister, s.pods, s.claims)
    requires PodSet(listed) <= s.pods.Values
    requires forall u :: u in s.claims ==> WithinListed(s.lister, s.claims[u])
    requires forall u :: u in s.claims ==> (Listed(s, listed, u) <==> u in s.pods && !s.pods[u].complete)
    requires ApartInv(s.claims, Restarted(s, listed).held)
    ensures Started(Restarted(s, listed), listed)
  {
  }

  lemma ListedAreApart(s: State, listed: seq<Pod>)
    requires Inv(s) && forall u :: u in s.claims ==> WithinListed(s.lister, s.claims[u])
    requires forall u :: u in s.claims ==> (Listed(s, listed, u) <==> u in s.pods && !s.pods[u].complete)
    ensures ApartInv(s.claims, Restarted(s, listed).held)
  {
    forall u | u in Restarted(s, listed).held ensures u in Holders(s) || InFlight(s, u) {
      assert WithinListed(s.lister, s.claims[u]);
    }
    forall u, v | u in Restarted(s, listed).held && v in Restarted(s, listed).held && u != v
      ensures Apart(s.claims[u], s.claims[v])
    {
      if !(u in Holders(s) && v in Holders(s)) { assert ClaimOf(s.pending.value) in {s.claims[u], s.claims[v]}; }
    }
  }

  // ---------- Recovery ----------

  /** An allocation with padding is still in flight; the pod of one without is listed and was added and not
      removed since, or neither; only devices beyond the listed size of the node are excepted. */
  ghost predicate Recoverable(s: State, listed: seq<Pod>) {
    forall u, name, d :: Claims(s.claims, u, name, d) ==>
      && name in s.lister
      && if PADDING in s.claims[u].ids then InFlight(s, u)
         else u in s.held <==> Listed(s, listed, u) && d < s.lister[name].gpuCount
  }

  /** Each claimed device is occupied before exactly if it is after. */
  ghost predicate ClaimsRecover(s: State, listed: seq<Pod>) {
    forall u, name, d :: Claims(s.claims, u, name, d) ==> (u in Holders(s) <==> Rebuilt(s, listed, u, d))
  }

  lemma RecoverableMeans(s: State, listed: seq<Pod>)
    requires CacheInv(s)
    ensures Recoverable(s, listed) <==> ClaimsRecover(s, listed)
  {
    forall u, name, d | Claims(s.claims, u, name, d) ensures name in s.lister && d >= 0 {
      ClaimIsDevice(s, u, d);
    }
  }

  lemma OccupancyMeans(s: State, listed: seq<Pod>)
    requires Inv(s) && PodSet(listed) <= s.pods.Values
    ensures SameOccupancy(s.cache.nodes, Built(s.lister, listed).nodes) <==> ClaimsRecover(s, listed)
  {
    var built := Built(s.lister, listed).nodes;
    BindingsHold(s);
    forall name, d, u
      ensures Occupies(s.cache.nodes, name, d, u) <==> Claims(s.claims, u, name, d) && u in Holders(s)
      ensures Occupies(built, name, d, u) <==> Claims(s.claims, u, name, d) && Rebuilt(s, listed, u, d)
    {
      OccupiesNow(s, name, d, u);
      OccupiesBuilt(s, listed, name, d, u);
    }
    if SameOccupancy(s.cache.nodes, built) {
      forall u, name, d | Claims(s.claims, u, name, d) ensures u in Holders(s) <==> Rebuilt(s, listed, u, d) {
        assert Occupies(s.cache.nodes, name, d, u) <==> Occupies(built, name, d, u);
      }
    }
  }

  /** Rebuilding the cache from the listed pods puts the same pods on the same devices if and only if
      the state is recoverable. */
  lemma RestartRecoversIff(s: State, listed: seq<Pod>)
    requires Reachable(s) && PodSet(listed) <= s.pods.Values
    ensures SameOccupancy(s.cache.nodes, Built(s.lister, listed).nodes) <==> Recoverable(s, listed)
  {
    ReachableKeepsInv(s);
    RecoverableMeans(s, listed);
    OccupancyMeans(s, listed);
  }

  /** In particular when nothing is in flight, no allocation contains padding, the listed bound pods are
      those that are not complete, the others were removed, and the sizes of the nodes are those they were
      cached with. */
  lemma QuietStateIsRecoverable(s: State, listed: seq<Pod>)
    requires Reachable(s) && s.pending.None?
    requires forall u :: u in s.claims ==>
      u in s.pods && PADDING !in s.claims[u].ids && (Listed(s, listed, u) <==> !s.pods[u].complete)
    requires forall u :: u in s.held && u in s.pods ==> !s.pods[u].complete
    requires forall name :: name in s.cache.nodes && name in s.lister ==>
      s.lister[name].gpuCount == s.cache.nodes[name].spec.gpuCount
    ensures Recoverable(s, listed)
  {
    ReachableKeepsInv(s);
    forall u, name, d | Claims(s.claims, u, name, d)
      ensures name in s.lister && d < s.lister[name].gpuCount && (u in s.held <==> Listed(s, listed, u))
    {
      ClaimIsDevice(s, u, d);
      assert d in s.cache.nodes[name].devs;
    }
  }

  // ---------- A restart that does not recover ----------

  /** A restart forgets an allocation that contains padding: the devices it was put on are without it. */
  lemma RestartForgetsPadded(s: State, listed: seq<Pod>, u: UID, d: int)
    requires Reachable(s) && PodSet(listed) <= s.pods.Values && u in Holders(s)
    requires PADDING in s.claims[u].ids && d in s.claims[u].ids && d != PADDING
    ensures Occupies(s.cache.nodes, s.claims[u].name, d, u)
    ensures !Occupies(Restarted(s, listed).cache.nodes, s.claims[u].name, d, u)
  {
    ReachableKeepsInv(s);
    BindingsHold(s);
    OccupiesNow(s, s.claims[u].name, d, u);
    OccupiesBuilt(s, listed, s.claims[u].name, d, u);
  }

  /** A run after which no two pods share a device, but a restart puts two pods on one GPU: the listed pod a
      is complete and was removed, and pod b runs on its GPU. */
  lemma RestartCanShare(listed: seq<Pod>) returns (s: State)
    requires PodSet(listed) == {DONE_A, BOUND_B}
    ensures Reachable(s) && s.pods.Values == PodSet(listed) && !Recoverable(s, listed)
    ensures !Shared(s) && Shared(Restarted(s, listed))
  {
    s := GuardFailsOnSomeRun();
    ListedPair(s);
    ReachableKeepsInv(s);
    InvIsNotShared(s);
    BothAreBuilt(s, listed);
    if Recoverable(s, listed) {
      RestartRecoversIff(s, listed);
      SameIsNotShared(s, Restarted(s, listed));
    }
  }

  lemma ListedPair(s: State)
    requires s.pods == map["a" := DONE_A, "b" := BOUND_B]
    ensures s.pods.Values == {DONE_A, BOUND_B}
  {
    assert s.pods["a"] == DONE_A && s.pods["b"] == BOUND_B;
  }

  lemma BothAreBuilt(s: State, listed: seq<Pod>)
    requires CacheInv(s) && s.lister == ONE_NODE.lister
    requires s.pods == map["a" := DONE_A, "b" := BOUND_B] && PodSet(listed) == {DONE_A, BOUND_B}
    ensures Shared(Restarted(s, listed))
  {
    ListedPair(s);
    BindingsHold(s);
    AllocationRoundTrip([0]);
    PodIsOn(s, "a", "node", 0);
    PodIsOn(s, "b", "node", 0);
    OccupiesBuilt(s, listed, "node", 0, "a");
    OccupiesBuilt(s, listed, "node", 0, "b");
  }

  lemma SameIsNotShared(s: State, s': State)
    requires SameOccupancy(s.cache.nodes, s'.cache.nodes) && Shared(s')
    ensures Shared(s)
  {
    var name, d, u, v :|
      Occupies(s'.cache.nodes, name, d, u) && Occupies(s'.cache.nodes, name, d, v) && u != v;
    assert Occupies(s.cache.nodes, name, d, u) && Occupies(s.cache.nodes, name, d, v);
  }
}

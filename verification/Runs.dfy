/** What holds over whole runs of the transition system, whatever steps interleave. */
module Runs {
  import IntSets
  import opened NodeState
  import opened Codec
  import opened NodeUpdates
  import opened NodeTheory
  import opened CacheState
  import opened GpuPartitions
  import opened Allocation
  import opened StartUp
  import opened Cluster
  import BestEffort
  import Controllers

  /** Every allocation is for as many entries as its pod requests, without repetition. */
  ghost predicate Sized(s: State) {
    && (forall u :: u in s.claims ==>
          u in s.pods && |s.claims[u].ids| == s.pods[u].request && NoRepeat(s.claims[u].ids))
    && (s.pending.Some? ==>
          var p := s.pending.value;
          && p.pod.uid in s.pods && |p.ids| == s.pods[p.pod.uid].request == p.pod.request && NoRepeat(p.ids))
  }

  /** Runs begin with start-up, on a cluster that may have pods already. */
  ghost predicate Initial(s: State) {
    (exists listed :: Started(s, listed)) && Sized(s)
  }

  ghost predicate IsPath(ss: seq<State>, es: seq<Event>) {
    && |ss| == |es| + 1
    && forall i :: 0 <= i < |es| ==> Enabled(ss[i], es[i]) && ss[i + 1] == Next(ss[i], es[i])
  }

  ghost predicate IsRun(ss: seq<State>, es: seq<Event>) {
    IsPath(ss, es) && Initial(ss[0])
  }

  lemma InitialInv(s: State)
    requires Initial(s)
    ensures Inv(s)
  {
    var listed :| Started(s, listed);
    StartedInv(s, listed);
  }

  /** What every step keeps holds throughout a path. */
  lemma {:induction false} PathKeeps(I: State -> bool, ss: seq<State>, es: seq<Event>, i: nat)
    requires IsPath(ss, es) && I(ss[0]) && i < |ss|
    requires forall s, e :: I(s) && Enabled(s, e) ==> I(Next(s, e))
    ensures I(ss[i])
  {
    if i > 0 {
      PathKeeps(I, ss, es, i - 1);
      assert ss[i] == Next(ss[i - 1], es[i - 1]);
    }
  }

  lemma PathKeepsInv(ss: seq<State>, es: seq<Event>, i: nat)
    requires IsPath(ss, es) && Inv(ss[0]) && i < |ss|
    ensures Inv(ss[i])
  {
    forall s, e | Inv(s) && Enabled(s, e) ensures Inv(Next(s, e)) {
      StepKeeps(s, e);
    }
    PathKeeps(s => Inv(s), ss, es, i);
  }

  lemma RunKeepsInv(ss: seq<State>, es: seq<Event>, i: nat)
    requires IsRun(ss, es) && i < |ss|
    ensures Inv(ss[i])
  {
    InitialInv(ss[0]);
    PathKeepsInv(ss, es, i);
  }

  // ---------- Exclusive devices ----------

  /** Over every interleaving, no device is ever on two pods, and a device is marked used exactly if
      some pod is on it. */
  lemma AllocationIsExclusive(ss: seq<State>, es: seq<Event>, i: nat, name: string, d: int)
    requires IsRun(ss, es) && i < |ss|
    requires name in ss[i].cache.nodes && d in ss[i].cache.nodes[name].devs
    ensures var dev := ss[i].cache.nodes[name].devs[d];
            && (forall u, v :: u in dev.pods && v in dev.pods ==> u == v)
            && (dev.isUsed <==> exists u :: u in dev.pods)
  {
    RunKeepsInv(ss, es, i);
    var s := ss[i];
    var dev := s.cache.nodes[name].devs[d];
    forall u, v | u in dev.pods && v in dev.pods ensures u == v {
      assert Holding(s.claims, Holders(s), u, name, d) && Holding(s.claims, Holders(s), v, name, d);
      assert d != PADDING;
    }
    if dev.pods != map[] {
      assert dev.pods.Keys != {};
    }
  }

  /** Index agreement for a bound pod. Without padding its annotation lists the ids it was bound with,
      and it is on a device of its node exactly if it was added, has not been removed since, and the
      device is among these ids. With padding the annotation lists nothing, and it is on the devices
      from the commit on, whatever is synchronised. */
  lemma IndexAgrees(ss: seq<State>, es: seq<Event>, i: nat, u: UID)
    requires IsRun(ss, es) && i < |ss| && u in ss[i].claims
    ensures var s, c := ss[i], ss[i].claims[u];
            && u in s.pods && s.pods[u].nodeName == c.name
            && PodIds(s.pods[u]) == (if PADDING in c.ids then [] else c.ids)
            && (forall name, d :: name in s.cache.nodes && d in s.cache.nodes[name].devs ==>
                  (u in s.cache.nodes[name].devs[d].pods <==>
                    name == c.name && d in c.ids && if PADDING in c.ids then !InFlight(s, u) else u in s.held))
  {
    RunKeepsInv(ss, es, i);
    var s, c := ss[i], ss[i].claims[u];
    ClaimIds(s.pods, s.claims, s.lister, s.cache.nodes, u);
    forall name, d | name in s.cache.nodes && d in s.cache.nodes[name].devs
      ensures u in s.cache.nodes[name].devs[d].pods <==> name == c.name && d in c.ids && OnDevices(s, u)
    {
      assert u in s.cache.nodes[name].devs[d].pods <==> Holding(s.claims, Holders(s), u, name, d);
    }
  }

  ghost predicate OnSomeDevice(s: State, u: UID) {
    u in s.pods && s.pods[u].nodeName in s.cache.nodes
    && exists d :: d in s.cache.nodes[s.pods[u].nodeName].devs && u in s.cache.nodes[s.pods[u].nodeName].devs[d].pods
  }

  /** Only bound pods are on devices, and every known pod is on a device of its node. */
  lemma KnownPodsAreOnDevices(ss: seq<State>, es: seq<Event>, i: nat)
    requires IsRun(ss, es) && i < |ss|
    ensures var s := ss[i];
            && (forall name, d, u ::
                  name in s.cache.nodes && d in s.cache.nodes[name].devs && u in s.cache.nodes[name].devs[d].pods
                  ==> u in s.claims)
            && (forall u :: u in s.cache.known ==> OnSomeDevice(s, u))
  {
    RunKeepsInv(ss, es, i);
    var s := ss[i];
    forall u | u in s.cache.known ensures OnSomeDevice(s, u) {
      var c := s.claims[u];
      var d :| d in c.ids && d != PADDING;
      assert Holding(s.claims, Holders(s), u, c.name, d);
    }
  }

  // ---------- What an allocation takes ----------

  lemma StepKeepsSizes(s: State, e: Event)
    requires Inv(s) && Sized(s) && Enabled(s, e)
    ensures Sized(Next(s, e))
  {
  }

  lemma RunKeepsSizes(ss: seq<State>, es: seq<Event>, i: nat)
    requires IsRun(ss, es) && i < |ss|
    ensures Sized(ss[i])
  {
    forall s, e | Inv(s) && Sized(s) && Enabled(s, e) ensures Inv(Next(s, e)) && Sized(Next(s, e)) {
      StepKeeps(s, e);
      StepKeepsSizes(s, e);
    }
    InitialInv(ss[0]);
    PathKeeps(s => Inv(s) && Sized(s), ss, es, i);
  }

  /** From the choice to the commit the chosen devices are free, or, after a synchronisation between
      bind and commit, used by the pod itself. */
  lemma PendingIdsAreReserved(s: State)
    requires Inv(s) && s.pending.Some?
    ensures var p := s.pending.value;
            && p.name in s.cache.nodes
            && var n := s.cache.nodes[p.name];
               if OnDevices(s, p.pod.uid) then Reals(p.ids) <= UsedIds(n) else Reals(p.ids) <= FreeIds(n)
  {
    var p := s.pending.value;
    var n, u := s.cache.nodes[p.name], p.pod.uid;
    forall d | d in Reals(p.ids) ensures d in n.devs && (n.devs[d].isUsed <==> OnDevices(s, u)) {
      ReservedDevice(s, d);
    }
  }

  lemma ReservedDevice(s: State, d: int)
    requires Inv(s) && s.pending.Some? && d in s.pending.value.ids && d != PADDING
    ensures var p := s.pending.value;
            && p.name in s.cache.nodes && d in s.cache.nodes[p.name].devs
            && (s.cache.nodes[p.name].devs[d].isUsed <==> OnDevices(s, p.pod.uid))
  {
    var p := s.pending.value;
    var dev, u := s.cache.nodes[p.name].devs[d], p.pod.uid;
    assert u in dev.pods <==> Holding(s.claims, Holders(s), u, p.name, d);
    forall v | v in dev.pods ensures v == u {
      assert Holding(s.claims, Holders(s), v, p.name, d);
    }
    if dev.pods != map[] {
      assert dev.pods.Keys != {};
      var v :| v in dev.pods;
      assert v == u;
    }
  }

  /** Over every interleaving, the commit of an allocation leaves exactly its own devices in addition
      to those used before, as many as the pod requests less the padding; unless a synchronisation was
      faster, they were all free. */
  lemma CommitTakesRequest(ss: seq<State>, es: seq<Event>, i: nat)
    requires IsRun(ss, es) && i < |es| && es[i].Commit?
    ensures var p := ss[i].pending.value;
            && p.name in ss[i].cache.nodes && p.name in ss[i + 1].cache.nodes
            && var n, n' := ss[i].cache.nodes[p.name], ss[i + 1].cache.nodes[p.name];
               && (if OnDevices(ss[i], p.pod.uid) then Reals(p.ids) <= UsedIds(n) else Reals(p.ids) <= FreeIds(n))
               && UsedIds(n') == UsedIds(n) + Reals(p.ids) && FreeIds(n') == FreeIds(n) - Reals(p.ids)
               && p.pod.uid in ss[i].pods && |Reals(p.ids)| == ss[i].pods[p.pod.uid].request - CountPadding(p.ids)
  {
    RunKeepsInv(ss, es, i);
    RunKeepsSizes(ss, es, i);
    var p := ss[i].pending.value;
    PendingIdsAreReserved(ss[i]);
    BlockSize(p.ids);
    CommitMarks(ss[i].cache.nodes[p.name], p.pod, p.ids);
  }

  // ---------- Giving devices back ----------

  /** Some steps lead from the one state to the other. */
  ghost predicate Leads(s: State, s': State) {
    exists ss: seq<State>, es: seq<Event> :: IsPath(ss, es) && ss[0] == s && ss[|es|] == s'
  }

  lemma LeadsKeeps(I: State -> bool, s: State, s': State)
    requires I(s) && Leads(s, s')
    requires forall t, e :: I(t) && Enabled(t, e) ==> I(Next(t, e))
    ensures I(s')
  {
    var ss: seq<State>, es: seq<Event> :| IsPath(ss, es) && ss[0] == s && ss[|es|] == s';
    PathKeeps(I, ss, es, |es|);
  }

  lemma LeadsStep(s: State, e: Event)
    requires Enabled(s, e)
    ensures Leads(s, Next(s, e))
  {
    assert IsPath([s, Next(s, e)], [e]);
  }

  lemma LeadsOn(s: State, s': State, e: Event)
    requires Leads(s, s') && Enabled(s', e)
    ensures Leads(s, Next(s', e))
  {
    var ss: seq<State>, es: seq<Event> :| IsPath(ss, es) && ss[0] == s && ss[|es|] == s';
    assert IsPath(ss + [Next(s', e)], es + [e]);
  }

  lemma {:induction false} PathLeadsOn(s: State, ss: seq<State>, es: seq<Event>, i: nat)
    requires IsPath(ss, es) && Leads(s, ss[0]) && i < |ss|
    ensures Leads(s, ss[i])
  {
    if i > 0 {
      PathLeadsOn(s, ss, es, i - 1);
      LeadsOn(s, ss[i - 1], es[i - 1]);
    }
  }

  lemma LeadsTransitive(s: State, t: State, u: State)
    requires Leads(s, t) && Leads(t, u)
    ensures Leads(s, u)
  {
    var ss: seq<State>, es: seq<Event> :| IsPath(ss, es) && ss[0] == t && ss[|es|] == u;
    PathLeadsOn(s, ss, es, |es|);
  }

  /** Two pods are on one device. */
  ghost predicate Shared(s: State) {
    exists name, d, u, v ::
      Occupies(s.cache.nodes, name, d, u) && Occupies(s.cache.nodes, name, d, v) && u != v
  }

  lemma NeverShared(s: State, s': State)
    requires Inv(s) && Leads(s, s')
    ensures !Shared(s')
  {
    forall t, e | Inv(t) && Enabled(t, e) ensures Inv(Next(t, e)) {
      StepKeeps(t, e);
    }
    LeadsKeeps(t => Inv(t), s, s');
    InvIsNotShared(s');
  }

  lemma InvIsNotShared(s: State)
    requires Inv(s)
    ensures !Shared(s)
  {
    forall name, d, u, v | Occupies(s.cache.nodes, name, d, u) && Occupies(s.cache.nodes, name, d, v) ensures u == v {
      assert Holding(s.claims, Holders(s), u, name, d) && Holding(s.claims, Holders(s), v, name, d);
      assert d != PADDING;
    }
  }

  /** The claim contains padding and is committed. */
  ghost predicate Stuck(s: State, u: UID, c: Claim) {
    u in s.claims && s.claims[u] == c && PADDING in c.ids && !InFlight(s, u)
  }

  lemma StuckStays(s: State, e: Event, u: UID, c: Claim)
    requires ClaimsInv(s.pods, s.claims, s.cache.nodes) && PendingInv(s) && Stuck(s, u, c) && Enabled(s, e)
    ensures Stuck(Next(s, e), u, c)
  {
    assert u in s.pods && s.pods[u].nodeName != "";
  }

  lemma StuckAfter(s: State, s': State, u: UID, c: Claim)
    requires Inv(s) && Stuck(s, u, c) && Leads(s, s')
    ensures Inv(s') && Stuck(s', u, c)
  {
    forall t, e | Inv(t) && Stuck(t, u, c) && Enabled(t, e) ensures Inv(Next(t, e)) && Stuck(Next(t, e), u, c) {
      StepKeeps(t, e);
      StuckStays(t, e, u, c);
    }
    LeadsKeeps(t => Inv(t) && Stuck(t, u, c), s, s');
  }

  /** A committed allocation that contains padding keeps its devices used in all later states; a restart
      is not among the steps then. */
  lemma PaddedAllocationStays(s: State, s': State, u: UID, d: int)
    requires Inv(s) && Leads(s, s') && u in Holders(s) && PADDING in s.claims[u].ids
    requires d in s.claims[u].ids && d != PADDING
    ensures u in Holders(s') && s'.claims[u] == s.claims[u]
    ensures s.claims[u].name in s'.cache.nodes && Used(s'.cache.nodes[s.claims[u].name], d)
  {
    StuckAfter(s, s', u, s.claims[u]);
    HolderUses(s', u, d);
  }

  lemma HolderUses(s: State, u: UID, d: int)
    requires Inv(s) && u in Holders(s) && d in s.claims[u].ids && d != PADDING
    ensures s.claims[u].name in s.cache.nodes && Used(s.cache.nodes[s.claims[u].name], d)
  {
    assert Holding(s.claims, Holders(s), u, s.claims[u].name, d);
  }

  /** A pod can be taken off its devices if and only if its allocation contains no padding. */
  lemma CanBeGivenBackIff(s: State, u: UID)
    requires Inv(s) && u in Holders(s)
    ensures (exists s' :: Leads(s, s') && u !in Holders(s')) <==> PADDING !in s.claims[u].ids
  {
    if PADDING in s.claims[u].ids {
      var d :| d in s.claims[u].ids && d != PADDING;
      forall s' | Leads(s, s') ensures u in Holders(s') {
        PaddedAllocationStays(s, s', u, d);
      }
    } else {
      var done := Next(s, Finish(u));
      LeadsStep(s, Finish(u));
      FinishKeeps(s, u);
      SameHolders(s, done);
      HolderIsGuarded(done, u);
      LeadsOn(s, done, SyncRemove(u));
      SyncRemoveHolders(done, u);
      assert u !in Holders(Next(done, SyncRemove(u)));
    }
  }

  // ---------- Removals ----------

  lemma HolderIsGuarded(s: State, u: UID)
    requires Inv(s) && u in s.claims && (u in Holders(s) || PADDING in s.claims[u].ids)
    ensures u in s.pods && RemovalGuard(s, u)
  {
    ClaimIds(s.pods, s.claims, s.lister, s.cache.nodes, u);
    var n, ids := s.cache.nodes[s.claims[u].name], PodIds(s.pods[u]);
    forall d, v | d in n.devs && d in ids && v in n.devs[d].pods ensures v == u {
      assert Holding(s.claims, Holders(s), v, s.claims[u].name, d);
      assert Apart(s.claims[v], s.claims[u]) || v == u;
    }
  }

  /** The guard on removals only concerns repeated ones: a pod that is held may always be removed. */
  lemma FirstRemovalIsGuarded(ss: seq<State>, es: seq<Event>, i: nat, uid: UID)
    requires IsRun(ss, es) && i < |ss| && uid in ss[i].held
    ensures uid in ss[i].pods && RemovalGuard(ss[i], uid)
  {
    RunKeepsInv(ss, es, i);
    HolderIsGuarded(ss[i], uid);
  }

  /** The guard is exactly what the invariant needs: without it a removal breaks the invariant. */
  lemma RemovalKeepsInvIff(s: State, uid: UID)
    requires Inv(s) && uid in s.pods && s.pods[uid].complete
    ensures Inv(Removed(s, uid)) <==> RemovalGuard(s, uid)
  {
    if RemovalGuard(s, uid) {
      SyncRemoveKeeps(s, uid);
    } else {
      UnguardedBreaks(s, uid);
    }
  }

  lemma UnguardedBreaks(s: State, uid: UID)
    requires CacheInv(s) && uid in s.pods && !RemovalGuard(s, uid)
    ensures !CacheInv(Removed(s, uid))
  {
    SyncNodes(s, uid);
    UnguardedNode(s.cache.nodes[s.pods[uid].nodeName], s.pods[uid], PodIds(s.pods[uid]));
  }

  lemma UnguardedNode(n: Node, pod: Pod, ids: seq<int>)
    requires NodeOk(n) && !OnlyHolder(n, pod, ids)
    ensures !NodeOk(RemoveIds(n, pod, ids))
  {
    RemovalKeepsAgreementIff(n, pod, ids);
  }

  /** A removed pod: complete, bound, off its devices, and without a commit to come. */
  ghost predicate Off(s: State, u: UID) {
    && u in s.pods && u in s.claims && s.pods[u].complete && s.pods[u].nodeName != ""
    && u !in Holders(s) && !InFlight(s, u)
  }

  lemma OffStays(s: State, e: Event, u: UID)
    requires Inv(s) && Off(s, u) && Enabled(s, e)
    ensures Off(Next(s, e), u)
  {
  }

  lemma OffAfter(s: State, s': State, u: UID)
    requires Inv(s) && Off(s, u) && Leads(s, s')
    ensures Off(s', u)
  {
    forall t, e | Inv(t) && Off(t, u) && Enabled(t, e) ensures Inv(Next(t, e)) && Off(Next(t, e), u) {
      StepKeeps(t, e);
      OffStays(t, e, u);
    }
    LeadsKeeps(t => Inv(t) && Off(t, u), s, s');
  }

  /** A completed pod that is off its devices stays off them in all later states if and only if its
      commit is not still to come. */
  lemma RemovedStaysOffIff(s: State, u: UID)
    requires Inv(s) && u in s.claims && s.pods[u].complete && u !in Holders(s)
    ensures (forall s' :: Leads(s, s') ==> u !in Holders(s')) <==> !InFlight(s, u)
  {
    if InFlight(s, u) {
      LeadsStep(s, Commit);
      CommitHolders(s);
      assert u in Holders(Next(s, Commit));
    } else {
      forall s' | Leads(s, s') ensures u !in Holders(s') {
        OffAfter(s, s', u);
      }
    }
  }

  // ---------- The link matrix ----------

  /** Topology agreement: whatever has run, every selection of the best-effort policy on a node is the
      one it would make on the untouched topology. */
  lemma TopologyAgreesOverRuns(ss: seq<State>, es: seq<Event>, i: nat, name: string)
    requires IsRun(ss, es) && i < |ss| && name in ss[i].cache.nodes
    ensures var n := ss[i].cache.nodes[name];
            && TopologyAgrees(n)
            && forall devices, req ::
                 BestEffort.Selection(n, devices, req) == BestEffort.Selection(Untouched(n), devices, req)
  {
    RunKeepsInv(ss, es, i);
    var n := ss[i].cache.nodes[name];
    forall devices, req
      ensures BestEffort.Selection(n, devices, req) == BestEffort.Selection(Untouched(n), devices, req)
    {
      SelectionIsOriginal(n, devices, req);
    }
  }

  /** So on every reachable node the best-effort choice is optimal for the topology the API server
      describes. */
  lemma SelectionIsOptimalOverRuns(ss: seq<State>, es: seq<Event>, i: nat, name: string, devices: seq<int>, req: int)
    returns (P: set<set<int>>)
    requires IsRun(ss, es) && i < |ss| && name in ss[i].cache.nodes
    requires Symmetric(ss[i].cache.nodes[name].spec.topology)
    requires BestEffort.FreeDevices(ss[i].cache.nodes[name], devices)
    requires BestEffort.Selection(ss[i].cache.nodes[name], devices, req).Selected?
    ensures var n := ss[i].cache.nodes[name];
            var r := BestEffort.Selection(n, devices, req);
            BestEffort.OptimalChoice(Untouched(n), FreeIds(n), req, P, Reals(r.ids), r.score)
  {
    RunKeepsInv(ss, es, i);
    var n := ss[i].cache.nodes[name];
    SelectionIsOriginal(n, devices, req);
    P := BestEffort.SelectionIsOptimal(Untouched(n), devices, req);
  }

  ghost predicate ListerSymmetric(s: State) {
    forall name :: name in s.lister ==> Symmetric(s.lister[name].topology)
  }

  ghost predicate NodesSymmetric(s: State) {
    forall name :: name in s.cache.nodes ==> SymmetricNode(s.cache.nodes[name])
  }

  lemma WithNodeSymmetric(c: Cache, name: string, spec: NodeSpec)
    requires forall m :: m in c.nodes ==> SymmetricNode(c.nodes[m])
    requires SpecOk(spec) && Symmetric(spec.topology)
    ensures var nodes := WithNode(c, name, spec).nodes; forall m :: m in nodes ==> SymmetricNode(nodes[m])
  {
  }

  lemma StepKeepsSymmetry(s: State, e: Event)
    requires Inv(s) && ListerSymmetric(s) && NodesSymmetric(s) && Enabled(s, e)
    ensures NodesSymmetric(Next(s, e))
  {
    match e
    case Choose(uid, name, ids) => WithNodeSymmetric(s.cache, name, s.lister[name]);
    case Commit =>
      var p := s.pending.value;
      SymmetryIsKept(s.cache.nodes[p.name], p.pod, p.ids);
    case SyncAdd(uid) =>
      if uid in s.claims { SyncKeepsSymmetry(s, uid); }
    case SyncRemove(uid) =>
      if uid in s.claims { SyncKeepsSymmetry(s, uid); }
    case Restart(listed) => StartedSymmetric(Restarted(s, listed), listed);
    case _ =>
  }

  /** Zeroing the rows and columns of used devices keeps a matrix symmetric. */
  lemma StartedSymmetric(s: State, listed: seq<Pod>)
    requires Started(s, listed) && ListerSymmetric(s)
    ensures NodesSymmetric(s)
  {
    ListingIsProper(s, listed);
    BuiltIsExact(s.lister, listed);
    forall name | name in s.cache.nodes ensures SymmetricNode(s.cache.nodes[name]) {
      ZeroedIsSymmetric(s.cache.nodes[name]);
    }
  }

  lemma ZeroedIsSymmetric(n: Node)
    requires TopologyOf(n) && Symmetric(n.spec.topology)
    ensures SymmetricNode(n)
  {
    forall i, j ensures Link(n.topology, i, j) == Link(n.topology, j, i) {
      assert Link(n.spec.topology, i, j) == Link(n.spec.topology, j, i);
      assert (i, j) in n.topology <==> (i, j) in n.spec.topology;
      assert (j, i) in n.topology <==> (j, i) in n.spec.topology;
    }
  }

  lemma SyncKeepsSymmetry(s: State, uid: UID)
    requires CacheInv(s) && NodesSymmetric(s) && uid in s.claims && uid in s.pods
    ensures var nodes := AddPod(s.cache, s.lister, s.pods[uid]).nodes;
            forall m :: m in nodes ==> SymmetricNode(nodes[m])
    ensures var nodes := RemovePod(s.cache, s.lister, s.pods[uid]).nodes;
            forall m :: m in nodes ==> SymmetricNode(nodes[m])
  {
    SyncNodes(s, uid);
    SymmetryIsKept(s.cache.nodes[s.claims[uid].name], s.pods[uid], PodIds(s.pods[uid]));
  }

  /** If the API server only ever describes symmetric matrices, every matrix of the cache is symmetric
      in every reachable state. */
  lemma {:induction false} SymmetryOverRuns(ss: seq<State>, es: seq<Event>, i: nat)
    requires IsRun(ss, es) && i < |ss| && (forall k :: 0 <= k <= i ==> ListerSymmetric(ss[k]))
    ensures NodesSymmetric(ss[i])
  {
    if i == 0 {
      var listed :| Started(ss[0], listed);
      StartedSymmetric(ss[0], listed);
    } else {
      var s, e := ss[i - 1], es[i - 1];
      SymmetryOverRuns(ss, es, i - 1);
      RunKeepsInv(ss, es, i - 1);
      StepKeepsSymmetry(s, e);
      assert ss[i] == Next(s, e);
    }
  }

  /** Hence in every reachable state the best-effort policy selects in range exactly if at least two
      GPUs are requested and two free GPUs are linked, and the order of the device map decides neither
      that nor the winning total. */
  lemma SelectionInRangeOverRuns(
      ss: seq<State>, es: seq<Event>, i: nat, name: string, first: seq<int>, second: seq<int>, req: int)
    requires IsRun(ss, es) && i < |ss| && (forall k :: 0 <= k <= i ==> ListerSymmetric(ss[k]))
    requires name in ss[i].cache.nodes && 1 <= req <= |first|
    requires BestEffort.FreeDevices(ss[i].cache.nodes[name], first)
    requires BestEffort.FreeDevices(ss[i].cache.nodes[name], second)
    ensures var n := ss[i].cache.nodes[name];
            && (BestEffort.Selection(n, first, req).Selected? <==>
                 req >= 2 && BestEffort.SomePairScores(Untouched(n), FreeIds(n)))
            && (BestEffort.Selection(n, first, req).Selected? <==> BestEffort.Selection(n, second, req).Selected?)
            && BestEffort.Best(n, Candidates(first, req)).1 == BestEffort.Best(n, Candidates(second, req)).1
  {
    SymmetryOverRuns(ss, es, i);
    RunKeepsInv(ss, es, i);
    var n := ss[i].cache.nodes[name];
    SelectionIsOriginal(n, first, req);
    BestEffort.SelectionInRange(Untouched(n), first, req);
    BestEffort.OrderDoesNotMatter(n, first, second, req);
  }

  // ---------- Nodes, policies, handlers ----------

  /** Replacing a node that turned from non-GPU to GPU loses no pod. */
  lemma ReplacementLosesNoPod(ss: seq<State>, es: seq<Event>, i: nat, name: string)
    requires IsRun(ss, es) && i < |ss| && name in ss[i].lister && name in ss[i].cache.nodes
    requires NeedsNode(ss[i].cache, name, ss[i].lister[name])
    ensures ss[i].cache.nodes[name].devs == map[]
    ensures forall u :: u in ss[i].claims ==> ss[i].claims[u].name != name
  {
    RunKeepsInv(ss, es, i);
    var s := ss[i];
    assert s.cache.nodes[name].devs.Keys == {} by { IntSets.NoElements(s.cache.nodes[name].devs.Keys); }
    forall u | u in s.claims ensures s.claims[u].name != name {
      ClaimElsewhere(s.cache, s.lister, name, s.claims[u]);
    }
  }

  /** What a policy chooses on the node it is given may be chosen in the transition system. */
  lemma PolicyChoiceIsAllowed(s: State, runner: Runner, uid: UID, name: string, ids: seq<int>)
    requires Inv(s) && RunnerOk(runner) && s.pending.None?
    requires uid in s.pods && s.pods[uid].nodeName == "" && name in s.lister
    requires Chosen(WithNode(s.cache, name, s.lister[name]).nodes[name], runner, s.pods[uid].request, Found(ids))
    ensures Enabled(s, Choose(uid, name, ids))
  {
    WithNodeKeeps(s.cache, s.lister, name, s.claims, Holders(s));
    var n := WithNode(s.cache, name, s.lister[name]).nodes[name];
    assert forall i, j :: (i, j) in n.topology <==> (i, j) in n.spec.topology;
    ChoiceFits(n, runner, s.pods[uid].request, ids);
  }

  /** The commit of an allocation acts on the cache as the corresponding step of the transition system. */
  lemma CommitIsStep(s: State, queue: set<string>, removed: map<string, Pod>)
    requires Enabled(s, Commit)
    ensures var p := s.pending.value;
            var before := Controllers.Control(s.cache, queue, removed);
            Controllers.Handle(before, Controllers.Committed(p.pod, p.name, p.ids))
              == before.(cache := Next(s, Commit).cache)
  {
  }

  /** The controller's synchronisation acts on the cache as the corresponding step of the transition
      system; of a deleted pod the record may differ in whether the pod had completed. */
  lemma SyncPodIsStep(s: State, uid: UID, key: string, pods: map<string, Pod>, removed: map<string, Pod>)
    requires uid in s.pods
    requires if key in pods then pods[key] == s.pods[uid] else key in removed && SamePlace(removed[key], s.pods[uid])
    ensures Controllers.CacheAfterSync(s.cache, key, pods, removed, s.lister)
         == if s.pods[uid].complete || key !in pods then Removed(s, uid).cache else Next(s, SyncAdd(uid)).cache
    ensures s.pods[uid].complete && RemovalGuard(s, uid) ==>
      Enabled(s, SyncRemove(uid)) && Next(s, SyncRemove(uid)) == Removed(s, uid)
  {
    if key !in pods { SamePlaceSameRemoval(s.cache, s.lister, removed[key], s.pods[uid]); }
  }

  /** The two records have the same UID, node and annotation. */
  predicate SamePlace(p: Pod, q: Pod) {
    p.uid == q.uid && p.nodeName == q.nodeName && p.group == q.group
  }

  lemma SamePlaceSameRemoval(c: Cache, lister: Lister, p: Pod, q: Pod)
    requires SamePlace(p, q)
    ensures RemovePod(c, lister, p) == RemovePod(c, lister, q)
  {
    if p.nodeName in lister {
      RemovalByUid(WithNode(c, p.nodeName, lister[p.nodeName]).nodes[p.nodeName], p, q, PodIds(p));
    }
  }

  lemma {:induction false} RemovalByUid(n: Node, p: Pod, q: Pod, ids: seq<int>)
    requires p.uid == q.uid
    ensures RemoveIds(n, p, ids) == RemoveIds(n, q, ids)
  {
    if ids != [] { RemovalByUid(n, p, q, ids[..|ids| - 1]); }
  }
}

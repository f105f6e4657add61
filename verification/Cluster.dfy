/** The scheduler extender as a transition system: allocations in four steps under the policy lock,
    interleaved with the controller's synchronisation of pods and with changes of the cluster. */
module Cluster {
  import opened NodeState
  import opened Codec
  import opened NodeUpdates
  import opened NodeTheory
  import opened CacheState
  import opened GpuPartitions
  import opened Allocation
  import opened StartUp

  datatype Stage = Picked | Written | Bound

  /** The allocation that holds the policy lock. */
  datatype Pending = Pending(pod: Pod, name: string, ids: seq<int>, stage: Stage)

  /** Node and ids a pod was bound with. */
  datatype Claim = Claim(name: string, ids: seq<int>)

  /** `claims` and `held` are history: what each pod was bound with, and which bound pods were added
      (committed or synchronised) and not removed since. */
  datatype State = State(
    lister: Lister, pods: map<UID, Pod>, cache: Cache, pending: Option<Pending>,
    claims: map<UID, Claim>, held: set<UID>)

  datatype Event =
    | ListNode(name: string, spec: NodeSpec)
    | CreatePod(pod: Pod)
    | Choose(uid: UID, name: string, ids: seq<int>)
    | Annotate
    | Bind
    | Commit
    | Abort
    | Finish(uid: UID)
    | SyncAdd(uid: UID)
    | SyncRemove(uid: UID)
    | Restart(listed: seq<Pod>)

  ghost predicate SpecOk(spec: NodeSpec) {
    Decoded(spec.topology, spec.gpuCount) && spec.gpuCount < INT_LIMIT
  }

  /** Pods on the devices of this removal's pod belong to that pod alone. */
  ghost predicate RemovalGuard(s: State, uid: UID)
    requires uid in s.pods
  {
    var pod := s.pods[uid];
    pod.nodeName in s.cache.nodes ==> OnlyHolder(s.cache.nodes[pod.nodeName], pod, PodIds(pod))
  }

  // ---------- Starting ----------

  /** Pods are stored under their UIDs; the bound ones, and only they, have a claim on a listed node,
      which is what their annotation says. */
  ghost predicate BindingsOk(lister: Lister, pods: map<UID, Pod>, claims: map<UID, Claim>) {
    && (forall u :: u in pods ==> pods[u].uid == u && (pods[u].nodeName != "" ==> u in claims))
    && (forall u :: u in claims ==>
          u in pods && pods[u].nodeName == claims[u].name && claims[u].name != "" && claims[u].name in lister)
    && (forall u :: u in claims ==> pods[u].group == Some(Join(ToUints(claims[u].ids))))
    && (forall u, id :: u in claims && id in claims[u].ids ==> -1 <= id < INT_LIMIT)
  }

  /** The claim names GPUs of its node as listed, at least one, and no padding. */
  ghost predicate WithinListed(lister: Lister, c: Claim) {
    && c.name in lister && c.ids != []
    && forall id :: id in c.ids ==> 0 <= id < lister[c.name].gpuCount
  }

  predicate Listed(s: State, listed: seq<Pod>, u: UID) {
    u in s.pods && s.pods[u] in PodSet(listed)
  }

  /** A state right after start-up with these pods listed. Those not listed are complete, and no bound
      pod that is listed is; the listed bound pods are on different devices. */
  ghost predicate Started(s: State, listed: seq<Pod>) {
    && (forall name :: name in s.lister ==> name != "" && SpecOk(s.lister[name]))
    && s.pending.None? && s.cache == Built(s.lister, listed)
    && BindingsOk(s.lister, s.pods, s.claims) && PodSet(listed) <= s.pods.Values
    && (forall u :: u in s.claims ==> WithinListed(s.lister, s.claims[u]))
    && (forall u :: u in s.held <==> u in s.claims && Listed(s, listed, u))
    && (forall u :: u in s.claims ==> (u in s.held <==> !s.pods[u].complete))
    && ApartInv(s.claims, s.held)
  }

  /** The process ends, whatever is in progress, and builds its cache anew. */
  function Restarted(s: State, listed: seq<Pod>): State {
    s.(cache := Built(s.lister, listed), pending := None, held := set u | u in s.claims && Listed(s, listed, u))
  }

  ghost predicate Enabled(s: State, e: Event) {
    match e
    case ListNode(name, spec) => name != "" && SpecOk(spec)
    case CreatePod(pod) => pod.uid !in s.pods && pod.nodeName == "" && pod.group.None? && !pod.complete
    case Choose(uid, name, ids) =>
      && s.pending.None? && uid in s.pods && s.pods[uid].nodeName == "" && name in s.lister
      && ChoiceOk(WithNode(s.cache, name, s.lister[name]).nodes[name], s.pods[uid].request, ids)
    case Annotate => s.pending.Some? && s.pending.value.stage.Picked? && s.pending.value.pod.uid in s.pods
    case Bind => s.pending.Some? && s.pending.value.stage.Written? && s.pending.value.pod.uid in s.pods
    case Commit => s.pending.Some? && s.pending.value.stage.Bound? && s.pending.value.name in s.cache.nodes
    case Abort => s.pending.Some? && !s.pending.value.stage.Bound?
    case Finish(uid) => uid in s.pods
    case SyncAdd(uid) => uid in s.pods && !s.pods[uid].complete
    case SyncRemove(uid) => uid in s.pods && s.pods[uid].complete && RemovalGuard(s, uid)
    case Restart(listed) => Started(Restarted(s, listed), listed)
  }

  function Next(s: State, e: Event): State
    requires Enabled(s, e)
  {
    match e
    case ListNode(name, spec) => s.(lister := s.lister[name := spec])
    case CreatePod(pod) => s.(pods := s.pods[pod.uid := pod])
    case Choose(uid, name, ids) =>
      s.(cache := WithNode(s.cache, name, s.lister[name]),
         pending := Some(Pending(Annotated(s.pods[uid], ids), name, ids, Picked)))
    case Annotate =>
      var p := s.pending.value;
      s.(pods := s.pods[p.pod.uid := Annotated(s.pods[p.pod.uid], p.ids)], pending := Some(p.(stage := Written)))
    case Bind =>
      var p := s.pending.value;
      s.(pods := s.pods[p.pod.uid := s.pods[p.pod.uid].(nodeName := p.name)],
         claims := s.claims[p.pod.uid := Claim(p.name, p.ids)], pending := Some(p.(stage := Bound)))
    case Commit =>
      var p := s.pending.value;
      s.(cache := s.cache.(nodes := s.cache.nodes[p.name := CommitIds(s.cache.nodes[p.name], p.pod, p.ids)]),
         held := s.held + {p.pod.uid}, pending := None)
    case Abort => s.(pending := None)
    case Finish(uid) => s.(pods := s.pods[uid := s.pods[uid].(complete := true)])
    case SyncAdd(uid) =>
      s.(cache := AddPod(s.cache, s.lister, s.pods[uid]),
         held := if s.pods[uid].nodeName != "" then s.held + {uid} else s.held)
    case SyncRemove(uid) => Removed(s, uid)
    case Restart(listed) => Restarted(s, listed)
  }

  /** A synchronisation removes the pod from the cache. */
  function Removed(s: State, uid: UID): State
    requires uid in s.pods
  {
    s.(cache := RemovePod(s.cache, s.lister, s.pods[uid]), held := s.held - {uid})
  }

  // ---------- The invariant ----------

  ghost predicate NodeOk(n: Node) {
    && SpecOk(n.spec) && (forall d :: d in n.devs <==> 0 <= d < n.spec.gpuCount)
    && TopologyAgrees(n) && UsedAgrees(n)
  }

  ghost predicate NodesInv(lister: Lister, nodes: map<string, Node>) {
    && (forall name :: name in lister ==> name != "" && SpecOk(lister[name]))
    && (forall name :: name in nodes ==> name in lister && NodeOk(nodes[name]))
  }

  /** The real ids are devices of the node, and there is at least one. */
  ghost predicate Fits(nodes: map<string, Node>, c: Claim) {
    && c.name in nodes && c.name != ""
    && (forall id :: id in c.ids ==> id == PADDING || id in nodes[c.name].devs)
    && (exists id :: id in c.ids && id != PADDING)
  }

  /** Bound pods, and only they, have a claim, which is what their annotation says. */
  ghost predicate ClaimsInv(pods: map<UID, Pod>, claims: map<UID, Claim>, nodes: map<string, Node>) {
    && (forall u :: u in pods ==> pods[u].uid == u && (pods[u].nodeName != "" ==> u in claims))
    && (forall u :: u in claims ==> u in pods && Fits(nodes, claims[u]) && pods[u].nodeName == claims[u].name)
    && (forall u :: u in claims ==> pods[u].group == Some(Join(ToUints(claims[u].ids))))
  }

  predicate InFlight(s: State, u: UID) {
    s.pending.Some? && s.pending.value.pod.uid == u
  }

  /** The pod is on the devices it claims: it was added and not removed since. With padding in its
      allocation the commit alone counts: no synchronisation adds or removes such a pod. */
  predicate OnDevices(s: State, u: UID) {
    u in s.claims && if PADDING in s.claims[u].ids then !InFlight(s, u) else u in s.held
  }

  function Holders(s: State): set<UID> {
    set u | u in s.claims && OnDevices(s, u)
  }

  predicate Holding(claims: map<UID, Claim>, holders: set<UID>, u: UID, name: string, d: int) {
    u in holders && u in claims && claims[u].name == name && d in claims[u].ids
  }

  /** A pod is in a device's map exactly if it is a holder and claims the device. */
  ghost predicate IndexInv(nodes: map<string, Node>, claims: map<UID, Claim>, holders: set<UID>) {
    forall name, d, u :: name in nodes && d in nodes[name].devs ==>
      (u in nodes[name].devs[d].pods <==> Holding(claims, holders, u, name, d))
  }

  ghost predicate Apart(c: Claim, c': Claim) {
    c.name == c'.name ==> forall d :: d in c.ids && d in c'.ids ==> d == PADDING
  }

  ghost predicate ApartInv(claims: map<UID, Claim>, holders: set<UID>) {
    forall u, v :: u in holders && v in holders && u in claims && v in claims && u != v ==> Apart(claims[u], claims[v])
  }

  function ClaimOf(p: Pending): Claim {
    Claim(p.name, p.ids)
  }

  ghost predicate PendingInv(s: State) {
    s.pending.Some? ==>
      var p := s.pending.value;
      && p.pod.uid in s.pods && Fits(s.cache.nodes, ClaimOf(p))
      && (if p.stage.Bound? then p.pod.uid in s.claims && s.claims[p.pod.uid] == ClaimOf(p)
          else p.pod.uid !in s.claims)
      && (p.stage.Written? ==> s.pods[p.pod.uid].group == Some(Join(ToUints(p.ids))))
  }

  /** The allocation in progress is apart from every other holder. */
  ghost predicate PendingApart(s: State) {
    s.pending.Some? ==>
      forall v :: v in Holders(s) && v in s.claims && v != s.pending.value.pod.uid ==>
        Apart(ClaimOf(s.pending.value), s.claims[v])
  }

  /** Added pods are bound; a bound pod that is not among them is in flight or complete. */
  ghost predicate HeldInv(s: State) {
    && (forall u :: u in s.held ==> u in s.claims)
    && forall u :: u in s.claims && u !in s.held && !InFlight(s, u) ==> u in s.pods && s.pods[u].complete
  }

  /** Known pods are holders, with an annotation that names their devices. */
  ghost predicate KnownInv(known: map<UID, Pod>, claims: map<UID, Claim>, holders: set<UID>) {
    forall u :: u in known ==> u in holders && u in claims && PADDING !in claims[u].ids
  }

  ghost predicate CacheInv(s: State) {
    && NodesInv(s.lister, s.cache.nodes)
    && ClaimsInv(s.pods, s.claims, s.cache.nodes)
    && IndexInv(s.cache.nodes, s.claims, Holders(s))
    && KnownInv(s.cache.known, s.claims, Holders(s))
  }

  ghost predicate Inv(s: State) {
    CacheInv(s) && ApartInv(s.claims, Holders(s)) && PendingInv(s) && PendingApart(s) && HeldInv(s)
  }

  // ---------- Facts about claims ----------

  lemma ClaimIds(pods: map<UID, Pod>, claims: map<UID, Claim>, lister: Lister, nodes: map<string, Node>, u: UID)
    requires ClaimsInv(pods, claims, nodes) && NodesInv(lister, nodes) && u in claims
    ensures PodIds(pods[u]) == if PADDING in claims[u].ids then [] else claims[u].ids
    ensures PodIds(pods[u]) != [] <==> PADDING !in claims[u].ids
  {
    var c := claims[u];
    forall i | 0 <= i < |c.ids| ensures -1 <= c.ids[i] < INT_LIMIT {
      assert c.ids[i] in c.ids;
    }
    AllocationRoundTrip(c.ids);
  }

  /** A node that some claim names has GPUs, so it is not rebuilt. */
  lemma ClaimNodeIsStable(c: Cache, lister: Lister, claim: Claim)
    requires NodesInv(lister, c.nodes) && Fits(c.nodes, claim)
    ensures claim.name in lister && WithNode(c, claim.name, lister[claim.name]) == c
  {
  }

  lemma FitsKept(nodes: map<string, Node>, nodes': map<string, Node>, claim: Claim)
    requires Fits(nodes, claim)
    requires forall name :: name in nodes ==>
      name in nodes' && (nodes'[name].devs.Keys == nodes[name].devs.Keys || nodes[name].devs == map[])
    ensures Fits(nodes', claim)
  {
    var id :| id in claim.ids && id != PADDING;
    assert nodes[claim.name].devs != map[];
  }

  // ---------- Rebuilding a node ----------

  lemma FreshNodeOk(spec: NodeSpec)
    requires SpecOk(spec)
    ensures NodeOk(FreshNode(spec))
  {
  }

  lemma WithNodeKeeps(c: Cache, lister: Lister, name: string, claims: map<UID, Claim>, holders: set<UID>)
    requires NodesInv(lister, c.nodes) && IndexInv(c.nodes, claims, holders) && name in lister
    requires forall u :: u in claims ==> Fits(c.nodes, claims[u])
    ensures var c' := WithNode(c, name, lister[name]);
            && NodesInv(lister, c'.nodes) && IndexInv(c'.nodes, claims, holders)
            && (forall u :: u in claims ==> Fits(c'.nodes, claims[u]))
  {
    if NeedsNode(c, name, lister[name]) {
      var nodes := WithNode(c, name, lister[name]).nodes;
      FreshNodeOk(lister[name]);
      forall u | u in claims ensures Fits(nodes, claims[u]) && claims[u].name != name {
        ClaimElsewhere(c, lister, name, claims[u]);
      }
    }
  }

  lemma ClaimElsewhere(c: Cache, lister: Lister, name: string, claim: Claim)
    requires NodesInv(lister, c.nodes) && Fits(c.nodes, claim) && name in lister && NeedsNode(c, name, lister[name])
    ensures claim.name != name && Fits(WithNode(c, name, lister[name]).nodes, claim)
  {
    var id :| id in claim.ids && id != PADDING;
    assert id in c.nodes[claim.name].devs;
  }

  // ---------- Changing the devices of one node ----------

  lemma NodeOkAfterAdd(n: Node, pod: Pod, ids: seq<int>)
    requires NodeOk(n)
    ensures NodeOk(AddIds(n, pod, ids)) && NodeOk(CommitIds(n, pod, ids))
  {
    AddIdsClosed(n, pod, ids);
    CommitIdsClosed(n, pod, ids);
    TopologyAgreementIsKept(n, pod, ids);
    UsedAgreementIsKept(n, pod, ids);
  }

  lemma NodeOkAfterRemove(n: Node, pod: Pod, ids: seq<int>)
    requires NodeOk(n) && OnlyHolder(n, pod, ids)
    ensures NodeOk(RemoveIds(n, pod, ids))
  {
    RemoveIdsClosed(n, pod, ids);
    TopologyAgreementIsKept(n, pod, ids);
    RemovalKeepsAgreementIff(n, pod, ids);
  }

  /** The pod is put on the devices of its claim. */
  lemma IndexAfterPut(
      nodes: map<string, Node>, claims: map<UID, Claim>, holders: set<UID>, pod: Pod, ids: seq<int>, n: Node)
    requires IndexInv(nodes, claims, holders) && pod.uid in claims && claims[pod.uid].name in nodes
    requires n.devs == DevsWith(nodes[claims[pod.uid].name], pod, ids)
    requires forall d :: d in n.devs ==> (d in ids <==> d in claims[pod.uid].ids)
    ensures IndexInv(nodes[claims[pod.uid].name := n], claims, holders + {pod.uid})
  {
    var here := claims[pod.uid].name;
    var nodes' := nodes[here := n];
    forall name, d, u | name in nodes' && d in nodes'[name].devs
      ensures u in nodes'[name].devs[d].pods <==> Holding(claims, holders + {pod.uid}, u, name, d)
    {
      assert d in nodes[name].devs;
      assert u in nodes[name].devs[d].pods <==> Holding(claims, holders, u, name, d);
    }
  }

  /** The pod is taken off the devices of its claim. */
  lemma IndexAfterRemove(
      nodes: map<string, Node>, claims: map<UID, Claim>, holders: set<UID>, pod: Pod, ids: seq<int>, n: Node)
    requires IndexInv(nodes, claims, holders) && pod.uid in claims && claims[pod.uid].name in nodes
    requires n.devs == DevsWithout(nodes[claims[pod.uid].name], pod, ids)
    requires forall d :: d in n.devs ==> (d in ids <==> d in claims[pod.uid].ids)
    ensures IndexInv(nodes[claims[pod.uid].name := n], claims, holders - {pod.uid})
  {
    var here := claims[pod.uid].name;
    var nodes' := nodes[here := n];
    forall name, d, u | name in nodes' && d in nodes'[name].devs
      ensures u in nodes'[name].devs[d].pods <==> Holding(claims, holders - {pod.uid}, u, name, d)
    {
      assert d in nodes[name].devs;
      assert u in nodes[name].devs[d].pods <==> Holding(claims, holders, u, name, d);
    }
  }

  /** Nodes keep their devices when one of them is changed. */
  lemma NodesAfterChange(lister: Lister, nodes: map<string, Node>, name: string, n: Node)
    requires NodesInv(lister, nodes) && name in nodes && NodeOk(n) && n.devs.Keys == nodes[name].devs.Keys
    ensures NodesInv(lister, nodes[name := n])
    ensures forall c :: Fits(nodes, c) ==> Fits(nodes[name := n], c)
  {
    forall c | Fits(nodes, c) ensures Fits(nodes[name := n], c) {
      FitsKept(nodes, nodes[name := n], c);
    }
  }

  // ---------- Holding pods apart ----------

  /** A pod that may be put on its devices is on them already, or it is in flight and apart from all
      holders. */
  lemma AddedIsApart(s: State, u: UID)
    requires ApartInv(s.claims, Holders(s)) && PendingInv(s) && PendingApart(s)
    requires u in s.claims && (u in Holders(s) || InFlight(s, u))
    ensures ApartInv(s.claims, Holders(s) + {u})
  {
    if u !in Holders(s) {
      assert s.claims[u] == ClaimOf(s.pending.value);
      forall v | v in Holders(s) && v in s.claims && v != u
        ensures Apart(s.claims[u], s.claims[v]) && Apart(s.claims[v], s.claims[u])
      {
        assert Apart(ClaimOf(s.pending.value), s.claims[v]);
      }
    } else {
      assert Holders(s) + {u} == Holders(s);
    }
  }

  /** Free devices are claimed by no holder. */
  lemma FreeIsApart(nodes: map<string, Node>, claims: map<UID, Claim>, holders: set<UID>, name: string, ids: seq<int>)
    requires IndexInv(nodes, claims, holders)
    requires name in nodes && NodeOk(nodes[name]) && Reals(ids) <= FreeIds(nodes[name])
    ensures forall v :: v in holders && v in claims ==> Apart(Claim(name, ids), claims[v])
  {
    forall v, d | v in holders && v in claims && claims[v].name == name && d in ids && d in claims[v].ids
      ensures d == PADDING
    {
      if d != PADDING {
        assert d in Reals(ids) && d in FreeIds(nodes[name]);
        assert Holding(claims, holders, v, name, d);
      }
    }
  }

  // ---------- The steps keep the invariant ----------

  lemma SameHolders(s: State, s': State)
    requires s'.claims == s.claims && s'.held == s.held
    requires forall u :: u in s.claims ==> (InFlight(s', u) <==> InFlight(s, u))
    ensures Holders(s') == Holders(s)
  {
  }

  lemma ListNodeKeeps(s: State, name: string, spec: NodeSpec)
    requires Inv(s) && Enabled(s, ListNode(name, spec))
    ensures Inv(Next(s, ListNode(name, spec)))
  {
    SameHolders(s, Next(s, ListNode(name, spec)));
  }

  lemma CreatePodKeeps(s: State, pod: Pod)
    requires Inv(s) && Enabled(s, CreatePod(pod))
    ensures Inv(Next(s, CreatePod(pod)))
  {
    SameHolders(s, Next(s, CreatePod(pod)));
  }

  lemma ChooseCache(s: State, uid: UID, name: string, ids: seq<int>)
    requires CacheInv(s) && Enabled(s, Choose(uid, name, ids))
    ensures var s' := Next(s, Choose(uid, name, ids));
            Holders(s') == Holders(s) && CacheInv(s') && uid !in s.claims
  {
    SameHolders(s, Next(s, Choose(uid, name, ids)));
    WithNodeKeeps(s.cache, s.lister, name, s.claims, Holders(s));
  }

  lemma ChooseKeeps(s: State, uid: UID, name: string, ids: seq<int>)
    requires Inv(s) && Enabled(s, Choose(uid, name, ids))
    ensures Inv(Next(s, Choose(uid, name, ids)))
  {
    var s' := Next(s, Choose(uid, name, ids));
    ChooseCache(s, uid, name, ids);
    FreeIsApart(s'.cache.nodes, s.claims, Holders(s), name, ids);
    ChoiceFitsNode(s'.cache.nodes, s.pods[uid].request, name, ids);
  }

  lemma ChoiceFitsNode(nodes: map<string, Node>, req: int, name: string, ids: seq<int>)
    requires name in nodes && name != "" && ChoiceOk(nodes[name], req, ids)
    ensures Fits(nodes, Claim(name, ids))
  {
    assert forall id :: id in ids ==> id == PADDING || id in Reals(ids);
    var id :| id in Reals(ids);
    assert id in ids && id != PADDING;
  }

  lemma AnnotateKeeps(s: State)
    requires Inv(s) && Enabled(s, Annotate)
    ensures Inv(Next(s, Annotate))
  {
    SameHolders(s, Next(s, Annotate));
  }

  lemma ClaimsAfterBind(pods: map<UID, Pod>, claims: map<UID, Claim>, nodes: map<string, Node>, p: Pending)
    requires ClaimsInv(pods, claims, nodes) && p.pod.uid in pods && Fits(nodes, ClaimOf(p))
    requires pods[p.pod.uid].group == Some(Join(ToUints(p.ids)))
    ensures ClaimsInv(pods[p.pod.uid := pods[p.pod.uid].(nodeName := p.name)], claims[p.pod.uid := ClaimOf(p)], nodes)
  {
  }

  lemma BindHolders(s: State)
    requires PendingInv(s) && HeldInv(s) && Enabled(s, Bind)
    ensures Holders(Next(s, Bind)) == Holders(s) && s.pending.value.pod.uid !in s.claims
  {
  }

  lemma BindCache(s: State)
    requires CacheInv(s) && PendingInv(s) && HeldInv(s) && Enabled(s, Bind)
    ensures CacheInv(Next(s, Bind))
  {
    BindHolders(s);
    ClaimsAfterBind(s.pods, s.claims, s.cache.nodes, s.pending.value);
  }

  lemma BindKeeps(s: State)
    requires Inv(s) && Enabled(s, Bind)
    ensures Inv(Next(s, Bind))
  {
    BindCache(s);
    BindHolders(s);
  }

  lemma AbortKeeps(s: State)
    requires Inv(s) && Enabled(s, Abort)
    ensures Inv(Next(s, Abort))
  {
    SameHolders(s, Next(s, Abort));
  }

  lemma FinishCache(s: State, uid: UID)
    requires CacheInv(s) && Enabled(s, Finish(uid))
    ensures CacheInv(Next(s, Finish(uid)))
  {
    SameHolders(s, Next(s, Finish(uid)));
  }

  lemma FinishRest(s: State, uid: UID)
    requires PendingInv(s) && PendingApart(s) && HeldInv(s) && Enabled(s, Finish(uid))
    ensures var s' := Next(s, Finish(uid)); PendingInv(s') && PendingApart(s') && HeldInv(s')
  {
    SameHolders(s, Next(s, Finish(uid)));
  }

  lemma FinishKeeps(s: State, uid: UID)
    requires Inv(s) && Enabled(s, Finish(uid))
    ensures Inv(Next(s, Finish(uid)))
  {
    SameHolders(s, Next(s, Finish(uid)));
    FinishCache(s, uid);
    FinishRest(s, uid);
  }

  lemma CommitHolders(s: State)
    requires PendingInv(s) && Enabled(s, Commit)
    ensures Holders(Next(s, Commit)) == Holders(s) + {s.pending.value.pod.uid}
  {
  }

  lemma CommitCache(s: State)
    requires CacheInv(s) && PendingInv(s) && Enabled(s, Commit)
    ensures CacheInv(Next(s, Commit))
  {
    var p := s.pending.value;
    var n := s.cache.nodes[p.name];
    var n' := CommitIds(n, p.pod, p.ids);
    CommitHolders(s);
    NodeOkAfterAdd(n, p.pod, p.ids);
    CommitIdsClosed(n, p.pod, p.ids);
    NodesAfterChange(s.lister, s.cache.nodes, p.name, n');
    IndexAfterPut(s.cache.nodes, s.claims, Holders(s), p.pod, p.ids, n');
  }

  lemma CommitKeeps(s: State)
    requires Inv(s) && Enabled(s, Commit)
    ensures Inv(Next(s, Commit))
  {
    CommitCache(s);
    CommitHolders(s);
    AddedIsApart(s, s.pending.value.pod.uid);
  }

  lemma SyncAddHolders(s: State, uid: UID)
    requires ClaimsInv(s.pods, s.claims, s.cache.nodes) && Enabled(s, SyncAdd(uid))
    ensures Holders(Next(s, SyncAdd(uid)))
         == if uid in s.claims && PADDING !in s.claims[uid].ids then Holders(s) + {uid} else Holders(s)
  {
  }

  /** What a synchronisation does to the nodes: it acts on the node of the claim. */
  lemma SyncNodes(s: State, uid: UID)
    requires CacheInv(s) && uid in s.claims && uid in s.pods
    ensures s.claims[uid].name in s.cache.nodes && s.pods[uid].nodeName == s.claims[uid].name && s.pods[uid].uid == uid
    ensures var pod, name := s.pods[uid], s.claims[uid].name;
            var n := s.cache.nodes[name];
            && NodeOk(n) && (forall id :: id in s.claims[uid].ids ==> id == PADDING || id in n.devs)
            && AddPod(s.cache, s.lister, pod).nodes == s.cache.nodes[name := AddIds(n, pod, PodIds(pod))]
            && RemovePod(s.cache, s.lister, pod).nodes == s.cache.nodes[name := RemoveIds(n, pod, PodIds(pod))]
  {
    ClaimNodeIsStable(s.cache, s.lister, s.claims[uid]);
  }

  /** What a synchronisation does to the known pods. */
  lemma SyncKnown(s: State, uid: UID)
    requires CacheInv(s) && uid in s.claims && uid in s.pods
    ensures RemovePod(s.cache, s.lister, s.pods[uid]).known == s.cache.known - {uid}
    ensures AddPod(s.cache, s.lister, s.pods[uid]).known
         == if PADDING in s.claims[uid].ids then s.cache.known else s.cache.known[uid := s.pods[uid]]
  {
    ClaimNodeIsStable(s.cache, s.lister, s.claims[uid]);
    ClaimIds(s.pods, s.claims, s.lister, s.cache.nodes, uid);
  }

  /** The nodes after adding a bound pod, and who is on them. */
  lemma AddedNodes(s: State, uid: UID)
    requires CacheInv(s) && uid in s.claims && uid in s.pods
    ensures var nodes' := AddPod(s.cache, s.lister, s.pods[uid]).nodes;
            && NodesInv(s.lister, nodes') && (forall c :: Fits(s.cache.nodes, c) ==> Fits(nodes', c))
            && IndexInv(nodes', s.claims, if PADDING in s.claims[uid].ids then Holders(s) else Holders(s) + {uid})
  {
    var pod, name := s.pods[uid], s.claims[uid].name;
    SyncNodes(s, uid);
    ClaimIds(s.pods, s.claims, s.lister, s.cache.nodes, uid);
    var n, ids := s.cache.nodes[name], PodIds(pod);
    var n' := AddIds(n, pod, ids);
    AddIdsClosed(n, pod, ids);
    NodeOkAfterAdd(n, pod, ids);
    NodesAfterChange(s.lister, s.cache.nodes, name, n');
    if PADDING in s.claims[uid].ids {
      assert n' == n && s.cache.nodes[name := n] == s.cache.nodes;
    } else {
      IndexAfterPut(s.cache.nodes, s.claims, Holders(s), pod, ids, n');
    }
  }

  /** The nodes after removing a bound pod that nobody shares a device with, and who is on them. */
  lemma RemovedNodes(s: State, uid: UID)
    requires CacheInv(s) && uid in s.claims && uid in s.pods && RemovalGuard(s, uid)
    ensures var nodes' := RemovePod(s.cache, s.lister, s.pods[uid]).nodes;
            && NodesInv(s.lister, nodes') && (forall c :: Fits(s.cache.nodes, c) ==> Fits(nodes', c))
            && IndexInv(nodes', s.claims, if PADDING in s.claims[uid].ids then Holders(s) else Holders(s) - {uid})
  {
    var pod, name := s.pods[uid], s.claims[uid].name;
    SyncNodes(s, uid);
    ClaimIds(s.pods, s.claims, s.lister, s.cache.nodes, uid);
    var n := s.cache.nodes[name];
    NodesWithout(s.lister, s.cache.nodes, name, pod);
    if PADDING in s.claims[uid].ids {
      assert RemoveIds(n, pod, PodIds(pod)) == n && s.cache.nodes[name := n] == s.cache.nodes;
    } else {
      RemovedDevices(n, pod, PodIds(pod));
      IndexAfterRemove(s.cache.nodes, s.claims, Holders(s), pod, PodIds(pod), RemoveIds(n, pod, PodIds(pod)));
    }
  }

  lemma NodesWithout(lister: Lister, nodes: map<string, Node>, name: string, pod: Pod)
    requires NodesInv(lister, nodes) && name in nodes && OnlyHolder(nodes[name], pod, PodIds(pod))
    ensures var nodes' := nodes[name := RemoveIds(nodes[name], pod, PodIds(pod))];
            NodesInv(lister, nodes') && forall c :: Fits(nodes, c) ==> Fits(nodes', c)
  {
    var n, ids := nodes[name], PodIds(pod);
    NodeOkAfterRemove(n, pod, ids);
    RemovedDevices(n, pod, ids);
    NodesAfterChange(lister, nodes, name, RemoveIds(n, pod, ids));
  }

  lemma RemovedDevices(n: Node, pod: Pod, ids: seq<int>)
    requires NodeOk(n)
    ensures RemoveIds(n, pod, ids).devs == DevsWithout(n, pod, ids)
    ensures RemoveIds(n, pod, ids).devs.Keys == n.devs.Keys
  {
    RemoveIdsClosed(n, pod, ids);
  }

  lemma SyncAddCache(s: State, uid: UID)
    requires CacheInv(s) && Enabled(s, SyncAdd(uid)) && s.pods[uid].nodeName != ""
    ensures CacheInv(Next(s, SyncAdd(uid)))
    ensures var nodes, nodes' := s.cache.nodes, Next(s, SyncAdd(uid)).cache.nodes;
            forall c :: Fits(nodes, c) ==> Fits(nodes', c)
  {
    SyncAddHolders(s, uid);
    AddedNodes(s, uid);
    SyncKnown(s, uid);
  }

  /** A pod that is synchronised is on its devices already, or in flight. */
  lemma SyncAddApart(s: State, uid: UID)
    requires Inv(s) && Enabled(s, SyncAdd(uid))
    ensures var s' := Next(s, SyncAdd(uid)); ApartInv(s'.claims, Holders(s')) && PendingApart(s')
  {
    SyncAddHolders(s, uid);
    if uid in s.claims && PADDING !in s.claims[uid].ids { AddedIsApart(s, uid); }
  }

  lemma SyncAddRest(s: State, uid: UID)
    requires CacheInv(s) && PendingInv(s) && HeldInv(s) && Enabled(s, SyncAdd(uid)) && s.pods[uid].nodeName != ""
    ensures var s' := Next(s, SyncAdd(uid)); PendingInv(s') && HeldInv(s')
  {
    SyncAddCache(s, uid);
  }

  lemma SyncAddKeeps(s: State, uid: UID)
    requires Inv(s) && Enabled(s, SyncAdd(uid))
    ensures Inv(Next(s, SyncAdd(uid)))
  {
    if s.pods[uid].nodeName != "" {
      SyncAddCache(s, uid);
      SyncAddRest(s, uid);
      SyncAddApart(s, uid);
    } else {
      assert Next(s, SyncAdd(uid)) == s;
    }
  }

  lemma SyncRemoveHolders(s: State, uid: UID)
    requires HeldInv(s) && uid in s.pods
    ensures Holders(Removed(s, uid))
         == if uid in s.claims && PADDING !in s.claims[uid].ids then Holders(s) - {uid} else Holders(s)
  {
  }

  lemma SyncRemoveCache(s: State, uid: UID)
    requires CacheInv(s) && HeldInv(s) && Enabled(s, SyncRemove(uid)) && s.pods[uid].nodeName != ""
    ensures CacheInv(Next(s, SyncRemove(uid)))
    ensures var nodes, nodes' := s.cache.nodes, Next(s, SyncRemove(uid)).cache.nodes;
            forall c :: Fits(nodes, c) ==> Fits(nodes', c)
  {
    SyncRemoveHolders(s, uid);
    RemovedNodes(s, uid);
    SyncKnown(s, uid);
  }

  lemma SyncRemoveApart(s: State, uid: UID)
    requires Inv(s) && Enabled(s, SyncRemove(uid))
    ensures var s' := Next(s, SyncRemove(uid)); ApartInv(s'.claims, Holders(s')) && PendingApart(s') && HeldInv(s')
  {
    SyncRemoveHolders(s, uid);
  }

  lemma SyncRemoveKeeps(s: State, uid: UID)
    requires Inv(s) && Enabled(s, SyncRemove(uid))
    ensures Inv(Next(s, SyncRemove(uid)))
  {
    SyncRemoveApart(s, uid);
    if s.pods[uid].nodeName != "" {
      SyncRemoveCache(s, uid);
      SyncRemovePending(s, uid);
    } else {
      SyncRemoveUnbound(s, uid);
    }
  }

  lemma SyncRemovePending(s: State, uid: UID)
    requires CacheInv(s) && PendingInv(s) && HeldInv(s) && Enabled(s, SyncRemove(uid)) && s.pods[uid].nodeName != ""
    ensures PendingInv(Next(s, SyncRemove(uid)))
  {
    SyncRemoveCache(s, uid);
  }

  /** A pod that is not bound is only forgotten. */
  lemma SyncRemoveUnbound(s: State, uid: UID)
    requires CacheInv(s) && PendingInv(s) && HeldInv(s) && Enabled(s, SyncRemove(uid)) && s.pods[uid].nodeName == ""
    ensures CacheInv(Next(s, SyncRemove(uid))) && PendingInv(Next(s, SyncRemove(uid)))
  {
    SyncRemoveHolders(s, uid);
  }

  // ---------- Start-up gives the invariant ----------

  predicate Occupies(nodes: map<string, Node>, name: string, d: int, u: UID) {
    name in nodes && d in nodes[name].devs && u in nodes[name].devs[d].pods
  }

  /** The pod claims this real device. */
  ghost predicate Claims(claims: map<UID, Claim>, u: UID, name: string, d: int) {
    u in claims && claims[u].name == name && d in claims[u].ids && d != PADDING
  }

  /** Start-up puts the pod on the device: it is listed, its annotation lists GPUs, and the device exists. */
  ghost predicate Rebuilt(s: State, listed: seq<Pod>, u: UID, d: int) {
    && u in s.claims && s.claims[u].name in s.lister
    && Listed(s, listed, u) && PADDING !in s.claims[u].ids && 0 <= d < s.lister[s.claims[u].name].gpuCount
  }

  lemma ListingIsProper(s: State, listed: seq<Pod>)
    requires BindingsOk(s.lister, s.pods, s.claims) && PodSet(listed) <= s.pods.Values
    ensures UniqueUids(PodSet(listed)) && NodesListed(s.lister, PodSet(listed))
  {
    forall p | p in PodSet(listed) ensures p.uid in s.pods && s.pods[p.uid] == p {
    }
  }

  lemma AnnotatedIds(s: State, u: UID)
    requires BindingsOk(s.lister, s.pods, s.claims) && u in s.claims
    ensures PodIds(s.pods[u]) == if PADDING in s.claims[u].ids then [] else s.claims[u].ids
  {
    var ids := s.claims[u].ids;
    forall i | 0 <= i < |ids| ensures -1 <= ids[i] < INT_LIMIT {
      assert ids[i] in ids;
    }
    AllocationRoundTrip(ids);
  }

  lemma PodIsOn(s: State, u: UID, name: string, d: int)
    requires BindingsOk(s.lister, s.pods, s.claims) && u in s.pods
    ensures On(s.pods[u], name, d) <==> Claims(s.claims, u, name, d) && PADDING !in s.claims[u].ids
  {
    if u in s.claims { AnnotatedIds(s, u); }
  }

  /** Who is where after start-up. */
  lemma OccupiesBuilt(s: State, listed: seq<Pod>, name: string, d: int, u: UID)
    requires BindingsOk(s.lister, s.pods, s.claims) && PodSet(listed) <= s.pods.Values
    ensures Occupies(Built(s.lister, listed).nodes, name, d, u)
       <==> Claims(s.claims, u, name, d) && Rebuilt(s, listed, u, d)
  {
    var nodes, ps := Built(s.lister, listed).nodes, PodSet(listed);
    ListingIsProper(s, listed);
    BuiltIsExact(s.lister, listed);
    if u in s.pods {
      PodIsOn(s, u, name, d);
      if Listed(s, listed, u) && On(s.pods[u], name, d) { assert NodeListed(ps, name); }
    }
    if name in nodes && d in nodes[name].devs {
      assert DeviceOf(nodes[name].devs[d], ps, name, d);
      if u in nodes[name].devs[d].pods {
        assert nodes[name].devs[d].pods[u] in ps && nodes[name].devs[d].pods[u].uid == u;
        assert nodes[name].devs[d].pods[u] == s.pods[u];
      }
    }
  }

  lemma BuiltNodeOk(n: Node, spec: NodeSpec, ps: set<Pod>, name: string)
    requires NodeOf(n, spec, ps, name) && SpecOk(spec)
    ensures NodeOk(n)
  {
    forall d | d in n.devs ensures n.devs[d].isUsed <==> n.devs[d].pods != map[] {
      assert DeviceOf(n.devs[d], ps, name, d);
      if n.devs[d].pods != map[] {
        assert n.devs[d].pods.Keys != {};
        var u :| u in n.devs[d].pods;
        assert On(n.devs[d].pods[u], name, d);
      }
    }
  }

  lemma StartedNodes(s: State, listed: seq<Pod>)
    requires Started(s, listed)
    ensures NodesInv(s.lister, s.cache.nodes) && ClaimsInv(s.pods, s.claims, s.cache.nodes)
  {
    ListingIsProper(s, listed);
    BuiltIsExact(s.lister, listed);
    forall name | name in s.cache.nodes ensures NodeOk(s.cache.nodes[name]) {
      BuiltNodeOk(s.cache.nodes[name], s.lister[name], PodSet(listed), name);
    }
    forall u | u in s.claims ensures Fits(s.cache.nodes, s.claims[u]) {
      var c := s.claims[u];
      assert c.ids[0] in c.ids;
    }
  }

  lemma StartedHolders(s: State, listed: seq<Pod>)
    requires Started(s, listed)
    ensures Holders(s) == s.held
  {
    forall u | u in s.claims ensures PADDING !in s.claims[u].ids {
      assert WithinListed(s.lister, s.claims[u]);
    }
  }

  lemma StartedIndex(s: State, listed: seq<Pod>)
    requires Started(s, listed)
    ensures IndexInv(s.cache.nodes, s.claims, s.held)
  {
    forall name, d, u | name in s.cache.nodes && d in s.cache.nodes[name].devs
      ensures u in s.cache.nodes[name].devs[d].pods <==> Holding(s.claims, s.held, u, name, d)
    {
      OccupiesBuilt(s, listed, name, d, u);
      if u in s.claims { assert WithinListed(s.lister, s.claims[u]); }
    }
  }

  lemma StartedKnown(s: State, listed: seq<Pod>)
    requires Started(s, listed)
    ensures KnownInv(s.cache.known, s.claims, s.held)
  {
    ListingIsProper(s, listed);
    BuiltIsExact(s.lister, listed);
    forall u | u in s.cache.known ensures u in s.held && u in s.claims && PADDING !in s.claims[u].ids {
      assert s.cache.known[u] in PodSet(listed) && s.cache.known[u] == s.pods[u];
      assert Assigned(s.pods[u]) && WithinListed(s.lister, s.claims[u]);
    }
  }

  /** Whatever pods the cluster has, start-up establishes the invariant. */
  lemma StartedInv(s: State, listed: seq<Pod>)
    requires Started(s, listed)
    ensures Inv(s)
  {
    StartedHolders(s, listed);
    StartedNodes(s, listed);
    StartedIndex(s, listed);
    StartedKnown(s, listed);
  }

  lemma StepKeeps(s: State, e: Event)
    requires Inv(s) && Enabled(s, e)
    ensures Inv(Next(s, e))
  {
    match e
    case ListNode(name, spec) => ListNodeKeeps(s, name, spec);
    case CreatePod(pod) => CreatePodKeeps(s, pod);
    case Choose(uid, name, ids) => ChooseKeeps(s, uid, name, ids);
    case Annotate => AnnotateKeeps(s);
    case Bind => BindKeeps(s);
    case Commit => CommitKeeps(s);
    case Abort => AbortKeeps(s);
    case Finish(uid) => FinishKeeps(s, uid);
    case SyncAdd(uid) => SyncAddKeeps(s, uid);
    case SyncRemove(uid) => SyncRemoveKeeps(s, uid);
    case Restart(listed) => StartedInv(Restarted(s, listed), listed);
  }
}

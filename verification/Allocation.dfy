/** Allocating GPUs to a pod (pkg/policy/allocate.go): choose, annotate, bind, commit. */
module Allocation {
  import IntSets
  import opened NodeState
  import opened Codec
  import opened NodeUpdates
  import opened NodeInfos
  import opened NodeTheory
  import opened GpuPartitions
  import opened PartitionTheory
  import opened BestEffort
  import opened PaddedSelection
  import opened StaticPolicy

  datatype Runner = BestRunner | StaticRunner(config: Config)

  datatype Choice = NotFound | Found(ids: seq<int>) | OutOfBounds

  /** Reply of the API server to the update: a conflict is answered by fetching the pod and trying again. */
  datatype UpdateReply = Updated | Conflict(current: Option<Pod>, retried: bool) | Refused

  datatype Result = Allocated(pod: Pod, ids: seq<int>) | Failed | Panicked

  // ---------- Specification ----------

  /** Ids a runner may choose: distinct free GPUs, possibly with padding, `req` entries in all. */
  ghost predicate ChoiceOk(n: Node, req: int, ids: seq<int>) {
    && |ids| == req >= 1 && NoRepeat(ids) && Reals(ids) <= FreeIds(n)
    && exists id :: id in Reals(ids)
  }

  ghost predicate Chosen(n: Node, runner: Runner, req: int, choice: Choice) {
    if req <= 0 || req > |FreeIds(n)| then choice == NotFound
    else match runner
      case BestRunner => exists r :: SelectsFrom(n, req, r) && choice == FromBest(r)
      case StaticRunner(config) => exists r :: StaticChoice(n, config, req, r) && choice == FromStatic(r)
  }

  function FromBest(r: Outcome): Choice {
    match r
    case Invalid => NotFound
    case IndexOutOfRange => OutOfBounds
    case Selected(ids, _) => Found(ids)
  }

  function FromStatic(r: StaticOutcome): Choice {
    match r
    case Configured(ids, _) => Found(ids)
    case TooShort => OutOfBounds
    case _ => NotFound
  }

  lemma BestFits(n: Node, devices: seq<int>, req: int)
    requires FreeDevices(n, devices) && Selection(n, devices, req).Selected?
    ensures ChoiceOk(n, req, Selection(n, devices, req).ids)
  {
    if req == 1 {
      SinglesScoreNothing(n, devices);
      assert false;
    }
    var kept := Best(n, Candidates(devices, req)).0;
    BestIsMaximal(n, Candidates(devices, req));
    CandidatesAreExact(devices, req);
    PaddedReals(devices, req);
    BestBlockIsMaximal(n, kept);
    var ids := BestBlock(n, kept).0;
    assert Reals(ids) in Shape(kept);
    IntSets.NonEmpty(Reals(ids));
  }

  lemma StaticFits(n: Node, config: Config, req: int, r: StaticOutcome)
    requires StaticChoice(n, config, req, r) && WellFormedConfig(config) && r.Configured?
    requires forall id :: id in n.devs ==> id >= 0
    ensures ChoiceOk(n, req, r.ids) && PADDING !in r.ids
  {
    StaticIds(n, config, req, r);
    assert forall id :: id in r.ids ==> id in FreeIds(n);
    var id := r.ids[0];
    assert id in r.ids && id in n.devs;
    assert id in Reals(r.ids);
  }

  ghost predicate RunnerOk(runner: Runner) {
    runner.StaticRunner? ==> WellFormedConfig(runner.config)
  }

  /** Whatever the runner, a choice consists of distinct free GPUs; only the best-effort runner can
      add padding. */
  lemma ChoiceFits(n: Node, runner: Runner, req: int, ids: seq<int>)
    requires WellFormed(n) && RunnerOk(runner) && Chosen(n, runner, req, Found(ids))
    ensures ChoiceOk(n, req, ids) && (PADDING in ids ==> runner.BestRunner?)
  {
    match runner
    case BestRunner =>
      var r :| SelectsFrom(n, req, r) && Found(ids) == FromBest(r);
      var devices :| FreeDevices(n, devices) && r == Selection(n, devices, req);
      BestFits(n, devices, req);
    case StaticRunner(config) =>
      var r :| StaticChoice(n, config, req, r) && Found(ids) == FromStatic(r);
      StaticFits(n, config, req, r);
  }

  /** Whatever the runner and its configuration, it chooses free GPUs only. */
  lemma ChoiceIsFree(n: Node, runner: Runner, req: int, ids: seq<int>)
    requires WellFormed(n) && Chosen(n, runner, req, Found(ids))
    ensures Reals(ids) <= FreeIds(n)
  {
    match runner
    case BestRunner => ChoiceFits(n, runner, req, ids);
    case StaticRunner(config) =>
      var r :| StaticChoice(n, config, req, r) && Found(ids) == FromStatic(r);
      StaticIdsAreFree(n, config, req, r);
  }

  // ---------- When a choice is found ----------

  /** The request fits, and the best-effort policy finds two linked GPUs for more than one, the static
      policy a free set that is large enough. */
  ghost predicate CanChoose(n: Node, runner: Runner, req: int) {
    && 1 <= req <= |FreeIds(n)|
    && match runner
       case BestRunner => req >= 2 && SomePairScores(n, FreeIds(n))
       case StaticRunner(config) => exists k, s :: k >= req && k in config && s in config[k] && Free(n, s)
  }

  ghost predicate Predictable(n: Node, runner: Runner) {
    match runner
    case BestRunner => Symmetric(n.topology)
    case StaticRunner(config) => WellFormedConfig(config)
  }

  lemma BestIsFoundIff(n: Node, req: int, choice: Choice)
    requires Chosen(n, BestRunner, req, choice) && 1 <= req <= |FreeIds(n)| && Symmetric(n.topology)
    ensures choice.Found? <==> CanChoose(n, BestRunner, req)
    ensures choice == OutOfBounds <==> !CanChoose(n, BestRunner, req)
  {
    var r :| SelectsFrom(n, req, r) && choice == FromBest(r);
    var devices :| FreeDevices(n, devices) && r == Selection(n, devices, req);
    FreeDevicesCount(n, devices);
    SelectionInRange(n, devices, req);
  }

  lemma StaticIsFoundIff(n: Node, config: Config, req: int, choice: Choice)
    requires Chosen(n, StaticRunner(config), req, choice) && 1 <= req <= |FreeIds(n)| && WellFormedConfig(config)
    ensures choice.Found? <==> CanChoose(n, StaticRunner(config), req)
    ensures choice == NotFound <==> !CanChoose(n, StaticRunner(config), req)
  {
    var r :| StaticChoice(n, config, req, r) && choice == FromStatic(r);
    StaticSucceeds(n, config, req, r);
    OutOfRangeIff(n, config, req, r);
    if r.TooShort? { LongEnough(n, config, req, r); }
  }

  /** For any configuration the static policy panics exactly if the first fitting set is one of a larger
      size that lists fewer ids than requested. */
  lemma StaticPanicsIff(n: Node, config: Config, req: int, choice: Choice)
    requires Chosen(n, StaticRunner(config), req, choice)
    ensures choice == OutOfBounds <==>
      1 <= req <= |FreeIds(n)|
      && exists k: int, at: nat :: FirstFitting(n, config, req, k, at) && k > req && |config[k][at]| < req
  {
    if 1 <= req <= |FreeIds(n)| {
      var r :| StaticChoice(n, config, req, r) && choice == FromStatic(r);
      PanicsIff(n, config, req, r);
    }
  }

  /** What `allocateGPUID` answers: GPUs exactly if they can be chosen; otherwise the best-effort policy
      panics for a request that fits, and nothing is found in the other cases. */
  lemma FoundIff(n: Node, runner: Runner, req: int, choice: Choice)
    requires Chosen(n, runner, req, choice) && Predictable(n, runner)
    ensures choice.Found? <==> CanChoose(n, runner, req)
    ensures choice == OutOfBounds <==> runner.BestRunner? && 1 <= req <= |FreeIds(n)| && !CanChoose(n, runner, req)
  {
    if 1 <= req <= |FreeIds(n)| {
      match runner
      case BestRunner => BestIsFoundIff(n, req, choice);
      case StaticRunner(config) => StaticIsFoundIff(n, config, req, choice);
    }
  }

  /** The ids found by the best-effort policy are the first best block of the first best candidate, for
      some order of the device map. */
  lemma BestIdsFound(n: Node, req: int, ids: seq<int>)
    requires Chosen(n, BestRunner, req, Found(ids))
    ensures exists devices, i: nat, b: nat, score ::
      FreeDevices(n, devices) && FirstChoice(n, Candidates(devices, req), i, b, Selected(ids, score))
  {
    var r :| SelectsFrom(n, req, r) && Found(ids) == FromBest(r);
    var devices :| FreeDevices(n, devices) && r == Selection(n, devices, req);
    SelectionIsFirst(n, devices, req);
    var i: nat, b: nat :| FirstChoice(n, Candidates(devices, req), i, b, r);
    assert FirstChoice(n, Candidates(devices, req), i, b, Selected(ids, r.score));
  }

  /** The ids found by the static policy are the smallest of the first fitting set of the smallest fitting
      size. */
  lemma StaticIdsFound(n: Node, config: Config, req: int, ids: seq<int>)
    requires Chosen(n, StaticRunner(config), req, Found(ids))
    ensures exists k: int, at: nat :: FirstFitting(n, config, req, k, at)
              && Smallest(ids, config[k][at], if k == req then |config[k][at]| else req)
  {
    var r :| StaticChoice(n, config, req, r) && Found(ids) == FromStatic(r);
    StaticIsSmallest(n, config, req, r);
  }

  /** The pod that is annotated: the given one, or the one fetched after a conflict. */
  function Base(pod: Pod, reply: UpdateReply): Option<Pod> {
    match reply
    case Updated => Some(pod)
    case Conflict(current, retried) => if retried then current else None
    case Refused => None
  }

  // ---------- The program ----------

  /** `allocateGPUID` */
  method AllocateGPUID(runner: Runner, req: int, n: NodeInfo) returns (choice: Choice)
    requires n.Valid()
    ensures Chosen(n.State(), runner, req, choice)
  {
    var node := n.State();
    n.StateIsWellFormed();
    FreeAndUsed(node);
    var availableGPUs := AvailableGPUs(node);
    choice := NotFound;
    if req > 0 && availableGPUs > 0 && availableGPUs - req >= 0 {
      choice := RunAllocate(runner, req, node);
    }
  }

  /** `Run.Allocate` */
  method RunAllocate(runner: Runner, req: int, node: Node) returns (choice: Choice)
    requires WellFormed(node) && 1 <= req <= |FreeIds(node)|
    ensures Chosen(node, runner, req, choice)
  {
    match runner
    case BestRunner =>
      var r := BestEffort.PreAllocate(node, req);
      choice := FromBest(r);
    case StaticRunner(config) =>
      var r := StaticPolicy.PreAllocate(node, config, req);
      choice := FromStatic(r);
  }

  /** What `Policy.Allocate` returns for given replies of the API server. */
  ghost predicate AllocateResult(n: Node, runner: Runner, pod: Pod, reply: UpdateReply, bound: bool, r: Result) {
    match r
    case Panicked => Chosen(n, runner, pod.request, OutOfBounds)
    case Allocated(newPod, ids) =>
      && Chosen(n, runner, pod.request, Found(ids)) && bound
      && Base(pod, reply).Some? && newPod == Annotated(Base(pod, reply).value, ids)
    case Failed =>
      || Chosen(n, runner, pod.request, NotFound)
      || ((exists ids :: Chosen(n, runner, pod.request, Found(ids))) && (Base(pod, reply).None? || !bound))
  }

  /** `Policy.Allocate`, run under the policy lock: only a successful bind changes the devices. */
  method Allocate(runner: Runner, pod: Pod, n: NodeInfo, reply: UpdateReply, bound: bool) returns (r: Result)
    requires n.Valid() && n.gpuCount < INT_LIMIT
    modifies n.repr
    ensures AllocateResult(old(n.State()), runner, pod, reply, bound, r)
    ensures n.State() == if r.Allocated? then CommitIds(old(n.State()), r.pod, r.ids) else old(n.State())
  {
    var choice := AllocateGPUID(runner, pod.request, n);
    if choice == OutOfBounds { return Panicked; }
    if choice == NotFound { return Failed; }
    var devIds := ToUints(choice.ids);
    var newPod := GetUpdatedPodAnnotationSpec(pod, devIds);
    match reply {
      case Updated =>
      case Refused => return Failed;
      case Conflict(current, retried) =>
        if current.None? { return Failed; }
        newPod := GetUpdatedPodAnnotationSpec(current.value, devIds);
        if !retried { return Failed; }
    }
    if !bound { return Failed; }
    ghost var before := n.State();
    n.StateIsWellFormed();
    ChoiceIsFree(before, runner, pod.request, choice.ids);
    UintsRoundTrip(before, choice.ids);
    Commit(n, newPod, devIds);
    r := Allocated(newPod, choice.ids);
  }

  /** Conversion of a 64-bit uint back to int. */
  function ToInt(devId: nat): int {
    if devId < INT_LIMIT then devId else devId - UINT_LIMIT
  }

  function ToInts(devIds: seq<nat>): seq<int> {
    seq(|devIds|, i requires 0 <= i < |devIds| => ToInt(devIds[i]))
  }

  lemma UintsRoundTrip(n: Node, ids: seq<int>)
    requires WellFormed(n) && n.spec.gpuCount < INT_LIMIT && Reals(ids) <= FreeIds(n)
    ensures forall i :: 0 <= i < |ids| ==> -1 <= ids[i] < INT_LIMIT
    ensures ToInts(ToUints(ids)) == ids
  {
    forall i | 0 <= i < |ids| ensures -1 <= ids[i] < INT_LIMIT && ToInt(ToUint(ids[i])) == ids[i] {
      if ids[i] != PADDING { assert ids[i] in Reals(ids) && ids[i] in FreeIds(n); }
      ToUintValue(ids[i]);
    }
  }

  /** The loop that adds the pod to its devices; ids that are no device are skipped. */
  method Commit(n: NodeInfo, newPod: Pod, devIds: seq<nat>)
    requires n.Valid()
    modifies n.repr
    ensures n.State() == CommitIds(old(n.State()), newPod, ToInts(devIds))
  {
    for i := 0 to |devIds|
      invariant n.State() == CommitIds(old(n.State()), newPod, ToInts(devIds[..i]))
    {
      assert ToInts(devIds[..i + 1])[..i] == ToInts(devIds[..i]);
      if ToInt(devIds[i]) in n.devs {
        n.AddDevice(newPod, ToInt(devIds[i]));
      }
    }
    assert devIds[..|devIds|] == devIds;
  }

  // ---------- When an allocation succeeds ----------

  /** The update of the annotation went through, at once or for the pod fetched after a conflict. */
  predicate Annotates(reply: UpdateReply) {
    reply.Updated? || (reply.Conflict? && reply.current.Some? && reply.retried)
  }

  /** An allocation succeeds exactly if GPUs can be chosen, the annotation is written and the bind is
      accepted; it panics exactly if the best-effort policy does. */
  lemma AllocationSucceedsIff(n: Node, runner: Runner, pod: Pod, reply: UpdateReply, bound: bool, r: Result)
    requires AllocateResult(n, runner, pod, reply, bound, r) && Predictable(n, runner)
    ensures r.Allocated? <==> CanChoose(n, runner, pod.request) && Annotates(reply) && bound
    ensures r.Panicked? <==>
      runner.BestRunner? && 1 <= pod.request <= |FreeIds(n)| && !CanChoose(n, runner, pod.request)
  {
    match r
    case Panicked => FoundIff(n, runner, pod.request, OutOfBounds);
    case Allocated(newPod, ids) => FoundIff(n, runner, pod.request, Found(ids));
    case Failed =>
      if Chosen(n, runner, pod.request, NotFound) {
        FoundIff(n, runner, pod.request, NotFound);
      } else {
        var ids :| Chosen(n, runner, pod.request, Found(ids));
        FoundIff(n, runner, pod.request, Found(ids));
      }
  }

  /** For any runner and replies: what was bound is the pod the API server last had, changed in its
      annotation only, and without annotation and bind nothing is allocated. */
  lemma AllocatedPod(n: Node, runner: Runner, pod: Pod, reply: UpdateReply, bound: bool, r: Result)
    requires AllocateResult(n, runner, pod, reply, bound, r) && r.Allocated?
    ensures bound && Annotates(reply) && Chosen(n, runner, pod.request, Found(r.ids))
    ensures r.pod == (if reply.Conflict? then reply.current.value else pod).(group := Some(Join(ToUints(r.ids))))
  {
  }

  // ---------- What a successful allocation does ----------

  /** A successful allocation takes free devices only, moves all of them to used, and writes an
      annotation from which exactly these ids are read back, unless it contains padding. Padding
      occurs only with the best-effort runner when at least two GPUs are left over. */
  lemma AllocationMovesRequest(n: Node, runner: Runner, pod: Pod, reply: UpdateReply, bound: bool, r: Result)
    requires WellFormed(n) && n.spec.gpuCount < INT_LIMIT && RunnerOk(runner)
    requires runner.BestRunner? ==> TopologyAgrees(n) && Symmetric(n.spec.topology)
    requires AllocateResult(n, runner, pod, reply, bound, r) && r.Allocated?
    ensures var n' := CommitIds(n, r.pod, r.ids);
            && FreeIds(n') == FreeIds(n) - Reals(r.ids) && UsedIds(n') == UsedIds(n) + Reals(r.ids)
            && Reals(r.ids) <= FreeIds(n)
    ensures PADDING !in r.ids ==> |Reals(r.ids)| == pod.request && PodIds(r.pod) == r.ids
    ensures PADDING in r.ids ==>
      && runner.BestRunner? && |FreeIds(n)| % pod.request >= 2
      && |Reals(r.ids)| == |FreeIds(n)| % pod.request && PodIds(r.pod) == []
  {
    ChoiceFits(n, runner, pod.request, r.ids);
    UintsRoundTrip(n, r.ids);
    AllocationRoundTrip(r.ids);
    CommitMoves(n, r.pod, r.ids);
    BlockSize(r.ids);
    assert PADDING in r.ids <==> CountPadding(r.ids) > 0;
    if PADDING in r.ids {
      PaddedChoice(n, pod.request, r.ids);
    }
  }

  lemma PaddedChoice(n: Node, req: int, ids: seq<int>)
    requires WellFormed(n) && TopologyAgrees(n) && Symmetric(n.spec.topology)
    requires Chosen(n, BestRunner, req, Found(ids)) && PADDING in ids
    ensures |FreeIds(n)| % req >= 2 && |Reals(ids)| == |FreeIds(n)| % req
  {
    var r :| SelectsFrom(n, req, r) && Found(ids) == FromBest(r);
    var devices :| FreeDevices(n, devices) && r == Selection(n, devices, req);
    FreeDevicesCount(n, devices);
    SelectionIsOriginal(n, devices, req);
    SelectedIds(Untouched(n), devices, req);
    if |devices| % req <= 1 { NoPaddingWithoutRest(Untouched(n), devices, req); }
  }
}

# GPU topology scheduler extender: a verified model

The extender places pods on the GPUs of a node. A policy picks GPU ids from the node's free devices,
the ids are written into an annotation of the pod, the pod is bound, and the devices are marked. A
controller synchronises the same marks from the pods it observes. The project models

* the best-effort policy: the backtracking enumeration of GPU sets, the recursive enumeration of
  partitions with padding, the scores, and the choice of the best block (`GpuSets`, `GpuPartitions`,
  `PartitionTheory`, `PartitionCounts`, `PartitionOrder`, `Scores`, `BestEffort`, `PaddedSelection`, `PaddedOrders`,
  `Arithmetic`);
* the static policy with its configured GPU sets (`StaticPolicy`);
* the annotation codec and the link matrix of a node (`Codec`, `Topology`);
* devices, nodes and the scheduler cache as objects that are changed in place, each method proved
  against a function on values (`NodeInfos`, `SchedulerCaches` against `NodeUpdates`, `CacheState`);
* `Policy.Allocate` and the controller's handlers (`Allocation`, `Controllers`), and what becomes of
  deleted pods over sequences of handler calls (`Deletions`);
* the whole as a transition system that begins with start-up on any cluster, in which the four steps of
  an allocation interleave with synchronisation, cluster changes and restarts (`Cluster`), on top of
  what one node keeps (`NodeTheory`) and what start-up builds (`StartUp`); what holds over all runs
  (`Runs`), runs to states one would not expect (`Incidents`), and what a restart recovers (`Restart`).

`dafny verify dfyconfig.toml` verifies it.

## Where the code differs from what one would expect

The model follows the code. These are theorems of the model, not assumptions:

* A best-effort request for one GPU always indexes an empty list, and so does any request when no two
  free GPUs have a positive pair score (`BestEffort.SelectionInRange`, an if-and-only-if).
* The best-effort policy may return fewer GPUs than requested, filled up with -1. For given sizes this
  is excluded, over all topologies and orders of the device map, if and only if the free GPUs leave at
  most one over (`PaddedSelection.NeverPaddedIff`). There are topologies for which it happens in every
  order (`PaddedOrders.PaddedInEveryOrder`).
* The annotation of such an allocation reads back as no GPUs. A removal gives the GPUs of an allocation
  back if and only if it contains no padding (`NodeTheory.GivenBackIff`), and an allocation with padding
  keeps its GPUs (`Runs.PaddedAllocationStays`, `Runs.CanBeGivenBackIff`) until a restart forgets it
  (`Restart.RestartForgetsPadded`). Runs of the best-effort policy lead there
  (`Incidents.PaddedLeakHappens`).
* Removing a pod marks its devices unused whoever else is on them. The flag stays right if and only if
  the pod is the only holder (`NodeTheory.RemovalKeepsAgreementIff`). The controller does remove a
  completed pod again on each later update (`Controllers.CompletedPodIsRemovedAgain`). A removal can
  lead to two pods on one GPU if and only if another pod is on the removed pod's devices
  (`Incidents.RemovalLeadsToSharingIff`). The first removal is always safe
  (`Runs.FirstRemovalIsGuarded`), and a run leads to two pods on one GPU (`Incidents.SharingHappens`).
* A pod that completes and is removed between bind and commit is put on its GPUs by the commit
  (`Incidents.LateCommitHappens`). A removed pod stays off its GPUs if and only if its commit is not
  still to come (`Runs.RemovedStaysOffIff`).
* A deleted pod leaves its GPUs if and only if its key is synchronised with no pod listed under it, and
  its node listed, before another pod of the same name is deleted (`Deletions.DeletedPodIsOffIff`). If
  the deletion of such a pod is handled first, the old pod stays on its GPUs
  (`Deletions.ReusedKeyKeepsDeletedPod`). Synchronising the key while another pod is listed is exactly
  what leaves its record unqueued (`Controllers.RecordsStayQueuedIff`).
* The abbreviation table numbers PCIe links in the order opposite to the nvml binding whose names the
  score uses: a farther PCIe connection scores more (`NodeTheory.FartherPcieLinksScoreMore`).
* Start-up also counts completed pods that are still listed. The rebuilt cache has two pods on one GPU
  if and only if two listed assigned pods, complete or not, name the same GPU
  (`StartUp.BuiltIsExclusiveIff`). A run leads to such a list although the running cache is exclusive
  (`Restart.RestartCanShare`). When a restart puts the same pods on the same GPUs is
  `Restart.RestartRecoversIff`.
* A topology annotation with a key that indexes a GPU the node has not makes the program panic, in
  whatever order the keys are visited (`Topology.BuildTopology`).

## Model

| member | source | states |
|---|---|---|
| `GpuSets.IterateGPUSets` | pkg/policy/besteffort_policy.go:149-184 | for every list and size the callback receives exactly the specified sets, in order; none if the size is not positive or too large |
| `GpuSets.Backtrack` | pkg/policy/besteffort_policy.go:158-184 | the index-stack loop stays in range and terminates, with a measure that is the exact number of iterations left, and emits what remains to be listed |
| `GpuSets.NextIsValid` | pkg/policy/besteffort_policy.go:163-182 | each push, backtrack and emission keeps the index stack well formed and uses up exactly one unit of that measure |
| `GpuSets.EmissionsAreTodo` | pkg/policy/besteffort_policy.go:162-183 | from any stack, the loop's emissions are the lexicographic continuation of that stack |
| `GpuSets.SetsAreExact` | pkg/policy/besteffort_policy.go:149-184 | emissions correspond one to one to the strictly increasing index tuples, in lexicographic order, none missed or repeated |
| `GpuSets.SetsCount` | pkg/policy/besteffort_policy.go:149-184 | there are C(n, size) emissions |
| `GpuSets.NoSetsOfInvalidSize` | pkg/policy/besteffort_policy.go:149-157 | no sets are listed for a size that is not positive or too large |
| `GpuPartitions.AddPadding` | pkg/policy/besteffort_policy.go:123-134 | the list is completed with -1 to the least multiple of the size |
| `GpuPartitions.GpuSetCountPadding` | pkg/policy/besteffort_policy.go:137-147 | the multiplicity of -1 |
| `GpuPartitions.GpuSetContains` | pkg/policy/besteffort_policy.go:187-194 | membership |
| `GpuPartitions.RemainingDevices` | pkg/policy/besteffort_policy.go:109-114 | the devices outside the block, in order |
| `GpuPartitions.RemainingIsLevel` | pkg/policy/besteffort_policy.go:101-117 | the recursion only sees lists with the padding at the tail, all of it or none, of a length that is a positive multiple of the size |
| `GpuPartitions.RemainingLength` | pkg/policy/besteffort_policy.go:109-114 | `remaining` shrinks by exactly `size` although membership is by value and all padding is equal |
| `GpuPartitions.Iterate` | pkg/policy/besteffort_policy.go:88-118 | never reaches the panic, terminates, and passes on the specified partitions behind the accumulated blocks |
| `GpuPartitions.IterateGPUPartitions` | pkg/policy/besteffort_policy.go:66-121 | the callback's arguments for any size, with the cases of invalid sizes and of size 1 |
| `PartitionTheory.CandidatesAreExact` | pkg/policy/besteffort_policy.go:66-121 | the candidates are exactly the partitions into blocks of the size with at most one short block, each once up to order of blocks and of ids; each list has the padded length and number of blocks |
| `PartitionTheory.PartitionsAreSound` | pkg/policy/besteffort_policy.go:89-118 | soundness at every depth of the recursion |
| `PartitionTheory.PartitionsAreComplete` | pkg/policy/besteffort_policy.go:89-118 | every partition is reached, with the padding put with the short block |
| `PartitionTheory.PartitionsAreDistinct` | pkg/policy/besteffort_policy.go:101-117 | fixing the first device and keeping padding together excludes duplicates |
| `PartitionCounts.CandidatesCount` | pkg/policy/besteffort_policy.go:66-121 | with n devices and r = n % size their number is C(n, r) times the product of the C(j*size - 1, size - 1) for the blocks of the other n - r |
| `PartitionOrder.CandidatesInOrder` | pkg/policy/besteffort_policy.go:88-118 | the candidates are listed by the positions of their blocks: where two first differ, the block with the lexicographically smaller positions among the devices left comes first |
| `GpuPartitions.SpecialSizes` | pkg/policy/besteffort_policy.go:67-81 | for size 1 each device is a partition, in order; none are listed for invalid sizes |
| `Scores.PairScoreRange` | pkg/policy/config.go:12-62 | a pair scores 0 to 600, more than 0 only for two different unused devices, symmetrically for a symmetric matrix |
| `Scores.PairScoreTable` | pkg/policy/config.go:12-62 | two different unused devices score 10 to 60 for links 1 to 6, 100 to 600 for links 7 to 12, and everything else nothing |
| `Scores.LinkScoreIncreases` | pkg/policy/config.go:34-59 | every better link scores more than the one before, from 0 for an unknown link to 600 |
| `Scores.CalculateGPUSetScore` | pkg/policy/besteffort_policy.go:199-207 | the set score computed through the combination loop is the double sum over i < j |
| `Scores.EmittedPairsAreAllPairs` | pkg/policy/besteffort_policy.go:202-204 | the sum over the emitted pairs is that double sum |
| `Scores.CalculateGPUPartitionScore` | pkg/policy/besteffort_policy.go:211-219 | the sum of the block scores |
| `Scores.SetScoreOfList` | pkg/policy/besteffort_policy.go:199-207 | for a symmetric matrix the score depends on the set of real ids only: not on order, not on padding |
| `Scores.PartitionScoreOfList` | pkg/policy/besteffort_policy.go:211-219 | the same for partitions |
| `Scores.SetScoreRange` | pkg/policy/besteffort_policy.go:199-207 | k ids score at most 600 * C(k, 2) |
| `BestEffort.CollectFree` | pkg/policy/besteffort_policy.go:34-39 | the free devices, each once, in some order of the device map |
| `BestEffort.AvailableGPUs` | pkg/types/nodeinfo.go:73-81 | GPU count minus used devices is the number of free devices |
| `NodeState.FreeAndUsed` | pkg/types/nodeinfo.go:151-156 | used and available devices add up to the GPU count |
| `BestEffort.PreAllocate` | pkg/policy/besteffort_policy.go:27-63 | for every node and request the outcome is the selection for some order of the free devices |
| `BestEffort.SelectBlock` | pkg/policy/besteffort_policy.go:52-60 | the first block with the highest score |
| `BestEffort.BestIsMaximal` | pkg/policy/besteffort_policy.go:41-49 | the kept partition scores above 0 and at least as high as every candidate, or nothing is kept and no candidate scores |
| `BestEffort.SelectionIsFirst` | pkg/policy/besteffort_policy.go:27-63 | a request that does not fit is invalid, without a scoring candidate the index is out of range, otherwise the result is the first best block of the first best candidate with its score |
| `BestEffort.InvalidIff` | pkg/policy/besteffort_policy.go:28-32 | for every order of the device map the outcome is invalid exactly if the request does not fit |
| `BestEffort.BestIsOptimal` | pkg/policy/besteffort_policy.go:41-49 | the kept score is the maximum over all partitions of the free devices |
| `BestEffort.SelectionIsOptimal` | pkg/policy/besteffort_policy.go:41-62 | the returned ids are the best block of a partition that no other beats, the returned score is that block's score, and score times number of blocks is at least the partition's score |
| `BestEffort.SelectionInRange` | pkg/policy/besteffort_policy.go:41-52 | for a request that fits, the index is in range if and only if at least two GPUs are requested and two free GPUs have a positive pair score |
| `BestEffort.PartitionAround` | pkg/policy/besteffort_policy.go:101-117 | some partition puts any given pair into one block, even with a short block |
| `BestEffort.OrderDoesNotMatter` | pkg/policy/besteffort_policy.go:34-49 | the winning total, and whether there is a winner, do not depend on the iteration order of the device map |
| `BestEffort.SelectedIds` | pkg/policy/besteffort_policy.go:51-62 | the ids are distinct free devices, and padding occurs only in the short block with the remainder of real ids |
| `PaddedSelection.NoPaddingWithoutRest` | pkg/policy/besteffort_policy.go:27-63 | with at most one device left over the ids are all real |
| `PaddedSelection.PaddingWithRest` | pkg/policy/besteffort_policy.go:27-63 | for all sizes with two or more left over there are a symmetric topology and an order of the device map for which the result contains padding |
| `PaddedSelection.NeverPaddedIff` | pkg/policy/besteffort_policy.go:27-63 | for given sizes no symmetric topology and no order of the device map yields padding if and only if at most one device is left over |
| `PaddedOrders.PaddedInEveryOrder` | pkg/policy/besteffort_policy.go:27-63 | with r >= 2 devices left over and 60 * (r - 1) > req - 1 there is a symmetric topology for which the result contains padding in every order of the device map |
| `BestEffort.MissingTopologyPanics` | pkg/policy/besteffort_policy.go:41-52 | on a node without a decoded topology every request that fits panics |
| `PaddedSelection.FirstCandidate` | pkg/policy/besteffort_policy.go:88-121 | the first candidate is the list cut in order |
| `StaticPolicy.IsNInSet` | pkg/policy/staticdgx_policy.go:163-173 | membership |
| `StaticPolicy.IsSubInSet` | pkg/policy/staticdgx_policy.go:147-160 | both lists are sorted, and the answer is inclusion with no more elements |
| `StaticPolicy.SortedIsAscending` | pkg/policy/staticdgx_policy.go:148-149 | sorting gives an ascending permutation |
| `StaticPolicy.PreAllocate` | pkg/policy/staticdgx_policy.go:45-100 | for any configuration: the first usable set of the smallest size tried that has one, with score 20 for the requested size and cut to the request with score 15 for a larger one, a panic if it is too short to be cut; otherwise an error |
| `StaticPolicy.StaticIsSmallest` | pkg/policy/staticdgx_policy.go:64-99 | for any configuration a success takes the smallest ids of the first fitting set of the smallest fitting size: all with score 20 for the requested size, otherwise as many as requested with score 15 |
| `StaticPolicy.PanicsIff` | pkg/policy/staticdgx_policy.go:80-90 | for any configuration it panics exactly if that set is of a larger size and lists fewer ids than requested |
| `StaticPolicy.OutOfRangeIff` | pkg/policy/staticdgx_policy.go:45-50 | an invalid request is one that is not positive or larger than the number of free devices |
| `StaticPolicy.SetIsFoundIff` | pkg/policy/staticdgx_policy.go:64-99 | for any configuration a set is found if and only if a size from the request to one more than the number of free devices lists a usable one |
| `StaticPolicy.StaticIdsAreFree` | pkg/policy/staticdgx_policy.go:71-88 | for any configuration only free devices are returned |
| `StaticPolicy.StaticSucceeds` | pkg/policy/staticdgx_policy.go:64-99 | if each key k lists sets of k distinct ids, it succeeds if and only if some configured set of at least the requested size is free; ending the search just past the number of devices loses nothing |
| `StaticPolicy.NothingLarger` | pkg/policy/staticdgx_policy.go:92-94 | for such a configuration no set larger than the number of free devices is free |
| `StaticPolicy.StaticIds` | pkg/policy/staticdgx_policy.go:71-88 | for such a configuration a success yields exactly the requested number of distinct free devices, with score 20 if and only if a set of that size is usable and 15 otherwise |
| `StaticPolicy.StaticIsDetermined` | pkg/policy/staticdgx_policy.go:45-100 | ids and score do not depend on the order of the device map |
| `Codec.GetGPUIDFromAnnotation` | pkg/utils/pod.go:46-62 | the ids of the list, or none at all if one part is not a 64-bit number |
| `Codec.IdsOfAnnotation` | pkg/utils/pod.go:46-62 | the ids are the numbers between the commas, none if one part is not a number or there is no annotation |
| `Codec.AtoiIff` | pkg/utils/pod.go:53-57 | a part is read exactly if it is an optional sign, zeros and the decimal of a 64-bit number, as that number |
| `Codec.SplitIff` | pkg/utils/pod.go:50-52 | the parts are the strings without separator that join to the whole |
| `Codec.SplitOfJoin` | pkg/utils/pod.go:92-102 | between its commas the written list has the decimals of the ids |
| `Codec.GetUpdatedPodAnnotationSpec` | pkg/utils/pod.go:87-106 | only the annotation changes, to the comma-separated decimal list |
| `Codec.GroupRoundTrip` | pkg/utils/pod.go:46-62 | reading back what was written gives the same list exactly if every id is below 2^63, otherwise none; the empty list included |
| `Codec.AllocationRoundTrip` | pkg/utils/pod.go:92-102 | an allocation is read back unchanged, unless it contains padding, when nothing is read |
| `Topology.ConsumeId` | pkg/types/topology.go:70-89 | exactly the row and column of the GPU become 0; ids out of range change nothing |
| `Topology.RecoveryId` | pkg/types/topology.go:92-116 | exactly the row and column are copied; ids out of range and matrices of another size change nothing |
| `Topology.RecoveryUndoesConsumption` | pkg/types/topology.go:70-116 | recovering a GPU undoes its consumption; a matrix of another size or an unknown GPU changes nothing |
| `Topology.StaysSymmetric` | pkg/types/topology.go:70-116 | one consume or recover step keeps a matrix symmetric |
| `Topology.SymmetricAfterSteps` | pkg/types/topology.go:70-116 | a matrix stays symmetric under any sequence of consume and recover steps |
| `Topology.BuildTopology` | pkg/types/topology.go:127-183 | it panics exactly if the node has GPUs and some key indexes one it has not; otherwise the matrix is symmetric, and each entry is the link of a key naming the pair, or 0 without one; no keys give an empty matrix |
| `Topology.KeyIsReadIff` | pkg/types/topology.go:157-175 | exactly the keys of four parts with two numbers at the end are read, with the number of the link abbreviation |
| `Topology.BuiltEntry` | pkg/types/topology.go:153-180 | an entry that a single key names is the number of its abbreviation: 1 to 6 for the PCIe links, 7 to 12 for NV1 to NV6, 0 for any other |
| `Topology.BuiltWithout` | pkg/types/topology.go:139-180 | an entry that no key names is 0 |
| `Topology.AbbrTable` | pkg/types/topology.go:15-28 | the number of each abbreviation |
| `Topology.BuiltIsDetermined` | pkg/types/topology.go:153-180 | if no two keys name the same pair the matrix does not depend on the iteration order of the annotation |
| `Topology.KeyRoundTrip` | pkg/types/topology.go:157-175 | keys as written by the device plugin give their abbreviation and their two indices |
| `NodeInfos.DeviceInfo.AddPod` | pkg/types/deviceinfo.go:34-44 | the pod is entered and the device is used |
| `NodeInfos.DeviceInfo.RemovePod` | pkg/types/deviceinfo.go:46-56 | the pod is deleted and the device is unused whoever is left |
| `NodeInfos.NodeInfo.constructor` | pkg/types/nodeinfo.go:27-49 | unused devices keyed 0..count-1 and the original matrix |
| `NodeInfos.NodeInfo.AddOrUpdatePod` | pkg/types/nodeinfo.go:106-130 | the pod is on, and the matrix zero at, every annotated device; the answer is whether there is one |
| `NodeInfos.NodeInfo.RemovePod` | pkg/types/nodeinfo.go:83-103 | the pod is off every annotated device, and their rows and columns are restored |
| `NodeUpdates.AddIdsClosed` | pkg/types/nodeinfo.go:115-125 | effect of adding a whole id list, repeated and unknown ids included |
| `NodeUpdates.RemoveIdsClosed` | pkg/types/nodeinfo.go:90-102 | effect of removing a whole id list |
| `NodeUpdates.CommitIdsClosed` | pkg/policy/allocate.go:72-80 | effect of the commit of an allocation, which leaves the matrix alone |
| `NodeTheory.TopologyAgreementIsKept` | pkg/types/topology.go:70-116 | adding, committing and removing keep the matrix equal to the original one at every pair of unused devices |
| `NodeTheory.SelectionIsOriginal` | pkg/policy/config.go:23-32 | hence the best-effort policy selects and scores as on the untouched matrix |
| `NodeTheory.UsedAgreementIsKept` | pkg/types/deviceinfo.go:34-44 | adding and committing keep: used if and only if some pod is on the device |
| `NodeTheory.RemovalKeepsAgreementIff` | pkg/types/deviceinfo.go:46-56 | removing keeps it if and only if no other pod is on the pod's devices |
| `NodeTheory.CommitMoves` | pkg/policy/allocate.go:72-80 | committing distinct free ids moves exactly them from free to used |
| `NodeTheory.SymmetryIsKept` | pkg/types/nodeinfo.go:83-130 | adding, committing and removing whole id lists keep a node's matrices symmetric |
| `NodeTheory.GivenBackIff` | pkg/types/nodeinfo.go:83-103 | removing an allocated pod restores the free devices if and only if its allocation contains no padding; otherwise the removal changes nothing |
| `NodeTheory.FartherPcieLinksScoreMore` | pkg/types/topology.go:15-28 | among PCIe links the farther connection scores more, and any NVLink more than all of them |
| `SchedulerCaches.SchedulerCache.GetNodeInfo` | pkg/cache/cache.go:156-185 | an unlisted node is an error; a node is built when new or when it turned from no GPUs to GPUs |
| `CacheState.NodeIsRebuiltIff` | pkg/cache/cache.go:168-182 | a node is built anew exactly if it is not cached, or was cached without GPUs and has some now; nothing else changes |
| `CacheState.UnlistedNode` | pkg/cache/cache.go:115-153 | without a listed node adding a pod changes nothing, and removing it only forgets it |
| `SchedulerCaches.SchedulerCache.AddOrUpdatePod` | pkg/cache/cache.go:115-139 | whole effect on nodes and known pods; fails only if the pod's node is not listed |
| `SchedulerCaches.SchedulerCache.RemovePod` | pkg/cache/cache.go:142-153 | whole effect on nodes and known pods; the pod is forgotten even if its node is not listed |
| `SchedulerCaches.SchedulerCache.BuildCache` | pkg/cache/cache.go:52-100 | the cache after all listed pods, or after those before the first whose node is not listed, and then all listed GPU nodes |
| `CacheState.BuildStopsAt` | pkg/cache/cache.go:59-73 | building stops with an error at the first assigned pod whose node is not listed, with the pods before it added |
| `CacheState.BuildOneMore` | pkg/cache/cache.go:59-73 | pods without ids or without a node are skipped, others added |
| `StartUp.BuildIsExact` | pkg/cache/cache.go:59-73 | with all referenced nodes listed: a device holds exactly the listed assigned pods annotated with it and is used if there is one, matrix entries are zero on exactly the used rows and columns, and known pods are those on a device |
| `StartUp.BuiltIsExact` | pkg/cache/cache.go:52-100 | the same of the returned cache, whose nodes are exactly the listed ones with GPUs or with a listed assigned pod |
| `StartUp.BuiltIgnoresOrder` | pkg/cache/cache.go:52-100 | the returned cache does not depend on the order of the pod list |
| `StartUp.BuiltIsExclusiveIff` | pkg/cache/cache.go:52-100 | the returned cache has at most one pod on each device if and only if no two listed assigned pods, complete or not, share a device |
| `Allocation.AllocateGPUID` | pkg/policy/allocate.go:88-122 | the runner's choice for a request that fits, nothing otherwise |
| `Allocation.FoundIff` | pkg/policy/allocate.go:88-122 | GPUs are found exactly if the request fits and, for the best-effort policy, at least two are requested and two free ones are linked, for the static one a large enough configured set is free; otherwise the best-effort policy panics for a request that fits |
| `Allocation.BestIdsFound` | pkg/policy/allocate.go:98-106 | the best-effort ids are the first best block of the first best candidate for some order of the device map |
| `Allocation.StaticIdsFound` | pkg/policy/allocate.go:98-106 | the static ids are the smallest of the first fitting set of the smallest fitting size |
| `Allocation.StaticPanicsIff` | pkg/policy/allocate.go:98-106 | for any configuration, when the static policy panics |
| `Allocation.ChoiceFits` | pkg/policy/allocate.go:98-106 | both runners choose distinct free devices; only the best-effort one can add padding |
| `Allocation.Allocate` | pkg/policy/allocate.go:14-85 | for every reply of the API server: only a successful bind changes the devices, by the commit of the chosen ids; with a conflict the fetched pod is annotated |
| `Allocation.AllocationSucceedsIff` | pkg/policy/allocate.go:14-85 | it succeeds exactly if GPUs can be chosen, the annotation is written at once or for the pod fetched after a conflict, and the bind is accepted; it panics exactly if the best-effort policy does |
| `Allocation.AllocatedPod` | pkg/policy/allocate.go:25-60 | without annotation and bind nothing is allocated, and what is bound is the pod last had by the API server, changed in its annotation only |
| `Allocation.AllocationMovesRequest` | pkg/policy/allocate.go:14-85 | a success of an undisturbed allocation moves exactly the chosen devices from free to used, as many as requested and read back from the annotation, unless it contains padding, which needs two or more GPUs left over |
| `Controllers.Controller.SyncPod` | pkg/gpushare/controller.go:173-204 | deleted and completed pods are removed, others added, a missing node is retried; the controller stays valid for the next synchronisation |
| `Controllers.Controller.UpdatePodInCache` | pkg/gpushare/controller.go:256-304 | which updates are queued |
| `Controllers.Controller.ProcessNextWorkItem` | pkg/gpushare/controller.go:207-230 | the key is taken off the queue and put back exactly if its synchronisation fails |
| `Controllers.QueuedIff` | pkg/gpushare/controller.go:207-331 | which keys are queued after each handler call and work item |
| `Controllers.RecordsStayQueuedIff` | pkg/gpushare/controller.go:182-188 | the record of a deleted pod stays queued, except exactly when its key is synchronised while another pod is listed under it |
| `Deletions.AddedPodIsOn` | pkg/gpushare/controller.go:232-250 | after a pod was seen and once its key is no longer queued, it is on its annotated devices, whatever other pods the steps in between concern |
| `Deletions.CompletedPodIsOff` | pkg/gpushare/controller.go:256-304 | after a pod was seen to complete and once its key is no longer queued, it is off its annotated devices |
| `Deletions.DeletedPodIsOff` | pkg/gpushare/controller.go:306-331 | the same after its deletion, unless a pod of its key was listed or deleted in between |
| `Deletions.DeletedPodIsOffIff` | pkg/gpushare/controller.go:179-194 | after a deletion was handled, and over any later steps that concern other pods, the pod is off a device if and only if its annotation lists it and its key was synchronised unlisted, with its node listed, before another pod of the key was deleted |
| `Deletions.UnrecordedPodStays` | pkg/gpushare/controller.go:182-188 | a pod without a deletion record stays on its device over any steps that do not name it |
| `Deletions.ReusedKeyKeepsDeletedPod` | pkg/gpushare/controller.go:306-331 | when a new pod of the key is synchronised and its deletion handled first, the old pod stays on its device after whatever follows |
| `Deletions.EarlySweepClears` | pkg/gpushare/controller.go:182-188 | when the key is found unlisted before the deletion of the new pod is handled, the old pod is taken off |
| `Controllers.UpdateIsSkippedIff` | pkg/gpushare/controller.go:267-278 | an update is skipped if and only if the pod is known and not complete |
| `Controllers.CompletedPodIsRemovedAgain` | pkg/gpushare/controller.go:192-194 | a completed pod is queued and removed again after its removal |
| `Controllers.AgainTakesAnothersGpu` | pkg/gpushare/controller.go:276-278 | a removal while another pod is on the device leaves that device free with the other pod on it |
| `Cluster.StepKeeps` | pkg/policy/allocate.go:14-85 | every step of allocations, synchronisation and cluster changes keeps the invariant |
| `Runs.AllocationIsExclusive` | pkg/policy/allocate.go:14-122 | over every interleaving no device is on two pods, and used means that some pod is on it |
| `Runs.IndexAgrees` | pkg/cache/cache.go:115-153 | a bound pod without padding is on a device exactly if it was added, not removed since, and the device is among the ids its annotation lists; one with padding is on its devices from the commit on, whatever is synchronised |
| `Runs.KnownPodsAreOnDevices` | pkg/cache/cache.go:115-197 | only bound pods are on devices, and every known pod is on a device of its node |
| `Runs.RunKeepsSizes` | pkg/policy/allocate.go:88-122 | in every reachable state every allocation, pending or bound, has as many entries as its pod requests, without repetition |
| `Runs.PendingIdsAreReserved` | pkg/policy/allocate.go:14-85 | between choice and commit the chosen devices are free in every state, or used by the pod itself if a synchronisation was faster |
| `Runs.CommitTakesRequest` | pkg/policy/allocate.go:72-80 | over every interleaving a commit adds exactly its devices to the used ones and takes them from the free ones, as many as requested less the padding |
| `Runs.TopologyAgreesOverRuns` | pkg/types/topology.go:70-116 | the mutated matrix equals the original at every pair of unused devices in every reachable state, and selections are those on the untouched matrix |
| `Runs.SelectionIsOptimalOverRuns` | pkg/policy/besteffort_policy.go:27-63 | in every reachable state the best-effort choice is optimal for the topology the API server describes |
| `Runs.SymmetryOverRuns` | pkg/types/topology.go:70-116 | when only symmetric matrices are described, every matrix in the cache is symmetric in every reachable state |
| `Runs.SelectionInRangeOverRuns` | pkg/policy/besteffort_policy.go:34-52 | hence in every reachable state the exact condition of an index in range and the independence of the map order hold, for the links described |
| `Runs.ReplacementLosesNoPod` | pkg/cache/cache.go:171-180 | a node that is rebuilt had no devices, and no pod is bound to it |
| `Runs.PaddedAllocationStays` | pkg/types/nodeinfo.go:87-102 | a committed allocation with padding keeps its devices used in all later states, restarts aside |
| `Runs.CanBeGivenBackIff` | pkg/types/nodeinfo.go:83-103 | some continuation takes a pod off its devices if and only if its allocation contains no padding |
| `Runs.FirstRemovalIsGuarded` | pkg/gpushare/controller.go:182-194 | a pod that was added may always be removed once |
| `Runs.RemovalKeepsInvIff` | pkg/types/deviceinfo.go:46-56 | removing a completed pod keeps the invariant if and only if no other pod is on its devices |
| `Incidents.RemovalLeadsToSharingIff` | pkg/types/deviceinfo.go:46-56 | with no allocation in progress, some continuation of the removal of a completed pod has two pods on one device if and only if another pod is on its devices |
| `Incidents.SharingHappens` | pkg/gpushare/controller.go:192-194 | a run whose next removal is followed by two pods on one device |
| `Incidents.ReuseDisablesRemoval` | pkg/gpushare/controller.go:192-194 | once a device of a completed pod is allocated again, a further removal of that pod breaks the invariant |
| `Incidents.GuardFailsOnSomeRun` | pkg/gpushare/controller.go:192-194 | such a state is reached by a run: pod a is placed, completes and is removed, then pod b gets its GPU |
| `Runs.PolicyChoiceIsAllowed` | pkg/policy/allocate.go:88-122 | what either policy chooses is a step of the transition system |
| `Runs.RemovedStaysOffIff` | pkg/policy/allocate.go:59-80 | a completed pod that is off its devices stays off them in all later states if and only if its commit is not still to come |
| `Incidents.LateCommitHappens` | pkg/policy/allocate.go:59-80 | a run on which a pod completes after its bind, is removed, and is put on its device by the commit |
| `Incidents.PaddedLeakHappens` | pkg/policy/besteffort_policy.go:27-63 | for all sizes with two or more GPUs left over a run of the best-effort policy leads to a removed pod that is on its devices in all later states |
| `Cluster.StartedInv` | pkg/cache/cache.go:52-100 | start-up establishes the invariant, whatever pods the cluster has |
| `Runs.SyncPodIsStep` | pkg/gpushare/controller.go:173-204 | synchronising a listed or deleted pod acts on the cache as the corresponding step of the transition system, whatever the deletion record says on completion |
| `Runs.CommitIsStep` | pkg/policy/allocate.go:72-80 | the commit acts on the cache as the corresponding step of the transition system |
| `Incidents.AllocateIsRun` | pkg/policy/allocate.go:14-85 | an undisturbed success is a run from choice to commit with the program's effect on node and pod |
| `Incidents.FailedAllocateIsRun` | pkg/policy/allocate.go:28-62 | a failure after the choice is a run that leaves at most the annotation behind |
| `Restart.RestartIsAllowed` | pkg/cache/cache.go:52-100 | in a reachable state, whatever is in progress, a restart is a step and keeps the invariant when no allocation contains padding, claims are within the listed node sizes and exactly the bound pods that are not complete are listed |
| `Restart.RestartRecoversIff` | pkg/cache/cache.go:52-100 | for any listing of the pods, the cache rebuilt in a reachable state has the same pods on the same devices if and only if, within the listed node sizes, exactly the bound pods that were added and not removed are listed, and those with padding are in flight |
| `Restart.QuietStateIsRecoverable` | pkg/cache/cache.go:52-100 | this holds when nothing is in flight, no allocation contains padding, the listed bound pods are those that are not complete, completed ones were removed, and the node sizes are unchanged |
| `Restart.RestartForgetsPadded` | pkg/utils/pod.go:46-62 | the rebuilt cache does not have a pod whose allocation contains padding on its devices |
| `Restart.RestartCanShare` | pkg/cache/cache.go:59-73 | a run after which no two pods share a device, but they do after a restart |

## Left out

- `append(accum, set)` and `append(accum, devices)` share backing arrays between siblings of the recursion in Go (pkg/policy/besteffort_policy.go:97, 116). The model treats partitions as values, which is the intended meaning; with capacity doubling a kept partition of seven or more blocks can be overwritten in the program.
- `StaticPolicy.PreAllocate`: cutting a set that is shorter than the request is a panic here; in the program the slice expression yields stale values instead when the decoded slice has spare capacity. In-place sorting of the two arguments is modelled by reassigning sequences, and `sort.Ints` by insertion.
- `GpuPartitions.IterateGPUPartitions`: requires distinct non-negative ids, which is what a node's device map yields; other lists can reach the panic.
- `BestEffort.SelectionIsOptimal`: requires a symmetric link matrix, as the other statements about sets of ids do; `Topology.BuildTopology` provides it and `Runs.SymmetryOverRuns` keeps it.
- `Runs.AllocationIsExclusive`: a removal of a pod that is no longer on its devices is a step only while no other pod is on them; without this guard the statement is false, as shown. Each step is atomic: the choice, the commit, and each synchronisation do not overlap inside one node, and the pod lister shows the current pods.
- `Runs.Initial`: the pods bound at start-up are on different devices, within the listed node sizes, and have the annotation an allocation without padding writes; their claims are what that annotation says. Pods bound without an annotation do not matter to the cache and are not part of the state.
- `Cluster.Started`: a restart is a step of a run when the bound pods it lists are those that are not complete and no allocation contains padding; other restarts are compared with the running cache in `Restart`, and can break exclusivity, as shown.
- `Cluster.Enabled`: pods are created without the annotation and without a node, so every annotation comes from an allocation; a pod deleted from the API server counts as completed, and its object stays.
- `deletePodFromCache` queues the key before it stores the pod, so a worker in between can miss the removal; the handler is one step here.
- `NodeInfos.NodeInfo.constructor`: requires what decoding the topology annotation yields, a square matrix of the node's size or none. Without one a pair scores 0 here where the program panics; the outcome of the policy is that panic either way (`BestEffort.MissingTopologyPanics`).
- Errors of the pod lister other than a missing pod, the rate limits and the order of the work queue, which is a set here.
- The runners' `Score` methods, `Assume`, the prioritise and bind handlers, and the simple policy, which looks only at the first devices and promises no number of ids.
- Deletion time stamps and pod phases are one flag `complete`; the assigned flag and the time stamp in annotations are not modelled.
- JSON decoding, reading of configuration files, logging, HTTP routes, the inspection command, informers and signals.

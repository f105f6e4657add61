/** The controller's event handlers and the synchronisation of one pod (pkg/gpushare/controller.go). */
module Controllers {
  import opened NodeState
  import opened Codec
  import opened NodeUpdates
  import opened CacheState
  import opened SchedulerCaches

  // ---------- Specification ----------

  /** Whether an update of a pod is queued; the length test of the original always holds. */
  predicate NeedsUpdate(known: bool, newPod: Pod) {
    (known && newPod.complete) || (!known && |PodIds(newPod)| >= 0)
  }

  /** An update is skipped exactly for a known pod that is not complete. */
  lemma UpdateIsSkippedIff(known: bool, newPod: Pod)
    ensures !NeedsUpdate(known, newPod) <==> known && !newPod.complete
  {
  }

  /** The pod that a synchronisation of `key` removes from the cache, if any. */
  function PodToRemove(key: string, pods: map<string, Pod>, removed: map<string, Pod>): Option<Pod> {
    if key in pods then (if pods[key].complete then Some(pods[key]) else None)
    else if key in removed then Some(removed[key]) else None
  }

  function CacheAfterSync(
      c: Cache, key: string, pods: map<string, Pod>, removed: map<string, Pod>, lister: Lister): Cache {
    var gone := PodToRemove(key, pods, removed);
    if gone.Some? then RemovePod(c, lister, gone.value)
    else if key in pods then AddPod(c, lister, pods[key])
    else c
  }

  /** The cache, the work queue, and the pods whose deletion was handled and not yet synchronised. */
  datatype Control = Control(cache: Cache, queue: set<string>, removed: map<string, Pod>)

  /** Synchronising the key fails, and is retried, if its pod is on a node that is not listed. */
  predicate SyncFails(key: string, pods: map<string, Pod>, lister: Lister) {
    key in pods && !pods[key].complete && AddFails(lister, pods[key])
  }

  /** The handlers, a work item processed with what the listers hold at that moment, and the commit of an
      allocation. */
  datatype Step =
    | Added(pod: Pod)
    | Updated(oldPod: Pod, newPod: Pod)
    | Deleted(pod: Pod)
    | Synced(key: string, pods: map<string, Pod>, lister: Lister)
    | Committed(pod: Pod, name: string, ids: seq<int>)

  function Handle(c: Control, e: Step): Control {
    match e
    case Added(pod) => c.(queue := c.queue + {pod.key})
    case Updated(oldPod, newPod) =>
      if NeedsUpdate(oldPod.uid in c.cache.known, newPod) then c.(queue := c.queue + {newPod.key}) else c
    case Deleted(pod) => c.(queue := c.queue + {pod.key}, removed := c.removed[pod.key := pod])
    case Synced(key, pods, lister) =>
      c.(cache := CacheAfterSync(c.cache, key, pods, c.removed, lister),
         queue := if SyncFails(key, pods, lister) then c.queue + {key} else c.queue - {key},
         removed := if key in pods then c.removed else c.removed - {key})
    case Committed(pod, name, ids) =>
      if name in c.cache.nodes
      then c.(cache := c.cache.(nodes := c.cache.nodes[name := CommitIds(c.cache.nodes[name], pod, ids)]))
      else c
  }

  // ---------- The program ----------

  class Controller {
    const schedulerCache: SchedulerCache
    var podQueue: set<string>
    var removePodCache: map<string, Pod>

    ghost predicate Valid()
      reads this, schedulerCache
    {
      schedulerCache.Valid() && this !in Objects(schedulerCache.nodes)
    }

    ghost function State(): Control
      requires Valid()
      reads this, schedulerCache, Objects(schedulerCache.nodes)
    {
      Control(schedulerCache.State(), podQueue, removePodCache)
    }

    constructor (c: SchedulerCache)
      requires c.Valid()
      ensures schedulerCache == c && Valid() && State() == Control(c.State(), {}, map[])
    {
      schedulerCache := c;
      podQueue := {};
      removePodCache := map[];
    }

    /** `addPodToCache` */
    method AddPodToCache(pod: Pod)
      requires Valid()
      modifies this`podQueue
      ensures Valid() && State() == Handle(old(State()), Added(pod))
    {
      podQueue := podQueue + {pod.key};
    }

    /** `updatePodInCache` */
    method UpdatePodInCache(oldPod: Pod, newPod: Pod)
      requires Valid()
      modifies this`podQueue
      ensures Valid() && State() == Handle(old(State()), Updated(oldPod, newPod))
    {
      var needUpdate := false;
      var podUID := oldPod.uid;
      if schedulerCache.KnownPod(podUID) && newPod.complete {
        needUpdate := true;
      }
      var ids := GetGPUIDFromAnnotation(newPod);
      if !schedulerCache.KnownPod(podUID) && |ids| >= 0 {
        needUpdate := true;
      }
      if needUpdate {
        podQueue := podQueue + {newPod.key};
      }
    }

    /** `deletePodFromCache` */
    method DeletePodFromCache(pod: Pod)
      requires Valid()
      modifies this
      ensures Valid() && State() == Handle(old(State()), Deleted(pod))
    {
      podQueue := podQueue + {pod.key};
      removePodCache := removePodCache[pod.key := pod];
    }

    /** `syncPod`: `pods` is what the pod lister holds, by key. */
    method SyncPod(key: string, pods: map<string, Pod>, lister: Lister) returns (forget: bool, ok: bool)
      requires Valid() && ListerOk(lister)
      modifies this`removePodCache, schedulerCache, Objects(schedulerCache.nodes)
      ensures Valid() && fresh(Objects(schedulerCache.nodes) - old(Objects(schedulerCache.nodes)))
      ensures schedulerCache.State() == Handle(old(State()), Synced(key, pods, lister)).cache
      ensures removePodCache == Handle(old(State()), Synced(key, pods, lister)).removed
      ensures forget == ok == !SyncFails(key, pods, lister)
    {
      if key !in pods {
        if key in removePodCache {
          schedulerCache.RemovePod(removePodCache[key], lister);
          removePodCache := removePodCache - {key};
        } else {
          assert removePodCache - {key} == removePodCache;
        }
      } else if pods[key].complete {
        schedulerCache.RemovePod(pods[key], lister);
      } else {
        var added := schedulerCache.AddOrUpdatePod(pods[key], lister);
        if !added { return false, false; }
      }
      forget, ok := true, true;
    }

    /** `processNextWorkItem`: the key is taken off the queue, and put back if its synchronisation fails. */
    method ProcessNextWorkItem(key: string, pods: map<string, Pod>, lister: Lister) returns (again: bool)
      requires Valid() && ListerOk(lister) && key in podQueue
      modifies this`podQueue, this`removePodCache, schedulerCache, Objects(schedulerCache.nodes)
      ensures Valid() && fresh(Objects(schedulerCache.nodes) - old(Objects(schedulerCache.nodes)))
      ensures schedulerCache.State() == Handle(old(State()), Synced(key, pods, lister)).cache
      ensures removePodCache == Handle(old(State()), Synced(key, pods, lister)).removed
      ensures podQueue == Handle(old(State()), Synced(key, pods, lister)).queue
      ensures again == SyncFails(key, pods, lister)
    {
      podQueue := podQueue - {key};
      var forget, ok := SyncPod(key, pods, lister);
      again := !ok;
      if !ok {
        podQueue := podQueue + {key};
      }
    }
  }

  // ---------- The work queue ----------

  /** Which keys are queued after each step. */
  lemma QueuedIff(c: Control, e: Step, key: string)
    ensures key in Handle(c, e).queue <==>
      match e
      case Added(pod) => key in c.queue || key == pod.key
      case Updated(oldPod, newPod) =>
        key in c.queue || (key == newPod.key && !(oldPod.uid in c.cache.known && !newPod.complete))
      case Deleted(pod) => key in c.queue || key == pod.key
      case Synced(synced, pods, lister) =>
        if key == synced
        then key in pods && !pods[key].complete && pods[key].nodeName != "" && pods[key].nodeName !in lister
        else key in c.queue
      case Committed(_, _, _) => key in c.queue
  {
  }

  ghost predicate RecordsQueued(c: Control) {
    forall key :: key in c.removed ==> key in c.queue
  }

  /** Every record of a deleted pod stays queued, except exactly when its key is synchronised while another
      pod is listed under it and that succeeds: the record then waits until its key is queued again. */
  lemma RecordsStayQueuedIff(c: Control, e: Step)
    requires RecordsQueued(c)
    ensures RecordsQueued(Handle(c, e))
       <==> !(e.Synced? && e.key in c.removed && e.key in e.pods && !SyncFails(e.key, e.pods, e.lister))
  {
    if e.Synced? && e.key in c.removed && e.key in e.pods && !SyncFails(e.key, e.pods, e.lister) {
      assert e.key in Handle(c, e).removed && e.key !in Handle(c, e).queue;
    }
  }

  // ---------- Repeated removals ----------

  /** A removed pod is unknown, so every later update of it is queued again, and synchronising the
      completed pod once more removes it from its node once more. */
  lemma CompletedPodIsRemovedAgain(
      c: Cache, key: string, pods: map<string, Pod>, removed: map<string, Pod>, lister: Lister)
    requires key in pods && pods[key].complete
    ensures var pod := pods[key];
            var once := CacheAfterSync(c, key, pods, removed, lister);
            && pod.uid !in once.known && NeedsUpdate(pod.uid in once.known, pod)
            && CacheAfterSync(once, key, pods, removed, lister) == RemovePod(RemovePod(c, lister, pod), lister, pod)
  {
  }

  /** In between, its GPU may have gone to another pod, which then loses it. */
  lemma AgainTakesAnothersGpu(c: Cache, lister: Lister, pod: Pod, d: int, other: UID)
    requires pod.nodeName in lister && pod.nodeName in c.nodes && !NeedsNode(c, pod.nodeName, lister[pod.nodeName])
    requires c.nodes[pod.nodeName].topology.Keys == c.nodes[pod.nodeName].spec.topology.Keys
    requires d in c.nodes[pod.nodeName].devs && d in PodIds(pod)
    requires other in c.nodes[pod.nodeName].devs[d].pods && other != pod.uid
    ensures var n := RemovePod(c, lister, pod).nodes[pod.nodeName];
            d in FreeIds(n) && other in n.devs[d].pods
  {
    RemoveIdsClosed(c.nodes[pod.nodeName], pod, PodIds(pod));
  }
}

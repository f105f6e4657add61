/** What becomes of a pod whose deletion the controller has handled, over any later handler calls,
    synchronisations and allocations. */
module Deletions {
  import opened NodeState
  import opened Codec
  import opened NodeUpdates
  import opened CacheState
  import opened Controllers

  /** The pod is on the device exactly if `on`. */
  ghost predicate At(c: Cache, name: string, d: int, u: UID, on: bool) {
    && name in c.nodes && c.nodes[name].spec.gpuCount > 0
    && c.nodes[name].topology.Keys == c.nodes[name].spec.topology.Keys
    && d in c.nodes[name].devs && (u in c.nodes[name].devs[d].pods <==> on)
  }

  // ---------- Steps that do not name the pod ----------

  ghost predicate Unnamed(e: Step, u: UID) {
    match e
    case Added(pod) => pod.uid != u
    case Updated(oldPod, newPod) => oldPod.uid != u && newPod.uid != u
    case Deleted(pod) => pod.uid != u
    case Synced(key, pods, lister) => forall k :: k in pods ==> pods[k].uid != u
    case Committed(pod, name, ids) => pod.uid != u
  }

  ghost predicate NoEntry(removed: map<string, Pod>, u: UID) {
    forall k :: k in removed ==> removed[k].uid != u
  }

  lemma AddKeepsAt(c: Cache, lister: Lister, pod: Pod, name: string, d: int, u: UID, on: bool)
    requires At(c, name, d, u, on) && pod.uid != u
    ensures At(AddPod(c, lister, pod), name, d, u, on)
  {
    AddIdsClosed(c.nodes[name], pod, PodIds(pod));
  }

  lemma RemoveKeepsAt(c: Cache, lister: Lister, pod: Pod, name: string, d: int, u: UID, on: bool)
    requires At(c, name, d, u, on) && pod.uid != u
    ensures At(RemovePod(c, lister, pod), name, d, u, on)
  {
    RemoveIdsClosed(c.nodes[name], pod, PodIds(pod));
  }

  lemma SyncKeepsAt(c: Control, e: Step, name: string, d: int, u: UID, on: bool)
    requires At(c.cache, name, d, u, on) && e.Synced? && Unnamed(e, u)
    requires e.key !in e.pods && e.key in c.removed ==> c.removed[e.key].uid != u
    ensures At(Handle(c, e).cache, name, d, u, on)
  {
    var gone := PodToRemove(e.key, e.pods, c.removed);
    if gone.Some? {
      RemoveKeepsAt(c.cache, e.lister, gone.value, name, d, u, on);
    } else if e.key in e.pods {
      AddKeepsAt(c.cache, e.lister, e.pods[e.key], name, d, u, on);
    }
  }

  /** A step that neither names the pod nor finds it among the deleted ones leaves it where it is. */
  lemma StepKeepsAt(c: Control, e: Step, name: string, d: int, u: UID, on: bool)
    requires At(c.cache, name, d, u, on) && Unnamed(e, u)
    requires e.Synced? && e.key !in e.pods && e.key in c.removed ==> c.removed[e.key].uid != u
    ensures At(Handle(c, e).cache, name, d, u, on)
  {
    match e
    case Synced(key, pods, lister) => SyncKeepsAt(c, e, name, d, u, on);
    case Committed(pod, m, ids) =>
      if m == name { CommitIdsClosed(c.cache.nodes[name], pod, ids); }
    case _ =>
  }

  // ---------- Sequences of steps ----------

  function Run(c: Control, es: seq<Step>): Control {
    if es == [] then c else Handle(Run(c, es[..|es| - 1]), es[|es| - 1])
  }

  /** The key is synchronised while no pod is listed under it. */
  predicate Sweeps(e: Step, key: string) {
    e.Synced? && e.key == key && key !in e.pods
  }

  /** The step takes the deleted pod's place among the deleted ones: it sweeps the key, or another pod
      of the key is deleted. */
  predicate Touches(e: Step, key: string) {
    Sweeps(e, key) || (e.Deleted? && e.pod.key == key)
  }

  /** The first step that touches the key sweeps it, while the pod's node is listed. */
  ghost predicate Clears(es: seq<Step>, key: string, name: string) {
    exists i :: 0 <= i < |es| && Sweeps(es[i], key) && name in es[i].lister
             && forall j :: 0 <= j < i ==> !Touches(es[j], key)
  }

  ghost predicate Untouched(es: seq<Step>, key: string) {
    forall j :: 0 <= j < |es| ==> !Touches(es[j], key)
  }

  lemma ClearsMore(es: seq<Step>, e: Step, key: string, name: string)
    ensures Clears(es + [e], key, name)
       <==> Clears(es, key, name) || (Untouched(es, key) && Sweeps(e, key) && name in e.lister)
    ensures Untouched(es + [e], key) <==> Untouched(es, key) && !Touches(e, key)
  {
    var more := es + [e];
    if Clears(es, key, name) {
      var i :| 0 <= i < |es| && Sweeps(es[i], key) && name in es[i].lister
            && forall j :: 0 <= j < i ==> !Touches(es[j], key);
      assert more[i] == es[i] && forall j :: 0 <= j < i ==> more[j] == es[j];
    }
    if Untouched(es, key) && Sweeps(e, key) && name in e.lister {
      assert more[|es|] == e && forall j :: 0 <= j < |es| ==> more[j] == es[j];
    }
    assert more[|es|] == e && forall j :: 0 <= j < |es| ==> more[j] == es[j];
  }

  /** The only record of the deleted pod is under its key. */
  ghost predicate OnlyEntry(removed: map<string, Pod>, p: Pod) {
    p.key in removed && removed[p.key] == p && forall k :: k in removed && removed[k].uid == p.uid ==> k == p.key
  }

  /** The sweep that finds the record acts on this device. */
  ghost predicate Loses(p: Pod, name: string, d: int, es: seq<Step>) {
    p.nodeName == name && d in PodIds(p) && Clears(es, p.key, name)
  }

  /** As long as the key is untouched the record and the pod stay; the first touch decides. */
  ghost predicate Tracks(c: Control, p: Pod, name: string, d: int, es: seq<Step>) {
    && (Untouched(es, p.key) ==> OnlyEntry(c.removed, p) && !Clears(es, p.key, name))
    && (!Untouched(es, p.key) ==> NoEntry(c.removed, p.uid))
    && At(c.cache, name, d, p.uid, !Loses(p, name, d, es))
  }

  /** The synchronisation that finds the record takes the pod off the devices its annotation lists, if
      its node is listed. */
  lemma SweepClears(c: Control, e: Step, p: Pod, name: string, d: int)
    requires At(c.cache, name, d, p.uid, true) && OnlyEntry(c.removed, p) && Sweeps(e, p.key)
    ensures At(Handle(c, e).cache, name, d, p.uid, !(p.nodeName == name && d in PodIds(p) && name in e.lister))
    ensures NoEntry(Handle(c, e).removed, p.uid)
  {
    RemoveIdsClosed(c.cache.nodes[name], p, PodIds(p));
  }

  lemma TracksStep(c: Control, p: Pod, name: string, d: int, es: seq<Step>, e: Step)
    requires Tracks(c, p, name, d, es) && Unnamed(e, p.uid)
    ensures Tracks(Handle(c, e), p, name, d, es + [e])
  {
    ClearsMore(es, e, p.key, name);
    if Untouched(es, p.key) && Sweeps(e, p.key) {
      SweepClears(c, e, p, name, d);
    } else {
      StepKeepsAt(c, e, name, d, p.uid, !Loses(p, name, d, es));
    }
  }

  lemma {:induction false} TracksRun(c: Control, p: Pod, name: string, d: int, es: seq<Step>)
    requires Tracks(c, p, name, d, [])
    requires forall i :: 0 <= i < |es| ==> Unnamed(es[i], p.uid)
    ensures Tracks(Run(c, es), p, name, d, es)
  {
    if es != [] {
      var front, last := es[..|es| - 1], es[|es| - 1];
      TracksRun(c, p, name, d, front);
      TracksStep(Run(c, front), p, name, d, front, last);
      assert es == front + [last];
    }
  }

  /** After the deletion of a pod was handled, and whatever other pods the later steps concern, the pod
      is off a device if and only if its annotation lists the device and its key was synchronised with no
      pod listed under it, the pod's node listed, and no other pod of the key deleted in between. */
  lemma DeletedPodIsOffIff(before: Control, p: Pod, name: string, d: int, es: seq<Step>)
    requires At(before.cache, name, d, p.uid, true)
    requires forall k :: k in before.removed && before.removed[k].uid == p.uid ==> k == p.key
    requires forall i :: 0 <= i < |es| ==> Unnamed(es[i], p.uid)
    ensures At(Run(Handle(before, Deleted(p)), es).cache, name, d, p.uid, !Loses(p, name, d, es))
  {
    var c := Handle(before, Deleted(p));
    assert Untouched([], p.key) && !Clears([], p.key, name);
    TracksRun(c, p, name, d, es);
  }

  /** A pod without a record stays on its device through every sequence of steps that do not name it. */
  lemma {:induction false} UnrecordedPodStays(c: Control, u: UID, name: string, d: int, es: seq<Step>)
    requires At(c.cache, name, d, u, true) && NoEntry(c.removed, u)
    requires forall i :: 0 <= i < |es| ==> Unnamed(es[i], u)
    ensures At(Run(c, es).cache, name, d, u, true) && NoEntry(Run(c, es).removed, u)
  {
    if es != [] {
      UnrecordedPodStays(c, u, name, d, es[..|es| - 1]);
      StepKeepsAt(Run(c, es[..|es| - 1]), es[|es| - 1], name, d, u, true);
    }
  }

  /** When a new pod of the key is synchronised and its deletion handled before the key is found
      unlisted, the old pod stays on its device after whatever follows. */
  lemma ReusedKeyKeepsDeletedPod(before: Control, p: Pod, again: Pod, name: string, d: int, es: seq<Step>)
    requires At(before.cache, name, d, p.uid, true)
    requires forall k :: k in before.removed && before.removed[k].uid == p.uid ==> k == p.key
    requires forall i :: 0 <= i < |es| ==> Unnamed(es[i], p.uid)
    requires |es| >= 2 && es[0].Synced? && es[0].key == p.key && p.key in es[0].pods && es[0].pods[p.key] == again
    requires es[1] == Deleted(again) && again.key == p.key
    ensures At(Run(Handle(before, Deleted(p)), es).cache, name, d, p.uid, true)
  {
    assert Touches(es[1], p.key) && !Sweeps(es[0], p.key) && !Sweeps(es[1], p.key);
    assert !Clears(es, p.key, name);
    DeletedPodIsOffIff(before, p, name, d, es);
  }

  /** When the key is found unlisted before the deletion of the new pod is handled, the old pod is taken
      off, although a new pod had its key in between. */
  lemma EarlySweepClears(before: Control, p: Pod, again: Pod, name: string, d: int, es: seq<Step>)
    requires At(before.cache, name, d, p.uid, true) && p.nodeName == name && d in PodIds(p)
    requires forall k :: k in before.removed && before.removed[k].uid == p.uid ==> k == p.key
    requires forall i :: 0 <= i < |es| ==> Unnamed(es[i], p.uid)
    requires |es| >= 2 && es[0].Synced? && es[0].key == p.key && p.key in es[0].pods && es[0].pods[p.key] == again
    requires Sweeps(es[1], p.key) && name in es[1].lister
    ensures At(Run(Handle(before, Deleted(p)), es).cache, name, d, p.uid, false)
  {
    assert !Touches(es[0], p.key);
    assert Clears(es, p.key, name);
    DeletedPodIsOffIff(before, p, name, d, es);
  }

  // ---------- When the queue is empty of a key ----------

  /** The step concerns other pods only, or synchronises the key as `listed` says with the node listed. */
  ghost predicate Follows(e: Step, p: Pod, listed: Option<Pod>) {
    if e.Synced? && e.key == p.key
    then
      && p.nodeName in e.lister && (forall k :: k in e.pods && k != p.key ==> e.pods[k].uid != p.uid)
      && (if listed.Some? then p.key in e.pods && e.pods[p.key] == listed.value else p.key !in e.pods)
    else Unnamed(e, p.uid) && !Touches(e, p.key)
  }

  /** The key is queued, or the pod is where its synchronisation puts it. */
  ghost predicate Settles(c: Control, p: Pod, name: string, d: int, on: bool) {
    if p.key in c.queue
    then At(c.cache, name, d, p.uid, on) || At(c.cache, name, d, p.uid, !on)
    else At(c.cache, name, d, p.uid, on)
  }

  lemma AddPuts(c: Cache, lister: Lister, p: Pod, name: string, d: int, on: bool)
    requires At(c, name, d, p.uid, on) && p.nodeName == name && name != "" && name in lister && d in PodIds(p)
    ensures At(AddPod(c, lister, p), name, d, p.uid, true)
  {
    AddIdsClosed(c.nodes[name], p, PodIds(p));
  }

  lemma RemoveTakes(c: Cache, lister: Lister, p: Pod, name: string, d: int, on: bool)
    requires At(c, name, d, p.uid, on) && p.nodeName == name && name in lister && d in PodIds(p)
    ensures At(RemovePod(c, lister, p), name, d, p.uid, false)
  {
    RemoveIdsClosed(c.nodes[name], p, PodIds(p));
  }

  lemma OtherStepSettles(c: Control, e: Step, p: Pod, name: string, d: int, on: bool)
    requires Settles(c, p, name, d, on) && Unnamed(e, p.uid) && NoEntryElsewhere(c.removed, p)
    requires !(e.Synced? && e.key == p.key)
    ensures Settles(Handle(c, e), p, name, d, on)
  {
    var now := At(c.cache, name, d, p.uid, on);
    StepKeepsAt(c, e, name, d, p.uid, if now then on else !on);
    QueuedIff(c, e, p.key);
  }

  /** No record of the pod is under another key. */
  ghost predicate NoEntryElsewhere(removed: map<string, Pod>, p: Pod) {
    forall k :: k in removed && removed[k].uid == p.uid ==> k == p.key
  }

  // Added pods

  lemma {:induction false} AddedRun(c: Control, p: Pod, name: string, d: int, es: seq<Step>)
    requires Settles(c, p, name, d, true) && NoEntryElsewhere(c.removed, p)
    requires p.nodeName == name && name != "" && d in PodIds(p) && !p.complete
    requires forall i :: 0 <= i < |es| ==> Follows(es[i], p, Some(p))
    ensures Settles(Run(c, es), p, name, d, true) && NoEntryElsewhere(Run(c, es).removed, p)
  {
    if es != [] {
      var before, e := Run(c, es[..|es| - 1]), es[|es| - 1];
      AddedRun(c, p, name, d, es[..|es| - 1]);
      if e.Synced? && e.key == p.key {
        AddPuts(before.cache, e.lister, p, name, d, At(before.cache, name, d, p.uid, true));
      } else {
        OtherStepSettles(before, e, p, name, d, true);
      }
    }
  }

  /** After a pod was seen, and once its key is no longer queued, it is on the devices its annotation
      lists, whatever other pods the steps in between concern. */
  lemma AddedPodIsOn(before: Control, p: Pod, name: string, d: int, es: seq<Step>, on: bool)
    requires At(before.cache, name, d, p.uid, on) && NoEntryElsewhere(before.removed, p)
    requires p.nodeName == name && name != "" && d in PodIds(p) && !p.complete
    requires forall i :: 0 <= i < |es| ==> Follows(es[i], p, Some(p))
    requires p.key !in Run(Handle(before, Added(p)), es).queue
    ensures At(Run(Handle(before, Added(p)), es).cache, name, d, p.uid, true)
  {
    QueuedIff(before, Added(p), p.key);
    AddedRun(Handle(before, Added(p)), p, name, d, es);
  }

  // Completed pods

  lemma {:induction false} CompletedRun(c: Control, p: Pod, name: string, d: int, es: seq<Step>)
    requires Settles(c, p, name, d, false) && NoEntryElsewhere(c.removed, p)
    requires p.nodeName == name && d in PodIds(p) && p.complete
    requires forall i :: 0 <= i < |es| ==> Follows(es[i], p, Some(p))
    ensures Settles(Run(c, es), p, name, d, false) && NoEntryElsewhere(Run(c, es).removed, p)
  {
    if es != [] {
      var before, e := Run(c, es[..|es| - 1]), es[|es| - 1];
      CompletedRun(c, p, name, d, es[..|es| - 1]);
      if e.Synced? && e.key == p.key {
        RemoveTakes(before.cache, e.lister, p, name, d, At(before.cache, name, d, p.uid, true));
      } else {
        OtherStepSettles(before, e, p, name, d, false);
      }
    }
  }

  /** After a pod was seen to complete, and once its key is no longer queued, it is off the devices its
      annotation lists, whatever other pods the steps in between concern. */
  lemma CompletedPodIsOff(before: Control, oldPod: Pod, p: Pod, name: string, d: int, es: seq<Step>)
    requires At(before.cache, name, d, p.uid, true) && NoEntryElsewhere(before.removed, p)
    requires p.nodeName == name && d in PodIds(p) && p.complete
    requires forall i :: 0 <= i < |es| ==> Follows(es[i], p, Some(p))
    requires p.key !in Run(Handle(before, Updated(oldPod, p)), es).queue
    ensures At(Run(Handle(before, Updated(oldPod, p)), es).cache, name, d, p.uid, false)
  {
    QueuedIff(before, Updated(oldPod, p), p.key);
    CompletedRun(Handle(before, Updated(oldPod, p)), p, name, d, es);
  }

  // Deleted pods

  /** The pod is still recorded and queued, or it is gone. */
  ghost predicate Deleting(c: Control, p: Pod, name: string, d: int) {
    if p.key in c.queue && OnlyEntry(c.removed, p) then At(c.cache, name, d, p.uid, true)
    else NoEntry(c.removed, p.uid) && At(c.cache, name, d, p.uid, false)
  }

  lemma {:induction false} DeletedRun(c: Control, p: Pod, name: string, d: int, es: seq<Step>)
    requires Deleting(c, p, name, d) && p.nodeName == name && d in PodIds(p)
    requires forall i :: 0 <= i < |es| ==> Follows(es[i], p, None)
    ensures Deleting(Run(c, es), p, name, d)
  {
    if es != [] {
      var before, e := Run(c, es[..|es| - 1]), es[|es| - 1];
      DeletedRun(c, p, name, d, es[..|es| - 1]);
      DeletedStep(before, e, p, name, d);
    }
  }

  lemma DeletedStep(c: Control, e: Step, p: Pod, name: string, d: int)
    requires Deleting(c, p, name, d) && p.nodeName == name && d in PodIds(p) && Follows(e, p, None)
    ensures Deleting(Handle(c, e), p, name, d)
  {
    QueuedIff(c, e, p.key);
    var recorded := p.key in c.queue && OnlyEntry(c.removed, p);
    if recorded && e.Synced? && e.key == p.key {
      SweepClears(c, e, p, name, d);
    } else {
      StepKeepsAt(c, e, name, d, p.uid, recorded);
    }
  }

  /** After the deletion of a pod was handled, and once its key is no longer queued, it is off the devices
      its annotation lists, unless a pod of its key was listed or deleted in between. */
  lemma DeletedPodIsOff(before: Control, p: Pod, name: string, d: int, es: seq<Step>)
    requires At(before.cache, name, d, p.uid, true) && NoEntryElsewhere(before.removed, p)
    requires p.nodeName == name && d in PodIds(p)
    requires forall i :: 0 <= i < |es| ==> Follows(es[i], p, None)
    requires p.key !in Run(Handle(before, Deleted(p)), es).queue
    ensures At(Run(Handle(before, Deleted(p)), es).cache, name, d, p.uid, false)
  {
    QueuedIff(before, Deleted(p), p.key);
    DeletedRun(Handle(before, Deleted(p)), p, name, d, es);
  }
}

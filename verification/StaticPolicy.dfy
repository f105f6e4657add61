/** The static policy (pkg/policy/staticdgx_policy.go): the smallest configured GPU set that is free. */
module StaticPolicy {
  import IntSets
  import opened NodeState
  import opened GpuPartitions
  import opened BestEffort

  /** Configured GPU sets by size; no entries if the node type has no configuration. */
  type Config = map<int, seq<seq<int>>>

  /** `TooShort` is the run-time panic of cutting a set that is shorter than the request. */
  datatype StaticOutcome =
    | OutOfRange
    | Configured(ids: seq<int>, score: int)
    | TooShort
    | Unconfigured(ids: seq<int>)

  predicate Distinct(s: seq<int>) {
    forall i, j :: 0 <= i < j < |s| ==> s[i] != s[j]
  }

  /** Key k lists sets of k distinct ids. */
  predicate WellFormedConfig(config: Config) {
    forall k :: k in config ==> forall s :: s in config[k] ==> |s| == k && Distinct(s)
  }

  // ---------- Sorting ----------

  function Insert(x: int, s: seq<int>): seq<int> {
    if s == [] || x <= s[0] then [x] + s else [s[0]] + Insert(x, s[1..])
  }

  /** The increasing rearrangement of s. */
  function Sorted(s: seq<int>): seq<int> {
    if s == [] then [] else Insert(s[0], Sorted(s[1..]))
  }

  ghost predicate Ascending(s: seq<int>) {
    forall i, j :: 0 <= i < j < |s| ==> s[i] <= s[j]
  }

  lemma {:induction false} InsertElements(x: int, s: seq<int>)
    ensures multiset(Insert(x, s)) == multiset{x} + multiset(s)
  {
    if s != [] && x > s[0] {
      InsertElements(x, s[1..]);
      assert s == [s[0]] + s[1..];
    }
  }

  lemma {:induction false} InsertIsAscending(x: int, s: seq<int>)
    requires Ascending(s)
    ensures Ascending(Insert(x, s))
  {
    if s != [] && x > s[0] {
      var rest := Insert(x, s[1..]);
      InsertIsAscending(x, s[1..]);
      InsertElements(x, s[1..]);
      forall i | 0 <= i < |rest| ensures s[0] <= rest[i] {
        assert rest[i] in multiset(rest);
        assert rest[i] == x || rest[i] in s[1..];
      }
    }
  }

  lemma {:induction false} SortedIsAscending(s: seq<int>)
    ensures Ascending(Sorted(s)) && multiset(Sorted(s)) == multiset(s)
  {
    if s != [] {
      SortedIsAscending(s[1..]);
      InsertIsAscending(s[0], Sorted(s[1..]));
      InsertElements(s[0], Sorted(s[1..]));
      assert s == [s[0]] + s[1..];
    }
  }

  lemma {:induction false} DistinctIsMultiset(s: seq<int>)
    ensures Distinct(s) <==> forall x :: multiset(s)[x] <= 1
  {
    if s != [] {
      var front, last := s[..|s| - 1], s[|s| - 1];
      assert s == front + [last];
      DistinctIsMultiset(front);
      assert last in front <==> multiset(front)[last] >= 1;
      if Distinct(s) {
        assert last !in front;
      } else if Distinct(front) {
        var i, j :| 0 <= i < j < |s| && s[i] == s[j];
        assert multiset(s)[last] >= 2;
      } else {
        var x :| multiset(front)[x] > 1;
        assert multiset(s)[x] > 1;
      }
    }
  }

  /** Sorting keeps length, elements and distinctness. */
  lemma SortedKeeps(s: seq<int>)
    ensures |Sorted(s)| == |s| && (forall x :: x in Sorted(s) <==> x in s)
    ensures Distinct(s) ==> Distinct(Sorted(s))
  {
    SortedIsAscending(s);
    assert |multiset(Sorted(s))| == |multiset(s)|;
    assert forall x :: x in Sorted(s) <==> x in multiset(Sorted(s));
    assert forall x :: x in s <==> x in multiset(s);
    DistinctIsMultiset(s);
    DistinctIsMultiset(Sorted(s));
  }

  // ---------- The program ----------

  /** `isNInSet` */
  method IsNInSet(n: int, s: seq<int>) returns (found: bool)
    ensures found == (n in s)
  {
    if |s| == 0 { return false; }
    for i := 0 to |s|
      invariant n !in s[..i]
    {
      if s[i] == n { return true; }
    }
    found := false;
  }

  /** `isSubInSet` also sorts both of its arguments in place. */
  method IsSubInSet(child: seq<int>, parent: seq<int>) returns (sortedChild: seq<int>, sortedParent: seq<int>, ok: bool)
    ensures sortedChild == Sorted(child) && sortedParent == Sorted(parent)
    ensures ok <==> |child| <= |parent| && forall id :: id in child ==> id in parent
  {
    sortedChild, sortedParent := Sorted(child), Sorted(parent);
    SortedKeeps(child);
    SortedKeeps(parent);
    if |sortedChild| > |sortedParent| { return sortedChild, sortedParent, false; }
    for i := 0 to |sortedChild|
      invariant forall id :: id in sortedChild[..i] ==> id in parent
    {
      var found := IsNInSet(sortedChild[i], sortedParent);
      if !found { return sortedChild, sortedParent, false; }
    }
    ok := true;
  }

  predicate Free(n: Node, s: seq<int>) {
    forall id :: id in s ==> id in FreeIds(n)
  }

  /** All its ids are free, and it lists no more ids than are free. */
  predicate Usable(n: Node, s: seq<int>) {
    |s| <= |FreeIds(n)| && Free(n, s)
  }

  lemma UsableFits(n: Node, s: seq<int>, devices: seq<int>)
    requires FreeDevices(n, devices)
    ensures Usable(n, s) <==> |s| <= |devices| && forall id :: id in s ==> id in devices
  {
    FreeDevicesCount(n, devices);
    assert forall id :: id in devices <==> id in Reals(devices);
  }

  /** A set of distinct free ids is usable. */
  lemma DistinctIsUsable(n: Node, s: seq<int>)
    requires Distinct(s)
    ensures Usable(n, s) <==> Free(n, s)
  {
    if Free(n, s) {
      DistinctCount(s);
      SubsetCount(Elements(s), FreeIds(n));
    }
  }

  function Elements(s: seq<int>): set<int> {
    set id | id in s
  }

  lemma {:induction false} DistinctCount(s: seq<int>)
    requires Distinct(s)
    ensures |Elements(s)| == |s|
  {
    if s != [] {
      var front, last := s[..|s| - 1], s[|s| - 1];
      assert s == front + [last];
      DistinctCount(front);
      IntSets.SameElements(Elements(s), Elements(front) + {last});
    } else {
      IntSets.NoElements(Elements(s));
    }
  }

  lemma SubsetCount(a: set<int>, b: set<int>)
    requires a <= b
    ensures |a| <= |b|
  {
    assert |b| == |a| + |b - a|;
  }

  /** The first usable set listed for one size. */
  ghost predicate FirstUsable(n: Node, sets: seq<seq<int>>, i: nat) {
    i < |sets| && Usable(n, sets[i]) && forall j :: 0 <= j < i ==> !Usable(n, sets[j])
  }

  ghost predicate NoneUsable(n: Node, sets: seq<seq<int>>) {
    forall s :: s in sets ==> !Usable(n, s)
  }

  ghost predicate NoneUsableAt(n: Node, config: Config, k: int) {
    k in config ==> NoneUsable(n, config[k])
  }

  method FindSet(n: Node, sets: seq<seq<int>>, devices: seq<int>)
    returns (chosen: seq<int>, sorted: seq<int>, found: bool, ghost at: nat)
    requires FreeDevices(n, devices)
    ensures FreeDevices(n, sorted)
    ensures found ==> FirstUsable(n, sets, at) && chosen == Sorted(sets[at])
    ensures !found ==> NoneUsable(n, sets)
  {
    sorted := devices;
    for i := 0 to |sets|
      invariant FreeDevices(n, sorted)
      invariant forall j :: 0 <= j < i ==> !Usable(n, sets[j])
    {
      UsableFits(n, sets[i], sorted);
      SortedDevices(n, sorted);
      chosen, sorted, found := IsSubInSet(sets[i], sorted);
      if found { return chosen, sorted, true, i; }
    }
    chosen, found, at := [], false, 0;
  }

  lemma SortedDevices(n: Node, devices: seq<int>)
    requires FreeDevices(n, devices)
    ensures FreeDevices(n, Sorted(devices))
  {
    SortedKeeps(devices);
    assert Distinct(devices);
    var sorted := Sorted(devices);
    forall i | 0 <= i < |sorted| ensures sorted[i] >= 0 {
      assert sorted[i] in sorted;
    }
    IntSets.SameElements(Reals(Sorted(devices)), Reals(devices));
  }

  /** `r` comes from the first usable set of the smallest size k >= req that has one: the whole set for
      the size itself, otherwise cut to the request. */
  ghost predicate CutFrom(n: Node, config: Config, req: int, k: int, at: nat, r: StaticOutcome) {
    && 1 <= req <= k <= |FreeIds(n)| + 1 && k in config && FirstUsable(n, config[k], at)
    && (forall smaller :: req <= smaller < k ==> NoneUsableAt(n, config, smaller))
    && var s := Sorted(config[k][at]);
       r == if k == req then Configured(s, 20) else if |s| < req then TooShort else Configured(s[..req], 15)
  }

  /** Which outcomes the policy may have; sizes beyond the number of devices and one are not tried. */
  ghost predicate StaticChoice(n: Node, config: Config, req: int, r: StaticOutcome) {
    match r
    case OutOfRange => req <= 0 || req > |FreeIds(n)|
    case Unconfigured(ids) =>
      1 <= req <= |FreeIds(n)| && forall k :: req <= k <= |FreeIds(n)| + 1 ==> NoneUsableAt(n, config, k)
    case _ =>
      req <= |FreeIds(n)| && exists k: int, at: nat :: CutFrom(n, config, req, k, at, r)
  }

  /** A request is out of range exactly if it is not positive or more than is free. */
  lemma OutOfRangeIff(n: Node, config: Config, req: int, r: StaticOutcome)
    requires StaticChoice(n, config, req, r)
    ensures r.OutOfRange? <==> req < 1 || req > |FreeIds(n)|
  {
    if !r.OutOfRange? && !r.Unconfigured? {
      var k: int, at: nat :| CutFrom(n, config, req, k, at, r);
    }
  }

  /** All ids of s are free and no more of them than there are free GPUs. */
  ghost predicate Fits(n: Node, s: seq<int>) {
    |s| <= |FreeIds(n)| && forall id :: id in s ==> id in n.devs && !n.devs[id].isUsed
  }

  /** The set at `at` of size k is the first that fits, of the smallest size from the request on. */
  ghost predicate FirstFitting(n: Node, config: Config, req: int, k: int, at: nat) {
    && req <= k <= |FreeIds(n)| + 1 && k in config && at < |config[k]| && Fits(n, config[k][at])
    && (forall j :: 0 <= j < at ==> !Fits(n, config[k][j]))
    && (forall smaller, s :: req <= smaller < k && smaller in config && s in config[smaller] ==> !Fits(n, s))
  }

  /** The ids are the smallest of the set, in ascending order, as many as `count`. */
  ghost predicate Smallest(ids: seq<int>, s: seq<int>, count: nat) {
    |ids| == count && Ascending(ids) && exists rest :: multiset(ids + rest) == multiset(s) && Ascending(ids + rest)
  }

  /** A success takes the smallest ids of the first fitting set of the smallest fitting size: all of them
      with score 20 if the size is that of the request, otherwise as many as requested with score 15. */
  lemma StaticIsSmallest(n: Node, config: Config, req: int, r: StaticOutcome)
    requires StaticChoice(n, config, req, r) && r.Configured?
    ensures exists k: int, at: nat :: FirstFitting(n, config, req, k, at)
              && Smallest(r.ids, config[k][at], if k == req then |config[k][at]| else req)
              && r.score == if k == req then 20 else 15
  {
    var k: int, at: nat :| CutFrom(n, config, req, k, at, r);
    var s := config[k][at];
    CutIsFirst(n, config, req, k, at, r);
    SortedIsAscending(s);
    SortedKeeps(s);
    SmallestOfSorted(r.ids, s);
  }

  lemma FirstFittingIsUnique(n: Node, config: Config, req: int, k: int, at: nat, k': int, at': nat)
    requires FirstFitting(n, config, req, k, at) && FirstFitting(n, config, req, k', at')
    ensures k == k' && at == at'
  {
    assert config[k][at] in config[k] && config[k'][at'] in config[k'];
  }

  lemma CutIsFirst(n: Node, config: Config, req: int, k: int, at: nat, r: StaticOutcome)
    requires CutFrom(n, config, req, k, at, r)
    ensures FirstFitting(n, config, req, k, at) && |Sorted(config[k][at])| == |config[k][at]|
  {
    forall smaller, t | req <= smaller < k && smaller in config && t in config[smaller] ensures !Fits(n, t) {
      assert NoneUsableAt(n, config, smaller);
      UsableIsFits(n, t);
    }
    forall j | 0 <= j < |config[k]| ensures Fits(n, config[k][j]) <==> Usable(n, config[k][j]) {
      UsableIsFits(n, config[k][j]);
    }
    SortedKeeps(config[k][at]);
  }

  /** For any configuration the policy panics exactly if the first fitting set is one of a larger size that
      lists fewer ids than requested. */
  lemma PanicsIff(n: Node, config: Config, req: int, r: StaticOutcome)
    requires StaticChoice(n, config, req, r) && 1 <= req <= |FreeIds(n)|
    ensures r.TooShort? <==>
      exists k: int, at: nat :: FirstFitting(n, config, req, k, at) && k > req && |config[k][at]| < req
  {
    if !r.Unconfigured? && !r.OutOfRange? {
      var k: int, at: nat :| CutFrom(n, config, req, k, at, r);
      CutIsFirst(n, config, req, k, at, r);
      forall k': int, at': nat | FirstFitting(n, config, req, k', at') ensures k == k' && at == at' {
        FirstFittingIsUnique(n, config, req, k, at, k', at');
      }
    } else {
      forall k: int, at: nat | FirstFitting(n, config, req, k, at) ensures !NoneUsableAt(n, config, k) {
        FittingIsUsable(n, config, req, k, at);
      }
    }
  }

  lemma FittingIsUsable(n: Node, config: Config, req: int, k: int, at: nat)
    requires FirstFitting(n, config, req, k, at)
    ensures !NoneUsableAt(n, config, k)
  {
    UsableIsFits(n, config[k][at]);
    assert config[k][at] in config[k];
  }

  lemma UsableIsFits(n: Node, s: seq<int>)
    ensures Usable(n, s) <==> Fits(n, s)
  {
  }

  lemma SmallestOfSorted(ids: seq<int>, s: seq<int>)
    requires |ids| <= |Sorted(s)| && ids == Sorted(s)[..|ids|]
    requires Ascending(Sorted(s)) && multiset(Sorted(s)) == multiset(s)
    ensures Smallest(ids, s, |ids|)
  {
    var rest := Sorted(s)[|ids|..];
    assert ids + rest == Sorted(s);
  }

  /** For any configuration a set is found if and only if one of the tried sizes lists a usable one. */
  lemma SetIsFoundIff(n: Node, config: Config, req: int, r: StaticOutcome)
    requires StaticChoice(n, config, req, r) && 1 <= req <= |FreeIds(n)|
    ensures !r.Unconfigured? <==>
      exists k, s :: req <= k <= |FreeIds(n)| + 1 && k in config && s in config[k] && Usable(n, s)
  {
    if !r.Unconfigured? {
      var k: int, at: nat :| CutFrom(n, config, req, k, at, r);
      assert config[k][at] in config[k];
    } else {
      forall k, s | req <= k <= |FreeIds(n)| + 1 && k in config && s in config[k] ensures !Usable(n, s) {
        assert NoneUsableAt(n, config, k);
      }
    }
  }

  /** With sets of k distinct ids under each key k it succeeds if and only if some configured set of
      req or more GPUs is free, however large. */
  lemma StaticSucceeds(n: Node, config: Config, req: int, r: StaticOutcome)
    requires StaticChoice(n, config, req, r) && 1 <= req <= |FreeIds(n)| && WellFormedConfig(config)
    ensures r.Configured? <==> exists k, s :: k >= req && k in config && s in config[k] && Free(n, s)
  {
    SetIsFoundIff(n, config, req, r);
    NothingLarger(n, config, |FreeIds(n)|);
    forall k, s | k in config && s in config[k] ensures Usable(n, s) <==> Free(n, s) {
      DistinctIsUsable(n, s);
    }
    if !r.Unconfigured? { LongEnough(n, config, req, r); }
  }

  lemma LongEnough(n: Node, config: Config, req: int, r: StaticOutcome)
    requires (exists k: int, at: nat :: CutFrom(n, config, req, k, at, r)) && WellFormedConfig(config)
    ensures r.Configured?
  {
    var k: int, at: nat :| CutFrom(n, config, req, k, at, r);
    SortedKeeps(config[k][at]);
    assert config[k][at] in config[k];
  }

  /** Whatever the configuration, only free GPUs are chosen. */
  lemma StaticIdsAreFree(n: Node, config: Config, req: int, r: StaticOutcome)
    requires StaticChoice(n, config, req, r) && r.Configured?
    ensures Free(n, r.ids)
  {
    var k: int, at: nat :| CutFrom(n, config, req, k, at, r);
    SortedKeeps(config[k][at]);
    assert forall id :: id in r.ids ==> id in Sorted(config[k][at]);
  }

  /** With sets of k distinct ids under each key k a success yields exactly req distinct free GPUs, with
      score 20 if and only if the set has the requested size. */
  lemma StaticIds(n: Node, config: Config, req: int, r: StaticOutcome)
    requires StaticChoice(n, config, req, r) && WellFormedConfig(config) && r.Configured?
    ensures |r.ids| == req && Distinct(r.ids) && Free(n, r.ids)
    ensures r.score in {15, 20} && (r.score == 20 <==> req in config && !NoneUsable(n, config[req]))
  {
    var k: int, at: nat :| CutFrom(n, config, req, k, at, r);
    var s := config[k][at];
    assert s in config[k];
    SortedKeeps(s);
    StaticIdsAreFree(n, config, req, r);
    assert k > req ==> NoneUsableAt(n, config, req);
  }

  /** The ids and the score of a success do not depend on the order of the device map. */
  lemma StaticIsDetermined(n: Node, config: Config, req: int, r: StaticOutcome, r': StaticOutcome)
    requires StaticChoice(n, config, req, r) && StaticChoice(n, config, req, r') && (r.Configured? || r.TooShort?)
    ensures r' == r
  {
    var k: int, at: nat :| CutFrom(n, config, req, k, at, r);
    assert config[k][at] in config[k];
    assert !NoneUsableAt(n, config, k);
    if !r'.Unconfigured? {
      var k': int, at': nat :| CutFrom(n, config, req, k', at', r');
      assert config[k'][at'] in config[k'];
      assert !NoneUsableAt(n, config, k');
      assert k == k' && at == at';
    }
  }

  /** `staticRunner.PreAllocate` for the decoded configuration of the node's type. */
  method PreAllocate(n: Node, config: Config, req: int) returns (r: StaticOutcome)
    requires WellFormed(n)
    ensures StaticChoice(n, config, req, r)
    ensures r.Unconfigured? ==> |r.ids| == req && Distinct(r.ids) && Free(n, r.ids)
  {
    var availableGPUs := AvailableGPUs(n);
    if req <= 0 || req > availableGPUs { return OutOfRange; }
    var devices := CollectFree(n);
    FreeDevicesCount(n, devices);
    var chosen, found;
    ghost var at;
    if req in config {
      chosen, devices, found, at := FindSet(n, config[req], devices);
      if found {
        r := Configured(chosen, 20);
        assert CutFrom(n, config, req, req, at, r);
        return;
      }
    }
    var virtualReq := req;
    while true
      invariant virtualReq >= req && FreeDevices(n, devices)
      invariant forall smaller :: req <= smaller <= virtualReq ==> NoneUsableAt(n, config, smaller)
      invariant virtualReq <= |FreeIds(n)|
      decreases |FreeIds(n)| - virtualReq
    {
      virtualReq := virtualReq + 1;
      if virtualReq in config {
        chosen, devices, found, at := FindSet(n, config[virtualReq], devices);
        if found {
          r := if |chosen| < req then TooShort else Configured(chosen[..req], 15);
          assert CutFrom(n, config, req, virtualReq, at, r);
          return;
        }
      }
      FreeDevicesCount(n, devices);
      if virtualReq > |devices| { break; }
    }
    assert Distinct(devices);
    r := Unconfigured(devices[..req]);
  }

  /** Looking further than the number of free devices finds nothing. */
  lemma NothingLarger(n: Node, config: Config, count: nat)
    requires WellFormedConfig(config) && count == |FreeIds(n)|
    ensures forall larger, s :: larger > count && larger in config && s in config[larger] ==> !Free(n, s)
  {
    forall larger, s | larger > count && larger in config && s in config[larger] ensures !Free(n, s) {
      if Free(n, s) {
        DistinctCount(s);
        SubsetCount(Elements(s), FreeIds(n));
      }
    }
  }
}

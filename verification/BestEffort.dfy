/** The best-effort policy: the best-scoring partition of the free GPUs, then its best block. */
module BestEffort {
  import IntSets
  import opened Arithmetic
  import opened NodeState
  import opened GpuPartitions
  import opened PartitionTheory
  import opened Scores

  /** `IndexOutOfRange` is the run-time panic of indexing the empty `bestPartition`. */
  datatype Outcome = Invalid | IndexOutOfRange | Selected(ids: seq<int>, score: int)

  // ---------- Specification ----------

  /** The partition kept by the callback and `bestScore`: the first candidate with the highest
      score above 0. The kept partition starts as an empty, non-nil list, so that the callback's
      nil test never fires. */
  function Best(n: Node, candidates: seq<Partition>): (Partition, int) {
    if candidates == [] then ([], 0)
    else
      var kept, last := Best(n, candidates[..|candidates| - 1]), candidates[|candidates| - 1];
      var score := PartitionScore(n, last);
      if score > kept.1 then (last, score) else kept
  }

  /** The first block with the highest score. */
  function BestBlock(n: Node, p: Partition): (seq<int>, int)
    requires p != []
  {
    var score := SetScore(n, p[|p| - 1]);
    if |p| == 1 then (p[0], score)
    else
      var kept := BestBlock(n, p[..|p| - 1]);
      if score > kept.1 then (p[|p| - 1], score) else kept
  }

  function Selection(n: Node, devices: seq<int>, req: int): Outcome {
    if req <= 0 || req > |devices| then Invalid
    else
      var kept := Best(n, Candidates(devices, req)).0;
      if kept == [] then IndexOutOfRange
      else var block := BestBlock(n, kept); Selected(block.0, block.1)
  }

  /** The free devices in some order of iteration over the device map. */
  ghost predicate FreeDevices(n: Node, devices: seq<int>) {
    DeviceIds(devices) && Reals(devices) == FreeIds(n)
  }

  // ---------- The program ----------

  /** The loop over the device map: an arbitrary order. */
  method CollectFree(n: Node) returns (devices: seq<int>)
    requires WellFormed(n)
    ensures FreeDevices(n, devices)
  {
    devices := [];
    var todo := n.devs.Keys;
    while todo != {}
      invariant todo <= n.devs.Keys
      invariant DeviceIds(devices)
      invariant forall id :: id in devices <==> id in n.devs && id !in todo && !n.devs[id].isUsed
      decreases todo
    {
      IntSets.NonEmpty(todo);
      var id :| id in todo;
      todo := todo - {id};
      if !n.devs[id].isUsed {
        devices := devices + [id];
      }
    }
    IntSets.SameElements(Reals(devices), FreeIds(n));
  }

  lemma FreeDevicesCount(n: Node, devices: seq<int>)
    requires FreeDevices(n, devices)
    ensures |devices| == |FreeIds(n)|
  {
    BlockSize(devices);
    assert PADDING !in devices;
  }

  /** The outcome is the selection for one of the orders in which the device map may be iterated. */
  ghost predicate SelectsFrom(n: Node, req: int, r: Outcome) {
    exists devices :: FreeDevices(n, devices) && r == Selection(n, devices, req)
  }

  /** `bestRunner.PreAllocate` */
  method PreAllocate(n: Node, req: int) returns (r: Outcome)
    requires WellFormed(n)
    ensures SelectsFrom(n, req, r)
  {
    var devices := CollectFree(n);
    FreeDevicesCount(n, devices);
    var availableGPUs := AvailableGPUs(n);
    r := Invalid;
    if !(req <= 0 || req > availableGPUs) {
      r := SelectBest(n, devices, req);
    }
    assert r == Selection(n, devices, req);
  }

  /** The part of `PreAllocate` for a request that fits. */
  method SelectBest(n: Node, devices: seq<int>, req: int) returns (r: Outcome)
    requires DeviceIds(devices) && 1 <= req <= |devices|
    ensures r == Selection(n, devices, req)
  {
    var candidates := IterateGPUPartitions(devices, req);
    var bestPartition, bestScore := [], 0;
    for i := 0 to |candidates|
      invariant (bestPartition, bestScore) == Best(n, candidates[..i])
    {
      assert candidates[..i + 1][..i] == candidates[..i];
      var score := CalculateGPUPartitionScore(n, candidates[i]);
      if score > bestScore {
        bestPartition, bestScore := candidates[i], score;
      }
    }
    assert candidates[..|candidates|] == candidates;
    if bestPartition == [] { return IndexOutOfRange; }
    var bestSet, setScore := SelectBlock(n, bestPartition);
    r := Selected(bestSet, setScore);
  }

  method SelectBlock(n: Node, bestPartition: Partition) returns (bestSet: seq<int>, bestScore: int)
    requires bestPartition != []
    ensures (bestSet, bestScore) == BestBlock(n, bestPartition)
  {
    bestSet := bestPartition[0];
    bestScore := CalculateGPUSetScore(n, bestSet);
    for i := 1 to |bestPartition|
      invariant (bestSet, bestScore) == BestBlock(n, bestPartition[..i])
    {
      assert bestPartition[..i + 1][..i] == bestPartition[..i];
      var score := CalculateGPUSetScore(n, bestPartition[i]);
      if score > bestScore {
        bestSet, bestScore := bestPartition[i], score;
      }
    }
    assert bestPartition[..|bestPartition|] == bestPartition;
  }

  /** `GetGPUUsedCount` and `GetAvailableGPUs` */
  method AvailableGPUs(n: Node) returns (available: int)
    requires WellFormed(n)
    ensures available == |FreeIds(n)|
  {
    var count := 0;
    var todo := n.devs.Keys;
    while todo != {}
      invariant todo <= n.devs.Keys
      invariant count == |set id | id in n.devs && id !in todo && n.devs[id].isUsed|
      decreases todo
    {
      IntSets.NonEmpty(todo);
      var id :| id in todo;
      ghost var before := set i | i in n.devs && i !in todo && n.devs[i].isUsed;
      todo := todo - {id};
      ghost var after := set i | i in n.devs && i !in todo && n.devs[i].isUsed;
      if n.devs[id].isUsed {
        count := count + 1;
        IntSets.SameElements(after, before + {id});
      } else {
        IntSets.SameElements(after, before);
      }
    }
    available := n.spec.gpuCount - count;
    FreeAndUsed(n);
    IntSets.SameElements(UsedIds(n), set i | i in n.devs && i !in todo && n.devs[i].isUsed);
  }

  // ---------- Which of equals is kept ----------

  /** The candidate at i scores above 0, more than every one before it and no less than any after it. */
  ghost predicate FirstBest(n: Node, candidates: seq<Partition>, i: nat) {
    && i < |candidates| && PartitionScore(n, candidates[i]) > 0
    && (forall j :: 0 <= j < i ==> PartitionScore(n, candidates[j]) < PartitionScore(n, candidates[i]))
    && (forall j :: i < j < |candidates| ==> PartitionScore(n, candidates[j]) <= PartitionScore(n, candidates[i]))
  }

  /** No candidate scores and nothing is kept, or the first best one is kept. */
  ghost predicate KeptAt(n: Node, candidates: seq<Partition>, kept: (Partition, int), i: nat) {
    if kept.0 == [] then kept.1 == 0 && forall p :: p in candidates ==> PartitionScore(n, p) <= 0
    else FirstBest(n, candidates, i) && kept == (candidates[i], PartitionScore(n, candidates[i]))
  }

  lemma KeptOneMore(n: Node, front: seq<Partition>, last: Partition, kept: (Partition, int), i: nat)
    requires KeptAt(n, front, kept, i)
    ensures PartitionScore(n, last) <= kept.1 ==> KeptAt(n, front + [last], kept, i)
    ensures PartitionScore(n, last) > kept.1 && last != [] ==>
      KeptAt(n, front + [last], (last, PartitionScore(n, last)), |front|)
  {
    var more := front + [last];
    assert forall j :: 0 <= j < |front| ==> more[j] == front[j];
    assert forall j :: 0 <= j < |front| ==> front[j] in front;
    assert more[|front|] == last;
  }

  lemma {:induction false} BestIsFirst(n: Node, candidates: seq<Partition>) returns (i: nat)
    ensures KeptAt(n, candidates, Best(n, candidates), i)
  {
    i := 0;
    if candidates != [] {
      var m := |candidates| - 1;
      i := BestIsFirst(n, candidates[..m]);
      KeptOneMore(n, candidates[..m], candidates[m], Best(n, candidates[..m]), i);
      assert candidates == candidates[..m] + [candidates[m]];
      if PartitionScore(n, candidates[m]) > Best(n, candidates[..m]).1 {
        i := m;
        assert PartitionScore(n, []) == 0;
      }
      BestIsMaximal(n, candidates[..m]);
    }
  }

  /** The block at i scores more than every one before it and no less than any after it. */
  ghost predicate FirstBlock(n: Node, p: Partition, i: nat) {
    && i < |p|
    && (forall j :: 0 <= j < i ==> SetScore(n, p[j]) < SetScore(n, p[i]))
    && (forall j :: i < j < |p| ==> SetScore(n, p[j]) <= SetScore(n, p[i]))
  }

  lemma {:induction false} BestBlockIsFirst(n: Node, p: Partition) returns (i: nat)
    requires p != []
    ensures FirstBlock(n, p, i) && BestBlock(n, p) == (p[i], SetScore(n, p[i]))
  {
    var m := |p| - 1;
    if m == 0 {
      i := 0;
    } else {
      assert p == p[..m] + [p[m]];
      i := BestBlockIsFirst(n, p[..m]);
      if SetScore(n, p[m]) > SetScore(n, p[i]) { i := m; }
    }
  }

  /** The result is the first best block of the first best candidate, with its score. */
  ghost predicate FirstChoice(n: Node, candidates: seq<Partition>, i: nat, b: nat, r: Outcome) {
    && FirstBest(n, candidates, i) && FirstBlock(n, candidates[i], b)
    && r == Selected(candidates[i][b], SetScore(n, candidates[i][b]))
  }

  /** The outcome in terms of the listed candidates alone: a request that does not fit is invalid, without
      a scoring candidate the index is out of range, and otherwise it is the first choice. */
  lemma SelectionIsFirst(n: Node, devices: seq<int>, req: int)
    ensures var r, candidates := Selection(n, devices, req), Candidates(devices, req);
            if req < 1 || req > |devices| then r == Invalid
            else if forall p :: p in candidates ==> PartitionScore(n, p) <= 0 then r == IndexOutOfRange
            else exists i: nat, b: nat :: FirstChoice(n, candidates, i, b, r)
  {
    if 1 <= req <= |devices| {
      var candidates := Candidates(devices, req);
      var i := BestIsFirst(n, candidates);
      var kept := Best(n, candidates);
      if kept.0 != [] {
        var b := BestBlockIsFirst(n, kept.0);
        assert FirstChoice(n, candidates, i, b, Selection(n, devices, req));
        assert candidates[i] in candidates;
      }
    }
  }

  /** For every order of the device map the outcome is invalid exactly if the request does not fit. */
  lemma InvalidIff(n: Node, req: int, r: Outcome)
    requires SelectsFrom(n, req, r)
    ensures r.Invalid? <==> req < 1 || req > |FreeIds(n)|
  {
    var devices :| FreeDevices(n, devices) && r == Selection(n, devices, req);
    FreeDevicesCount(n, devices);
    SelectionIsFirst(n, devices, req);
  }

  // ---------- What the selection guarantees ----------

  lemma {:induction false} BestIsMaximal(n: Node, candidates: seq<Partition>)
    ensures var kept := Best(n, candidates);
            && kept.1 >= 0
            && (forall p :: p in candidates ==> PartitionScore(n, p) <= kept.1)
            && (if kept.1 == 0 then kept.0 == []
                else kept.0 in candidates && kept.0 != [] && PartitionScore(n, kept.0) == kept.1)
  {
    if candidates != [] {
      var front, last := candidates[..|candidates| - 1], candidates[|candidates| - 1];
      BestIsMaximal(n, front);
      assert candidates == front + [last];
    }
  }

  lemma {:induction false} BestBlockIsMaximal(n: Node, p: Partition)
    requires p != []
    ensures var kept := BestBlock(n, p);
            kept.0 in p && kept.1 == SetScore(n, kept.0) && forall b :: b in p ==> SetScore(n, b) <= kept.1
  {
    if |p| > 1 {
      var front, last := p[..|p| - 1], p[|p| - 1];
      BestBlockIsMaximal(n, front);
      assert p == front + [last];
    }
  }

  lemma {:induction false} ShapeAtMost(p: Partition)
    ensures |Shape(p)| <= |p|
  {
    if p != [] {
      var front, last := p[..|p| - 1], p[|p| - 1];
      ShapeAtMost(front);
      ShapeOfLast(front, last);
      assert p == front + [last];
    } else {
      assert Shape(p) == {};
    }
  }

  lemma AddPresent(P: set<set<int>>, B: set<int>)
    ensures B in P ==> P + {B} == P
  {
  }

  /** A candidate whose shape has as many blocks as the list has no block twice. */
  lemma {:induction false} BlocksAreDistinct(p: Partition)
    requires |Shape(p)| == |p|
    ensures forall i, j :: 0 <= i < j < |p| ==> Reals(p[i]) != Reals(p[j])
  {
    if p != [] {
      var front, last := p[..|p| - 1], p[|p| - 1];
      assert p == front + [last];
      ShapeOfLast(front, last);
      ShapeAtMost(front);
      AddPresent(Shape(front), Reals(last));
      BlocksAreDistinct(front);
      forall i | 0 <= i < |front| ensures Reals(p[i]) != Reals(last) {
        assert front[i] in front;
      }
    }
  }

  lemma CandidateScore(n: Node, devices: seq<int>, req: nat, p: Partition)
    requires DeviceIds(devices) && 2 <= req <= |devices| && Symmetric(n.topology) && p in Candidates(devices, req)
    ensures IsPartition(Shape(p), Reals(devices), req) && PartitionScore(n, p) == TotalScore(n, Shape(p))
    ensures BlocksFit(p, Padded(devices, req), req)
  {
    CandidatesAreExact(devices, req);
    PaddedReals(devices, req);
    BlocksAreDistinct(p);
    PartitionScoreOfList(n, p);
  }

  lemma PaddedReals(devices: seq<int>, req: nat)
    requires DeviceIds(devices) && 2 <= req <= |devices|
    ensures Reals(Padded(devices, req)) == Reals(devices)
  {
    PaddedIsLevel(devices, req);
    LayoutIsUnique(Padded(devices, req), devices, PadCount(|devices|, req));
  }

  /** The best score is the maximum over all partitions of the free devices. */
  lemma BestIsOptimal(n: Node, devices: seq<int>, req: nat)
    requires DeviceIds(devices) && 2 <= req <= |devices| && Symmetric(n.topology)
    ensures var kept := Best(n, Candidates(devices, req));
            && (forall P :: IsPartition(P, Reals(devices), req) ==> TotalScore(n, P) <= kept.1)
            && (kept.0 == [] ==> kept.1 == 0)
            && (kept.0 != [] ==>
                  kept.1 > 0 && kept.0 in Candidates(devices, req) && TotalScore(n, Shape(kept.0)) == kept.1)
  {
    var candidates := Candidates(devices, req);
    var kept := Best(n, candidates);
    BestIsMaximal(n, candidates);
    CandidatesAreExact(devices, req);
    forall P | IsPartition(P, Reals(devices), req) ensures TotalScore(n, P) <= kept.1 {
      var p :| p in candidates && Shape(p) == P;
      CandidateScore(n, devices, req, p);
    }
    if kept.0 != [] { CandidateScore(n, devices, req, kept.0); }
  }

  /** P is a partition of D that no other one beats, `block` is its best block, and the score is that
      block's score. */
  ghost predicate OptimalChoice(n: Node, D: set<int>, req: nat, P: set<set<int>>, block: set<int>, score: int) {
    && IsPartition(P, D, req)
    && (forall Q :: IsPartition(Q, D, req) ==> TotalScore(n, Q) <= TotalScore(n, P))
    && block in P && score == BlockScore(n, block)
    && (forall B :: B in P ==> BlockScore(n, B) <= score)
    && TotalScore(n, P) <= |P| * score
  }

  /** Optimality of the returned block. */
  lemma SelectionIsOptimal(n: Node, devices: seq<int>, req: int) returns (P: set<set<int>>)
    requires DeviceIds(devices) && Symmetric(n.topology) && Selection(n, devices, req).Selected?
    ensures var r := Selection(n, devices, req);
            && OptimalChoice(n, Reals(devices), req, P, Reals(r.ids), r.score)
            && |r.ids| == req && NoRepeat(r.ids) && r.score > 0
  {
    if req == 1 {
      SinglesScoreNothing(n, devices);
      assert false;
    }
    BestIsOptimal(n, devices, req);
    var kept := Best(n, Candidates(devices, req)).0;
    P := Shape(kept);
    CandidateScore(n, devices, req, kept);
    BestBlockIsMaximal(n, kept);
    var block := BestBlock(n, kept);
    SetScoreOfList(n, block.0);
    forall B | B in P ensures BlockScore(n, B) <= block.1 {
      var b :| b in kept && B == Reals(b);
      SetScoreOfList(n, b);
    }
    BlockScoreRange(n, Reals(block.0));
    TotalScoreAtMost(n, P, block.1);
    MultiplePositive(|P|, block.1);
  }

  lemma MultiplePositive(k: nat, m: nat)
    requires k * m > 0
    ensures m > 0
  {
  }

  lemma SinglesScoreNothing(n: Node, devices: seq<int>)
    ensures Best(n, Candidates(devices, 1)) == ([], 0)
  {
    var candidates := Candidates(devices, 1);
    forall p | p in candidates ensures PartitionScore(n, p) == 0 {
      var i :| 0 <= i < |devices| && p == [[devices[i]]];
      assert p[..0] == [] && p[0][1..] == [];
      assert SetScore(n, p[0]) == RowScore(n, devices[i], []) + SetScore(n, []);
    }
    BestIsMaximal(n, candidates);
  }

  // ---------- When the selection is in range ----------

  /** Any two devices can be put into one block of some partition, whatever the padding. */
  lemma {:induction false} PartitionAround(D: set<int>, S: set<int>, size: nat) returns (P: set<set<int>>)
    requires size > 0 && S <= D && |S| <= size
    ensures IsPartition(P, D, size) && (S != {} ==> exists B :: B in P && S <= B)
    decreases D
  {
    if D == {} {
      P := {};
    } else if |D| <= size {
      IntSets.NonEmpty(D);
      var x :| x in D;
      OneBlock(D, size);
      P := {} + {D};
      assert D in P;
    } else {
      var B := Grow(D, S, size);
      IntSets.NonEmpty(B);
      var x :| x in B;
      var rest := PartitionAround(D - B, {}, size);
      PutBack(rest, D, size, B, x);
      P := rest + {B};
      assert B in P;
    }
  }

  lemma {:induction false} Grow(D: set<int>, S: set<int>, size: nat) returns (B: set<int>)
    requires S <= D && |S| <= size <= |D|
    ensures S <= B <= D && |B| == size
    decreases size - |S|
  {
    if |S| == size {
      B := S;
    } else {
      assert |D| == |S| + |D - S|;
      IntSets.NonEmpty(D - S);
      var x :| x in D - S;
      B := Grow(D, S + {x}, size);
    }
  }

  ghost predicate SomePairScores(n: Node, D: set<int>) {
    exists x, y :: x in D && y in D && PairScore(n, x, y) > 0
  }

  lemma PositiveTotalHasPair(n: Node, D: set<int>, size: nat, P: set<set<int>>)
    requires IsPartition(P, D, size) && TotalScore(n, P) > 0
    ensures SomePairScores(n, D)
  {
    TotalScoreRange(n, P);
    var B :| B in P && BlockScore(n, B) > 0;
    BlockScoreRange(n, B);
    var x, y :| x in B && y in B && PairScore(n, x, y) > 0;
    assert x in D && y in D;
  }

  lemma PairGivesPositiveTotal(n: Node, D: set<int>, size: nat) returns (P: set<set<int>>)
    requires size >= 2 && Symmetric(n.topology) && SomePairScores(n, D)
    ensures IsPartition(P, D, size) && TotalScore(n, P) > 0
  {
    var x, y :| x in D && y in D && PairScore(n, x, y) > 0;
    PairScoreRange(n, x, y);
    P := PartitionAround(D, {x, y}, size);
    var B :| B in P && {x, y} <= B;
    assert x in B && y in B;
    BlockScoreAtLeast(n, B, x, y);
    TotalScoreAny(n, P, B);
    TotalScoreRange(n, P - {B});
  }

  /** Two free devices with a positive pair score are necessary and sufficient for a positive total. */
  lemma PositiveTotal(n: Node, D: set<int>, size: nat)
    requires size >= 2 && Symmetric(n.topology)
    ensures (exists P :: IsPartition(P, D, size) && TotalScore(n, P) > 0) <==> SomePairScores(n, D)
  {
    if P :| IsPartition(P, D, size) && TotalScore(n, P) > 0 {
      PositiveTotalHasPair(n, D, size, P);
    }
    if SomePairScores(n, D) {
      var P := PairGivesPositiveTotal(n, D, size);
    }
  }

  /** For a request that fits, indexing `bestPartition` is in range if and only if at least two GPUs
      are requested and some two free GPUs have a positive pair score. */
  lemma SelectionInRange(n: Node, devices: seq<int>, req: int)
    requires DeviceIds(devices) && Symmetric(n.topology) && 1 <= req <= |devices|
    ensures Selection(n, devices, req).Selected? <==> req >= 2 && SomePairScores(n, Reals(devices))
    ensures Selection(n, devices, req).IndexOutOfRange? <==> !(req >= 2 && SomePairScores(n, Reals(devices)))
  {
    if req == 1 {
      SinglesScoreNothing(n, devices);
    } else {
      BestIsOptimal(n, devices, req);
      PositiveTotal(n, Reals(devices), req);
      var kept := Best(n, Candidates(devices, req)).0;
      if kept != [] {
        CandidateScore(n, devices, req, kept);
        assert IsPartition(Shape(kept), Reals(devices), req) && TotalScore(n, Shape(kept)) > 0;
      }
    }
  }

  // ---------- The order of the device map ----------

  /** On a node without a topology annotation every request that fits panics. */
  lemma MissingTopologyPanics(n: Node, devices: seq<int>, req: int)
    requires DeviceIds(devices) && 1 <= req <= |devices| && Square(n.topology, 0)
    ensures Selection(n, devices, req).IndexOutOfRange?
  {
    assert forall a, b :: PairScore(n, a, b) == 0;
    SelectionInRange(n, devices, req);
  }

  /** The total score of the winning partition, and whether there is one, do not depend on the
      order in which the device map is iterated. */
  lemma OrderDoesNotMatter(n: Node, first: seq<int>, second: seq<int>, req: int)
    requires DeviceIds(first) && DeviceIds(second) && Reals(first) == Reals(second) && Symmetric(n.topology)
    requires 1 <= req <= |first|
    ensures |first| == |second|
    ensures Best(n, Candidates(first, req)).1 == Best(n, Candidates(second, req)).1
    ensures Selection(n, first, req).Selected? <==> Selection(n, second, req).Selected?
  {
    BlockSize(first);
    BlockSize(second);
    assert PADDING !in first && PADDING !in second;
    if req == 1 {
      SinglesScoreNothing(n, first);
      SinglesScoreNothing(n, second);
    } else {
      NoBetterOrder(n, first, second, req);
      NoBetterOrder(n, second, first, req);
      BestIsMaximal(n, Candidates(first, req));
      BestIsMaximal(n, Candidates(second, req));
    }
  }

  lemma NoBetterOrder(n: Node, first: seq<int>, second: seq<int>, req: int)
    requires DeviceIds(first) && DeviceIds(second) && Reals(first) == Reals(second) && Symmetric(n.topology)
    requires 2 <= req <= |first| && |first| == |second|
    ensures Best(n, Candidates(first, req)).1 <= Best(n, Candidates(second, req)).1
  {
    BestIsOptimal(n, first, req);
    BestIsOptimal(n, second, req);
    BestIsMaximal(n, Candidates(second, req));
    var kept := Best(n, Candidates(first, req)).0;
    if kept != [] { CandidateScore(n, first, req, kept); }
  }

  // ---------- Real ids and padding in the result ----------

  /** The returned ids are distinct free GPUs, followed by padding only if the winning block is the
      short one; without a remainder they are exactly `req` free GPUs. */
  lemma SelectedIds(n: Node, devices: seq<int>, req: int)
    requires FreeDevices(n, devices) && Symmetric(n.topology) && Selection(n, devices, req).Selected?
    ensures var ids := Selection(n, devices, req).ids;
            && |ids| == req && NoRepeat(ids) && Reals(ids) <= FreeIds(n)
            && (PADDING in ids ==> |devices| % req != 0 && |Reals(ids)| == |devices| % req)
            && (PADDING !in ids ==> |Reals(ids)| == req)
  {
    var P := SelectionIsOptimal(n, devices, req);
    var ids := Selection(n, devices, req).ids;
    BlockSize(ids);
    assert PADDING in ids <==> CountPadding(ids) > 0;
    if PADDING in ids {
      FreeDevicesCount(n, devices);
      ShortBlock(P, Reals(devices), req, Reals(ids));
      NotEmptyPositive(Reals(ids));
    }
  }

  lemma NotEmptyPositive(s: set<int>)
    requires s != {}
    ensures |s| > 0
  {
    IntSets.NonEmpty(s);
  }
}

/** When the best-effort policy is sure to return real GPUs only. */
module PaddedSelection {
  import IntSets
  import opened Arithmetic
  import opened NodeState
  import opened GpuSets
  import opened GpuPartitions
  import opened PartitionTheory
  import opened Scores
  import opened BestEffort

  /** With at most one GPU left over, the short block has no pair and cannot win. */
  lemma NoPaddingWithoutRest(n: Node, devices: seq<int>, req: int)
    requires FreeDevices(n, devices) && Symmetric(n.topology) && Selection(n, devices, req).Selected?
    requires |devices| % req <= 1
    ensures PADDING !in Selection(n, devices, req).ids
  {
    SelectedIds(n, devices, req);
    WinnerHasPair(n, devices, req);
  }

  lemma WinnerHasPair(n: Node, devices: seq<int>, req: int)
    requires FreeDevices(n, devices) && Symmetric(n.topology) && Selection(n, devices, req).Selected?
    ensures |Reals(Selection(n, devices, req).ids)| >= 2
  {
    var P := SelectionIsOptimal(n, devices, req);
    var S := Reals(Selection(n, devices, req).ids);
    BlockScoreRange(n, S);
    var x, y :| x in S && y in S && PairScore(n, x, y) > 0;
    PairScoreRange(n, x, y);
    AtLeastTwo(S, x, y);
  }

  lemma AtLeastTwo(S: set<int>, x: int, y: int)
    requires x in S && y in S && x != y
    ensures |S| >= 2
  {
    assert |S| == |S - {x}| + 1;
    assert |S - {x}| == |S - {x} - {y}| + 1;
  }

  // ---------- The first candidate ----------

  /** The list cut into blocks in order. */
  function Chunks(devices: seq<int>, size: nat): Partition
    requires size > 0
  {
    if |devices| <= size then [devices] else [devices[..size]] + Chunks(devices[size..], size)
  }

  function Count(start: nat, end: nat): seq<nat>
    requires start <= end
    decreases end - start
  {
    if start == end then [] else [start] + Count(start + 1, end)
  }

  lemma {:induction false} CountIsRange(start: nat, end: nat)
    requires start <= end
    ensures |Count(start, end)| == end - start
    ensures forall i :: 0 <= i < end - start ==> Count(start, end)[i] == start + i
    decreases end - start
  {
    if start < end { CountIsRange(start + 1, end); }
  }

  lemma {:induction false} FirstTuple(n: nat, size: nat, prefix: seq<nat>, start: nat)
    requires |prefix| <= size && start + size - |prefix| <= n
    ensures From(n, size, prefix, start) != []
    ensures From(n, size, prefix, start)[0] == prefix + Count(start, start + size - |prefix|)
    decreases n - start
  {
    if |prefix| < size {
      var longer := prefix + [start];
      FirstTuple(n, size, longer, start + 1);
      assert longer + Count(start + 1, start + size - |prefix|)
          == prefix + ([start] + Count(start + 1, start + size - |prefix|));
    } else {
      assert prefix + [] == prefix;
    }
  }

  lemma SelectRange(tail: seq<int>, size: nat, t: seq<nat>)
    requires size <= |tail| && t == Count(0, size)
    ensures Bounded(t, |tail|) && Select(tail, t) == tail[..size]
  {
    CountIsRange(0, size);
  }

  lemma FirstTuples(n: nat, size: nat)
    requires 1 <= size <= n
    ensures Tuples(n, size) != [] && Tuples(n, size)[0] == Count(0, size)
  {
    FirstTuple(n, size, [], 0);
    assert [] + Count(0, size) == Count(0, size);
  }

  /** The first set emitted consists of the first elements. */
  lemma FirstSet(tail: seq<int>, size: nat)
    requires 1 <= size <= |tail|
    ensures Sets(tail, size) != [] && Sets(tail, size)[0] == tail[..size]
  {
    FirstTuples(|tail|, size);
    SelectRange(tail, size, Count(0, size));
    TuplesAreExact(|tail|, size);
    assert Sets(tail, size)[0] == Select(tail, Tuples(|tail|, size)[0]);
  }

  lemma {:induction false} FirstBranch(devices: seq<int>, size: nat, padding: nat, sets: seq<seq<int>>)
    requires devices != [] && sets != [] && Branch(devices, size, padding, sets[0]) != []
    ensures var r := Branches(devices, size, padding, sets);
            r != [] && r[0] == Branch(devices, size, padding, sets[0])[0]
  {
    if |sets| > 1 {
      FirstBranch(devices, size, padding, sets[..|sets| - 1]);
    } else {
      assert sets[..0] == [];
      assert Branches(devices, size, padding, sets) == [] + Branch(devices, size, padding, sets[0]);
    }
  }

  lemma {:induction false} OutsideFront(a: seq<int>, b: seq<int>)
    requires forall id :: id in b ==> id !in a
    ensures Outside(b, a) == b
  {
    if b != [] {
      OutsideFront(a, b[..|b| - 1]);
      assert b == b[..|b| - 1] + [b[|b| - 1]];
    }
  }

  lemma {:induction false} OutsideAll(a: seq<int>, removed: seq<int>)
    requires forall id :: id in a ==> id in removed
    ensures Outside(a, removed) == []
  {
    if a != [] {
      OutsideAll(a[..|a| - 1], removed);
    }
  }

  lemma OutsidePrefix(devices: seq<int>, size: nat)
    requires size <= |devices|
    requires forall i, j :: 0 <= i < size <= j < |devices| ==> devices[i] != devices[j]
    ensures Outside(devices, devices[..size]) == devices[size..]
  {
    var a, b := devices[..size], devices[size..];
    assert devices == a + b;
    OutsideConcat(a, b, a);
    OutsideAll(a, a);
    OutsideFront(a, b);
  }

  /** The first candidate cuts the list in order, if only the last block needs padding. */
  lemma {:induction false} FirstCandidate(devices: seq<int>, size: nat, padding: nat)
    requires Level(devices, size, padding)
    ensures Partitions(devices, size, padding) != []
    ensures Partitions(devices, size, padding)[0] == Chunks(devices, size)
    decreases |devices|
  {
    if size < |devices| {
      FirstBlock(devices, size, padding);
      FirstCandidate(devices[size..], size, padding);
      FirstOfBranches(devices, size, padding);
    }
  }

  lemma FirstSetIsFront(devices: seq<int>, size: nat)
    requires 2 <= size < |devices|
    ensures Sets(devices[1..], size - 1) != []
    ensures Block(devices, Sets(devices[1..], size - 1)[0]) == devices[..size]
  {
    FirstSet(devices[1..], size - 1);
  }

  /** The first block taken off is the front of the list. */
  lemma FirstBlock(devices: seq<int>, size: nat, padding: nat)
    requires Level(devices, size, padding) && size < |devices|
    ensures Sets(devices[1..], size - 1) != []
    ensures var chosen := Sets(devices[1..], size - 1)[0];
            && Block(devices, chosen) == devices[..size] && PaddingTogether(Block(devices, chosen), padding)
            && Outside(devices, Block(devices, chosen)) == devices[size..]
    ensures Level(devices[size..], size, padding)
  {
    FirstSetIsFront(devices, size);
    FrontIsReal(devices, size, padding);
    OutsidePrefix(devices, size);
    RemainingIsLevel(devices, size, padding, Sets(devices[1..], size - 1)[0]);
  }

  lemma FirstOfBranches(devices: seq<int>, size: nat, padding: nat)
    requires 0 < size < |devices| && Sets(devices[1..], size - 1) != []
    requires var block := Block(devices, Sets(devices[1..], size - 1)[0]);
             && PaddingTogether(block, padding) && Partitions(Outside(devices, block), size, padding) != []
    ensures var block := Block(devices, Sets(devices[1..], size - 1)[0]);
            && Partitions(devices, size, padding) != []
            && Partitions(devices, size, padding)[0] == [block] + Partitions(Outside(devices, block), size, padding)[0]
  {
    FirstBranch(devices, size, padding, Sets(devices[1..], size - 1));
  }

  lemma FrontIsReal(devices: seq<int>, size: nat, padding: nat)
    requires Level(devices, size, padding) && size < |devices|
    ensures CountPadding(devices[..size]) == 0
    ensures forall i, j :: 0 <= i < size <= j < |devices| ==> devices[i] != devices[j]
  {
    var r, k := RealPart(devices), CountPadding(devices);
    LayoutIsUnique(devices, r, k);
    assert |r| >= size by {
      LayoutSize(devices, r, k);
      MultipleMinus(|devices|, size, |devices| - size);
    }
    assert devices[..size] == r[..size];
    assert PADDING !in r[..size];
    forall i, j | 0 <= i < size <= j < |devices| ensures devices[i] != devices[j] {
      assert devices[i] == r[i];
    }
  }

  // ---------- A topology whose best block is the padded one ----------

  /** m free GPUs of which only the last two are linked. */
  function LinkedPair(m: nat): Node
    requires m >= 2
  {
    var topology := map i, j | 0 <= i < m && 0 <= j < m ::
      (i, j) := if i != j && i >= m - 2 && j >= m - 2 then 1 else 0;
    Node(NodeSpec("node", m, topology), FreshDevices(m), topology)
  }

  function Identity(m: nat): seq<int> {
    seq(m, i => i)
  }

  predicate LastTwo(m: nat, a: int, b: int) {
    (a == m - 1 && b == m - 2) || (a == m - 2 && b == m - 1)
  }

  lemma LinkedPairScore(m: nat, a: int, b: int)
    requires m >= 2
    ensures Link(LinkedPair(m).topology, a, b) == if LastTwo(m, a, b) then 1 else 0
    ensures PairScore(LinkedPair(m), a, b) == if LastTwo(m, a, b) then 10 else 0
  {
    var n := LinkedPair(m);
    IntSets.RangeCount(n.devs.Keys, m);
    assert Link(n.topology, a, b) == if LastTwo(m, a, b) then 1 else 0;
    assert LinkScore(1) == 10 && LinkScore(0) == 0;
  }

  ghost predicate OnlyLastTwo(n: Node, m: nat) {
    Symmetric(n.topology) && forall a, b :: PairScore(n, a, b) == if LastTwo(m, a, b) then 10 else 0
  }

  lemma LinkedPairIsSquare(m: nat)
    requires m >= 2
    ensures Decoded(LinkedPair(m).topology, m)
  {
    var t := LinkedPair(m).topology;
    assert (0, 0) in t;
    assert Square(t, m);
  }

  lemma LinkedPairIsWellFormed(m: nat)
    requires m >= 2
    ensures WellFormed(LinkedPair(m))
  {
    LinkedPairIsSquare(m);
    assert LinkedPair(m).spec == NodeSpec("node", m, LinkedPair(m).topology);
  }

  lemma LinkedPairLinks(m: nat)
    requires m >= 2
    ensures OnlyLastTwo(LinkedPair(m), m)
  {
    var n := LinkedPair(m);
    forall a, b ensures Link(n.topology, a, b) == Link(n.topology, b, a) {
      LinkedPairScore(m, a, b);
      LinkedPairScore(m, b, a);
    }
    forall a, b ensures PairScore(n, a, b) == if LastTwo(m, a, b) then 10 else 0 {
      LinkedPairScore(m, a, b);
    }
  }

  lemma IdentityIsFree(m: nat)
    requires m >= 2
    ensures FreeDevices(LinkedPair(m), Identity(m))
  {
    var devices := Identity(m);
    forall id ensures id in Reals(devices) <==> id in FreeIds(LinkedPair(m)) {
      if 0 <= id < m { assert devices[id] == id; }
    }
    IntSets.SameElements(Reals(devices), FreeIds(LinkedPair(m)));
  }

  lemma WithoutLastNoScore(n: Node, m: nat, S: set<int>)
    requires OnlyLastTwo(n, m) && (m - 1 !in S || m - 2 !in S)
    ensures BlockScore(n, S) == 0
  {
    BlockScoreRange(n, S);
  }

  lemma LastRow(n: Node, m: nat, S: set<int>)
    requires OnlyLastTwo(n, m)
    ensures RowSum(n, m - 1, S) == if m - 2 in S then 10 else 0
  {
    if m - 2 in S {
      RowSumAny(n, m - 1, S, m - 2);
      RowSumRange(n, m - 1, S - {m - 2});
    } else {
      RowSumRange(n, m - 1, S);
    }
  }

  lemma OnlyPairScores(n: Node, m: nat, S: set<int>)
    requires OnlyLastTwo(n, m)
    ensures BlockScore(n, S) == if m - 1 in S && m - 2 in S then 10 else 0
  {
    if m - 1 in S && m - 2 in S {
      BlockScoreAny(n, S, m - 1);
      LastRow(n, m, S - {m - 1});
      WithoutLastNoScore(n, m, S - {m - 1});
    } else {
      WithoutLastNoScore(n, m, S);
    }
  }

  lemma NoPairNoScore(n: Node, m: nat, P: set<set<int>>)
    requires OnlyLastTwo(n, m) && forall B :: B in P ==> m - 1 !in B
    ensures TotalScore(n, P) <= 0
  {
    forall B | B in P ensures BlockScore(n, B) <= 0 {
      OnlyPairScores(n, m, B);
    }
    TotalScoreAtMost(n, P, 0);
  }

  lemma LinkedPairTotal(n: Node, m: nat, P: set<set<int>>, D: set<int>, size: nat)
    requires OnlyLastTwo(n, m) && IsPartition(P, D, size)
    ensures TotalScore(n, P) <= 10
  {
    if B :| B in P && m - 1 in B {
      OnlyPairScores(n, m, B);
      TotalScoreAny(n, P, B);
      NoPairNoScore(n, m, P - {B});
    } else {
      NoPairNoScore(n, m, P);
    }
  }

  lemma {:induction false} FirstIsBest(n: Node, candidates: seq<Partition>, s: int)
    requires candidates != [] && PartitionScore(n, candidates[0]) == s > 0
    requires forall p :: p in candidates ==> PartitionScore(n, p) <= s
    ensures Best(n, candidates) == (candidates[0], s)
  {
    var front := candidates[..|candidates| - 1];
    if front != [] {
      FirstIsBest(n, front, s);
    } else {
      assert Best(n, front) == ([], 0);
    }
  }

  lemma {:induction false} LastChunk(devices: seq<int>, size: nat)
    requires 0 < size <= |devices| && Multiple(|devices|, size)
    ensures var c := Chunks(devices, size); c != [] && c[|c| - 1] == devices[|devices| - size..]
    decreases |devices|
  {
    if size < |devices| {
      var rest := devices[size..];
      MultipleMinus(|devices|, size, |rest|);
      LastChunk(rest, size);
      assert rest[|rest| - size..] == devices[|devices| - size..];
    }
  }

  /** With two or more GPUs left over there are a topology and an order of the devices for which the
      padded block wins. */
  lemma PaddingWithRest(m: nat, req: nat)
    requires 2 <= req <= m && m % req >= 2
    ensures WellFormed(LinkedPair(m)) && Symmetric(LinkedPair(m).topology)
    ensures FreeDevices(LinkedPair(m), Identity(m)) && |Identity(m)| == m
    ensures Selection(LinkedPair(m), Identity(m), req).Selected?
    ensures PADDING in Selection(LinkedPair(m), Identity(m), req).ids
  {
    LinkedPairIsWellFormed(m);
    LinkedPairLinks(m);
    IdentityIsFree(m);
    FirstWins(m, req);
    LastBlock(m, req);
    PaddedFirst(LinkedPair(m), m, Identity(m), req, Candidates(Identity(m), req)[0]);
  }

  lemma PaddedFirst(n: Node, m: nat, devices: seq<int>, req: nat, first: Partition)
    requires OnlyLastTwo(n, m) && DeviceIds(devices) && 2 <= req <= |devices|
    requires first in Candidates(devices, req) && Best(n, Candidates(devices, req)).0 == first && first != []
    requires var last := first[|first| - 1]; m - 1 in Reals(last) && m - 2 in Reals(last) && PADDING in last
    ensures Selection(n, devices, req).Selected? && PADDING in Selection(n, devices, req).ids
  {
    PaddedBlockWins(n, m, devices, req, first);
    SelectionOf(n, devices, req, first);
  }

  /** Among nodes with m free GPUs and a symmetric link matrix, and over all orders of their device
      maps, padding is excluded if and only if at most one GPU is left over. */
  lemma NeverPaddedIff(m: nat, req: nat)
    requires 2 <= req <= m
    ensures NeverPadded(m, req) <==> m % req <= 1
  {
    if m % req <= 1 {
      forall n, devices: seq<int> | MayBePadded(n, devices, m, req) ensures PADDING !in Selection(n, devices, req).ids {
        NoPaddingWithoutRest(n, devices, req);
      }
    } else {
      PaddingWithRest(m, req);
      assert MayBePadded(LinkedPair(m), Identity(m), m, req);
    }
  }

  ghost predicate MayBePadded(n: Node, devices: seq<int>, m: nat, req: nat) {
    && WellFormed(n) && Symmetric(n.topology) && FreeDevices(n, devices) && |devices| == m
    && Selection(n, devices, req).Selected?
  }

  ghost predicate NeverPadded(m: nat, req: nat) {
    forall n, devices :: MayBePadded(n, devices, m, req) ==> PADDING !in Selection(n, devices, req).ids
  }

  lemma SelectionOf(n: Node, devices: seq<int>, req: nat, first: Partition)
    requires 1 <= req <= |devices| && first != [] && Best(n, Candidates(devices, req)).0 == first
    ensures Selection(n, devices, req) == Selected(BestBlock(n, first).0, BestBlock(n, first).1)
  {
  }

  /** The block with the linked pair wins, and that is the last block. */
  lemma LinkedBlockWins(n: Node, m: nat, devices: seq<int>, req: nat, first: Partition)
    requires OnlyLastTwo(n, m) && first != [] && (forall b :: b in first ==> NoRepeat(b))
    requires IsPartition(Shape(first), Reals(devices), req)
    requires var last := first[|first| - 1]; m - 1 in Reals(last) && m - 2 in Reals(last)
    ensures Reals(BestBlock(n, first).0) == Reals(first[|first| - 1])
  {
    var last, ids := first[|first| - 1], BestBlock(n, first).0;
    BestBlockIsMaximal(n, first);
    SetScoreOfList(n, ids);
    SetScoreOfList(n, last);
    OnlyPairScores(n, m, Reals(ids));
    OnlyPairScores(n, m, Reals(last));
    assert last in first;
    SameBlock(Shape(first), Reals(devices), req, Reals(ids), Reals(last), m - 1);
  }

  lemma PaddedBlockWins(n: Node, m: nat, devices: seq<int>, req: nat, first: Partition)
    requires OnlyLastTwo(n, m) && DeviceIds(devices) && 2 <= req <= |devices|
    requires first in Candidates(devices, req) && first != []
    requires var last := first[|first| - 1]; m - 1 in Reals(last) && m - 2 in Reals(last) && PADDING in last
    ensures PADDING in BestBlock(n, first).0
  {
    CandidateScore(n, devices, req, first);
    LinkedBlockWins(n, m, devices, req, first);
    BestBlockIsMaximal(n, first);
    assert first[|first| - 1] in first;
    SameSizeSamePadding(BestBlock(n, first).0, first[|first| - 1]);
  }

  lemma SameSizeSamePadding(b: seq<int>, c: seq<int>)
    requires NoRepeat(b) && NoRepeat(c) && |b| == |c| && Reals(b) == Reals(c) && PADDING in c
    ensures PADDING in b
  {
    BlockSize(b);
    BlockSize(c);
  }

  lemma SameBlock(P: set<set<int>>, D: set<int>, size: nat, B: set<int>, C: set<int>, x: int)
    requires IsPartition(P, D, size) && B in P && C in P && x in B && x in C
    ensures B == C
  {
  }

  lemma LastBlock(m: nat, req: nat)
    requires 2 <= req <= m && m % req >= 2
    ensures var c := Chunks(Padded(Identity(m), req), req);
            c != [] && var last := c[|c| - 1]; m - 1 in Reals(last) && m - 2 in Reals(last) && PADDING in last
  {
    var padded, k := Padded(Identity(m), req), PadCount(m, req);
    PaddedLength(m, req);
    assert k == req - m % req by { DivisionIsUnique(req - m % req, req, 0, req - m % req); }
    LastChunk(padded, req);
    var last := padded[|padded| - req..];
    assert padded[m - 1] == m - 1 && padded[m - 2] == m - 2 && padded[m] == PADDING;
    assert last[m - 1 - (|padded| - req)] == m - 1;
    assert last[m - 2 - (|padded| - req)] == m - 2;
    assert last[m - (|padded| - req)] == PADDING;
  }

  lemma FirstWins(m: nat, req: nat)
    requires 2 <= req <= m && m % req >= 2
    ensures var candidates := Candidates(Identity(m), req);
            && candidates != [] && candidates[0] == Chunks(Padded(Identity(m), req), req)
            && Best(LinkedPair(m), candidates) == (candidates[0], 10)
  {
    var n, devices := LinkedPair(m), Identity(m);
    LinkedPairLinks(m);
    IdentityIsFree(m);
    PaddedIsLevel(devices, req);
    FirstCandidate(Padded(devices, req), req, PadCount(m, req));
    var candidates := Candidates(devices, req);
    forall p | p in candidates ensures PartitionScore(n, p) <= 10 {
      CandidateScore(n, devices, req, p);
      LinkedPairTotal(n, m, Shape(p), Reals(devices), req);
    }
    var first := candidates[0];
    CandidateScore(n, devices, req, first);
    LastBlock(m, req);
    var B := Reals(first[|first| - 1]);
    OnlyPairScores(n, m, B);
    assert B in Shape(first);
    TotalScoreAny(n, Shape(first), B);
    TotalScoreRange(n, Shape(first) - {B});
    FirstIsBest(n, candidates, 10);
  }
}

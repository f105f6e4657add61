/** Pair, set and partition scores (pkg/policy/config.go, pkg/policy/besteffort_policy.go). */
module Scores {
  import IntSets
  import opened NodeState
  import opened GpuSets
  import opened GpuPartitions

  /** Score of a link type; the types are numbered as in the nvml binding. */
  function LinkScore(link: int): int {
    if 1 <= link <= 6 then 10 * link
    else if 7 <= link <= 12 then 100 * (link - 6)
    else 0
  }

  /** In the order of the nvml binding, from an unknown link to six NVLinks, every link scores more
      than the one before. */
  lemma LinkScoreIncreases(i: int, j: int)
    requires 0 <= i < j <= 12
    ensures 0 == LinkScore(0) <= LinkScore(i) < LinkScore(j) <= LinkScore(12) == 600
  {
  }

  /** `calculateGPUPairScore`; a pair outside the matrix counts 0. */
  function PairScore(n: Node, gpu0: int, gpu1: int): int {
    if gpu0 < 0 || gpu0 > |n.devs| - 1 || gpu1 < 0 || gpu1 > |n.devs| - 1 then 0
    else if gpu0 == gpu1 then 0
    else if Used(n, gpu0) || Used(n, gpu1) then 0
    else LinkScore(Link(n.topology, gpu0, gpu1))
  }

  lemma PairScoreRange(n: Node, a: int, b: int)
    ensures 0 <= PairScore(n, a, b) <= 600
    ensures PairScore(n, a, b) > 0 ==> a != b && a != PADDING && b != PADDING && !Used(n, a) && !Used(n, b)
    ensures Symmetric(n.topology) ==> PairScore(n, a, b) == PairScore(n, b, a)
  {
    assert Symmetric(n.topology) ==> Link(n.topology, a, b) == Link(n.topology, b, a);
  }

  /** Two different unused GPUs score by their link: 10 to 60 for the PCIe links 1 to 6, 100 to 600 for
      one to six NVLinks, numbered 7 to 12. Anything else scores nothing. */
  lemma PairScoreTable(n: Node, a: int, b: int)
    ensures var link := Link(n.topology, a, b);
            if 0 <= a < |n.devs| && 0 <= b < |n.devs| && a != b && !Used(n, a) && !Used(n, b)
            then (1 <= link <= 6 ==> PairScore(n, a, b) == 10 * link)
                 && (7 <= link <= 12 ==> PairScore(n, a, b) == 100 * (link - 6))
                 && (link < 1 || link > 12 ==> PairScore(n, a, b) == 0)
            else PairScore(n, a, b) == 0
  {
  }

  // ---------- Scores of lists ----------

  function RowScore(n: Node, x: int, s: seq<int>): int {
    if s == [] then 0 else PairScore(n, x, s[0]) + RowScore(n, x, s[1..])
  }

  /** The sum of the pair scores over all i < j. */
  function SetScore(n: Node, s: seq<int>): int {
    if s == [] then 0 else RowScore(n, s[0], s[1..]) + SetScore(n, s[1..])
  }

  function PartitionScore(n: Node, p: Partition): int {
    if p == [] then 0 else PartitionScore(n, p[..|p| - 1]) + SetScore(n, p[|p| - 1])
  }

  // ---------- The combination loop computes the double sum ----------

  /** The sum over the pairs emitted by `iterateGPUSets(gpuSet, 2, ...)`. */
  function EmittedScore(n: Node, pairs: seq<seq<int>>): int
    requires forall p :: p in pairs ==> |p| == 2
  {
    if pairs == [] then 0
    else EmittedScore(n, pairs[..|pairs| - 1]) + PairScore(n, pairs[|pairs| - 1][0], pairs[|pairs| - 1][1])
  }

  lemma {:induction false} EmittedConcat(n: Node, a: seq<seq<int>>, b: seq<seq<int>>)
    requires (forall p :: p in a ==> |p| == 2) && (forall p :: p in b ==> |p| == 2)
    ensures (forall p :: p in a + b ==> |p| == 2)
    ensures EmittedScore(n, a + b) == EmittedScore(n, a) + EmittedScore(n, b)
  {
    if b == [] {
      assert a + b == a;
    } else {
      assert (a + b)[..|a + b| - 1] == a + b[..|b| - 1];
      EmittedConcat(n, a, b[..|b| - 1]);
    }
  }

  ghost predicate PairsOf(s: seq<int>, ts: seq<seq<nat>>) {
    forall t :: t in ts ==> |t| == 2 && Bounded(t, |s|)
  }

  lemma SelectAllConcat2(n: Node, s: seq<int>, a: seq<seq<nat>>, b: seq<seq<nat>>)
    requires PairsOf(s, a) && PairsOf(s, b)
    ensures PairsOf(s, a + b)
    ensures EmittedScore(n, SelectAll(s, a + b)) == EmittedScore(n, SelectAll(s, a)) + EmittedScore(n, SelectAll(s, b))
  {
    SelectAllConcat(s, a, b);
    EmittedConcat(n, SelectAll(s, a), SelectAll(s, b));
  }

  lemma OnePair(n: Node, s: seq<int>, i: nat, j: nat)
    requires i < |s| && j < |s|
    ensures PairsOf(s, [[i, j]])
    ensures EmittedScore(n, SelectAll(s, [[i, j]])) == PairScore(n, s[i], s[j])
  {
    var pairs := SelectAll(s, [[i, j]]);
    assert pairs[0] == Select(s, [i, j]);
    assert pairs == [] + [pairs[0]];
    assert pairs[..0] == [];
  }

  lemma AppendPairs(n: Node, s: seq<int>, i: nat, j: nat, rest: seq<seq<nat>>)
    requires i < |s| && j < |s| && PairsOf(s, rest)
    ensures PairsOf(s, [[i, j]] + rest)
    ensures EmittedScore(n, SelectAll(s, [[i, j]] + rest))
         == PairScore(n, s[i], s[j]) + EmittedScore(n, SelectAll(s, rest))
  {
    OnePair(n, s, i, j);
    SelectAllConcat2(n, s, [[i, j]], rest);
  }

  lemma NextPair(n: nat, i: nat, j: nat)
    requires j < n
    ensures From(n, 2, [i], j) == [[i, j]] + From(n, 2, [i], j + 1)
  {
    assert [i] + [j] == [i, j];
    assert From(n, 2, [i, j], j + 1) == [[i, j]];
  }

  lemma {:induction false} RowIsEmitted(n: Node, s: seq<int>, i: nat, j: nat)
    requires i < |s| && j <= |s|
    ensures PairsOf(s, From(|s|, 2, [i], j))
    ensures EmittedScore(n, SelectAll(s, From(|s|, 2, [i], j))) == RowScore(n, s[i], s[j..])
    decreases |s| - j
  {
    if j < |s| {
      RowIsEmitted(n, s, i, j + 1);
      NextPair(|s|, i, j);
      AppendPairs(n, s, i, j, From(|s|, 2, [i], j + 1));
      assert s[j..][0] == s[j] && s[j..][1..] == s[j + 1..];
    }
  }

  lemma {:induction false} AllPairsEmitted(n: Node, s: seq<int>, i: nat)
    requires i <= |s|
    ensures PairsOf(s, From(|s|, 2, [], i))
    ensures EmittedScore(n, SelectAll(s, From(|s|, 2, [], i))) == SetScore(n, s[i..])
    decreases |s| - i
  {
    if i < |s| {
      AllPairsEmitted(n, s, i + 1);
      RowIsEmitted(n, s, i, i + 1);
      assert [] + [i] == [i];
      SelectAllConcat2(n, s, From(|s|, 2, [i], i + 1), From(|s|, 2, [], i + 1));
      assert s[i..][1..] == s[i + 1..];
    }
  }

  /** The score computed through the generic combination loop is the double sum over i < j. */
  lemma EmittedPairsAreAllPairs(n: Node, s: seq<int>)
    ensures forall p :: p in Sets(s, 2) ==> |p| == 2
    ensures EmittedScore(n, Sets(s, 2)) == SetScore(n, s)
  {
    AllPairsEmitted(n, s, 0);
    assert s[0..] == s;
    if |s| == 1 { assert SetScore(n, s) == RowScore(n, s[0], []); }
  }

  /** `calculateGPUSetScore` */
  method CalculateGPUSetScore(n: Node, gpuSet: seq<int>) returns (score: int)
    ensures score == SetScore(n, gpuSet)
  {
    var pairs := IterateGPUSets(gpuSet, 2);
    EmittedPairsAreAllPairs(n, gpuSet);
    score := 0;
    for i := 0 to |pairs|
      invariant score == EmittedScore(n, pairs[..i])
    {
      assert pairs[..i + 1][..i] == pairs[..i];
      score := score + PairScore(n, pairs[i][0], pairs[i][1]);
    }
    assert pairs[..|pairs|] == pairs;
  }

  /** `calculateGPUPartitionScore` */
  method CalculateGPUPartitionScore(n: Node, gpuPartition: Partition) returns (score: int)
    ensures score == PartitionScore(n, gpuPartition)
  {
    score := 0;
    for i := 0 to |gpuPartition|
      invariant score == PartitionScore(n, gpuPartition[..i])
    {
      assert gpuPartition[..i + 1][..i] == gpuPartition[..i];
      var s := CalculateGPUSetScore(n, gpuPartition[i]);
      score := score + s;
    }
    assert gpuPartition[..|gpuPartition|] == gpuPartition;
  }

  // ---------- Scores of sets: the order of ids and blocks does not matter ----------

  ghost function RowSum(n: Node, x: int, S: set<int>): int {
    if S == {} then 0
    else IntSets.NonEmpty(S); var y :| y in S; PairScore(n, x, y) + RowSum(n, x, S - {y})
  }

  /** The sum of the pair scores over the two-element subsets of S. */
  ghost function BlockScore(n: Node, S: set<int>): int {
    if S == {} then 0
    else IntSets.NonEmpty(S); var x :| x in S; RowSum(n, x, S - {x}) + BlockScore(n, S - {x})
  }

  ghost function TotalScore(n: Node, P: set<set<int>>): int {
    if P == {} then 0
    else var B :| B in P; BlockScore(n, B) + TotalScore(n, P - {B})
  }

  lemma {:induction false} RowSumAny(n: Node, x: int, S: set<int>, y: int)
    requires y in S
    ensures RowSum(n, x, S) == PairScore(n, x, y) + RowSum(n, x, S - {y})
    decreases S
  {
    var z :| z in S && RowSum(n, x, S) == PairScore(n, x, z) + RowSum(n, x, S - {z});
    if z != y {
      RowSumAny(n, x, S - {z}, y);
      RowSumAny(n, x, S - {y}, z);
      assert S - {z} - {y} == S - {y} - {z};
    }
  }

  lemma {:induction false} BlockScoreAny(n: Node, S: set<int>, x: int)
    requires x in S && Symmetric(n.topology)
    ensures BlockScore(n, S) == RowSum(n, x, S - {x}) + BlockScore(n, S - {x})
    decreases S
  {
    var z :| z in S && BlockScore(n, S) == RowSum(n, z, S - {z}) + BlockScore(n, S - {z});
    if z != x {
      BlockScoreAny(n, S - {z}, x);
      BlockScoreAny(n, S - {x}, z);
      RowSumAny(n, z, S - {z}, x);
      RowSumAny(n, x, S - {x}, z);
      PairScoreRange(n, x, z);
      assert S - {z} - {x} == S - {x} - {z};
    }
  }

  lemma {:induction false} TotalScoreAny(n: Node, P: set<set<int>>, B: set<int>)
    requires B in P
    ensures TotalScore(n, P) == BlockScore(n, B) + TotalScore(n, P - {B})
    decreases P
  {
    var C :| C in P && TotalScore(n, P) == BlockScore(n, C) + TotalScore(n, P - {C});
    if C != B {
      TotalScoreAny(n, P - {C}, B);
      TotalScoreAny(n, P - {B}, C);
      assert P - {C} - {B} == P - {B} - {C};
    }
  }

  lemma ConsReals(x: int, s: seq<int>)
    requires NoRepeat([x] + s)
    ensures NoRepeat(s)
    ensures x == PADDING ==> Reals([x] + s) == Reals(s)
    ensures x != PADDING ==> x !in Reals(s) && x in Reals([x] + s) && Reals([x] + s) - {x} == Reals(s)
  {
    var t := [x] + s;
    forall i, j | 0 <= i < j < |s| && s[i] == s[j] ensures s[i] == PADDING {
      assert t[i + 1] == s[i] && t[j + 1] == s[j];
    }
    if x != PADDING {
      forall j | 0 <= j < |s| ensures s[j] != x { assert t[j + 1] == s[j] && t[0] == x; }
    }
  }

  lemma {:induction false} RowOfList(n: Node, x: int, s: seq<int>)
    requires NoRepeat(s)
    ensures RowScore(n, x, s) == RowSum(n, x, Reals(s))
  {
    if s != [] {
      assert s == [s[0]] + s[1..];
      ConsReals(s[0], s[1..]);
      RowOfList(n, x, s[1..]);
      PairScoreRange(n, x, s[0]);
      if s[0] != PADDING {
        RowSumAny(n, x, Reals(s), s[0]);
      }
    } else {
      assert Reals(s) == {};
    }
  }

  lemma {:induction false} PaddingRow(n: Node, s: seq<int>)
    ensures RowScore(n, PADDING, s) == 0
  {
    if s != [] {
      PaddingRow(n, s[1..]);
      PairScoreRange(n, PADDING, s[0]);
    }
  }

  /** For a symmetric topology the score of a list is that of its set of real ids: neither the
      order of the ids nor the padding matters. */
  lemma {:induction false} SetScoreOfList(n: Node, s: seq<int>)
    requires NoRepeat(s) && Symmetric(n.topology)
    ensures SetScore(n, s) == BlockScore(n, Reals(s))
  {
    if s != [] {
      var x, rest := s[0], s[1..];
      assert s == [x] + rest;
      ConsReals(x, rest);
      SetScoreOfList(n, rest);
      if x == PADDING {
        PaddingRow(n, rest);
      } else {
        RowOfList(n, x, rest);
        BlockScoreAny(n, Reals(s), x);
      }
    } else {
      assert Reals(s) == {};
    }
  }

  /** The score of a candidate is that of the partition it stands for. */
  lemma {:induction false} PartitionScoreOfList(n: Node, p: Partition)
    requires Symmetric(n.topology) && (forall b :: b in p ==> NoRepeat(b))
    requires forall i, j :: 0 <= i < j < |p| ==> Reals(p[i]) != Reals(p[j])
    ensures PartitionScore(n, p) == TotalScore(n, Shape(p))
  {
    if p != [] {
      var front, last := p[..|p| - 1], p[|p| - 1];
      assert p == front + [last];
      PartitionScoreOfList(n, front);
      SetScoreOfList(n, last);
      ShapeOfLast(front, last);
      assert Reals(last) !in Shape(front);
      TotalScoreAny(n, Shape(p), Reals(last));
      assert Shape(p) - {Reals(last)} == Shape(front);
    } else {
      assert Shape(p) == {};
    }
  }

  lemma {:induction false} RowScoreRange(n: Node, x: int, s: seq<int>)
    ensures 0 <= RowScore(n, x, s) <= 600 * |s|
  {
    if s != [] {
      RowScoreRange(n, x, s[1..]);
      PairScoreRange(n, x, s[0]);
    }
  }

  lemma {:induction false} ChooseOne(n: nat)
    ensures Choose(n, 1) == n
  {
    if n > 0 { ChooseOne(n - 1); }
  }

  /** A set of k ids scores at most 600 * C(k, 2). */
  lemma {:induction false} SetScoreRange(n: Node, s: seq<int>)
    ensures 0 <= SetScore(n, s) <= 600 * Choose(|s|, 2)
  {
    if s != [] {
      SetScoreRange(n, s[1..]);
      RowScoreRange(n, s[0], s[1..]);
      ChooseOne(|s| - 1);
    }
  }

  /** A pair inside a block contributes its score. */
  lemma {:induction false} BlockScoreAtLeast(n: Node, S: set<int>, x: int, y: int)
    requires x in S && y in S && x != y && Symmetric(n.topology)
    ensures BlockScore(n, S) >= PairScore(n, x, y)
  {
    BlockScoreAny(n, S, x);
    RowSumAny(n, x, S - {x}, y);
    RowSumRange(n, x, S - {x} - {y});
    BlockScoreRange(n, S - {x});
  }

  lemma {:induction false} RowSumRange(n: Node, x: int, S: set<int>)
    ensures 0 <= RowSum(n, x, S)
    ensures RowSum(n, x, S) > 0 ==> exists y :: y in S && PairScore(n, x, y) > 0
  {
    if S != {} {
      IntSets.NonEmpty(S);
      var z :| z in S && RowSum(n, x, S) == PairScore(n, x, z) + RowSum(n, x, S - {z});
      RowSumRange(n, x, S - {z});
      PairScoreRange(n, x, z);
    }
  }

  lemma {:induction false} BlockScoreRange(n: Node, S: set<int>)
    ensures 0 <= BlockScore(n, S)
    ensures BlockScore(n, S) > 0 ==> exists x, y :: x in S && y in S && PairScore(n, x, y) > 0
  {
    if S != {} {
      IntSets.NonEmpty(S);
      var z :| z in S && BlockScore(n, S) == RowSum(n, z, S - {z}) + BlockScore(n, S - {z});
      RowSumRange(n, z, S - {z});
      BlockScoreRange(n, S - {z});
    }
  }

  lemma {:induction false} TotalScoreRange(n: Node, P: set<set<int>>)
    ensures 0 <= TotalScore(n, P)
    ensures TotalScore(n, P) > 0 ==> exists B :: B in P && BlockScore(n, B) > 0
  {
    if P != {} {
      var C :| C in P && TotalScore(n, P) == BlockScore(n, C) + TotalScore(n, P - {C});
      BlockScoreRange(n, C);
      TotalScoreRange(n, P - {C});
    }
  }

  /** If no block scores more than m, a partition of k blocks scores at most k * m. */
  lemma {:induction false} TotalScoreAtMost(n: Node, P: set<set<int>>, m: nat)
    requires forall B :: B in P ==> BlockScore(n, B) <= m
    ensures TotalScore(n, P) <= |P| * m
  {
    if P != {} {
      var C :| C in P && TotalScore(n, P) == BlockScore(n, C) + TotalScore(n, P - {C});
      TotalScoreAtMost(n, P - {C}, m);
      assert |P| * m == (|P| - 1) * m + m;
    }
  }
}

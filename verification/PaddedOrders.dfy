/** A topology for which the best-effort policy pads in every order of the device map. */
module PaddedOrders {
  import IntSets
  import opened Arithmetic
  import opened NodeState
  import opened GpuPartitions
  import opened PartitionTheory
  import opened Scores
  import opened BestEffort

  // ---------- Chains of links ----------

  /** Only neighbouring GPUs score: x - 1 and x score w(x). */
  ghost predicate Chain(n: Node, m: nat, w: int -> int) {
    && Symmetric(n.topology) && (forall x :: 0 <= w(x) && (x <= 0 || x >= m ==> w(x) == 0))
    && forall a, b :: PairScore(n, a, b) == if b == a + 1 then w(b) else if a == b + 1 then w(a) else 0
  }

  lemma TopRow(n: Node, m: nat, w: int -> int, S: set<int>, k: int)
    requires Chain(n, m, w) && forall y :: y in S ==> y < k
    ensures RowSum(n, k, S) == if k - 1 in S then w(k) else 0
  {
    if k - 1 in S {
      RowSumAny(n, k, S, k - 1);
      RowSumRange(n, k, S - {k - 1});
    } else {
      RowSumRange(n, k, S);
    }
  }

  /** The scores of the neighbours below k that are both in B. */
  ghost function Inside(B: set<int>, w: int -> int, k: nat): int {
    if k == 0 then 0 else Inside(B, w, k - 1) + if k - 1 in B && k - 2 in B then w(k - 1) else 0
  }

  ghost function Below(B: set<int>, k: int): set<int> {
    set x | x in B && x < k
  }

  lemma BelowOneMore(B: set<int>, k: int)
    ensures k in B ==> Below(B, k + 1) - {k} == Below(B, k) && k in Below(B, k + 1)
    ensures k !in B ==> Below(B, k + 1) == Below(B, k)
  {
    if k in B {
      IntSets.SameElements(Below(B, k + 1) - {k}, Below(B, k));
    } else {
      IntSets.SameElements(Below(B, k + 1), Below(B, k));
    }
  }

  lemma AddTop(n: Node, m: nat, w: int -> int, more: set<int>, S: set<int>, k: int)
    requires Chain(n, m, w) && k in more && more - {k} == S && forall y :: y in S ==> y < k
    ensures BlockScore(n, more) == BlockScore(n, S) + if k - 1 in S then w(k) else 0
  {
    BlockScoreAny(n, more, k);
    TopRow(n, m, w, S, k);
  }

  lemma BelowStep(n: Node, m: nat, w: int -> int, B: set<int>, k: nat)
    requires Chain(n, m, w)
    ensures BlockScore(n, Below(B, k + 1))
         == BlockScore(n, Below(B, k)) + if k in B && k - 1 in B then w(k) else 0
  {
    BelowOneMore(B, k);
    if k in B { AddTop(n, m, w, Below(B, k + 1), Below(B, k), k); }
  }

  /** Adding k to the elements below it adds the link between k - 1 and k, if both are in B. */
  ghost predicate StepsBy(n: Node, w: int -> int, B: set<int>, k: nat) {
    BlockScore(n, Below(B, k + 1)) == BlockScore(n, Below(B, k)) + if k in B && k - 1 in B then w(k) else 0
  }

  lemma {:induction false} BelowScore(n: Node, w: int -> int, B: set<int>, k: nat)
    requires BlockScore(n, Below(B, 0)) == 0 && forall j: nat :: StepsBy(n, w, B, j)
    ensures BlockScore(n, Below(B, k)) == Inside(B, w, k)
  {
    if k > 0 {
      BelowScore(n, w, B, k - 1);
      assert StepsBy(n, w, B, k - 1);
    }
  }

  lemma BlockIsInside(n: Node, m: nat, w: int -> int, B: set<int>)
    requires Chain(n, m, w) && forall x :: x in B ==> 0 <= x < m
    ensures BlockScore(n, B) == Inside(B, w, m)
  {
    IntSets.NoElements(Below(B, 0));
    forall j: nat ensures StepsBy(n, w, B, j) {
      BelowStep(n, m, w, B, j);
    }
    BelowScore(n, w, B, m);
    IntSets.SameElements(Below(B, m), B);
  }

  // ---------- The links a partition keeps ----------

  ghost predicate Joined(P: set<set<int>>, x: int) {
    exists B :: B in P && x - 1 in B && x in B
  }

  ghost predicate Disjoint(P: set<set<int>>) {
    forall B, C :: B in P && C in P && B != C ==> B !! C
  }

  ghost function Kept(P: set<set<int>>, w: int -> int, k: nat): int {
    if k == 0 then 0 else Kept(P, w, k - 1) + if Joined(P, k - 1) then w(k - 1) else 0
  }

  function All(w: int -> int, k: nat): int {
    if k == 0 then 0 else All(w, k - 1) + w(k - 1)
  }

  lemma JoinedWithout(P: set<set<int>>, B: set<int>, x: int)
    requires B in P && Disjoint(P)
    ensures Joined(P, x) <==> Joined(P - {B}, x) || (x - 1 in B && x in B)
    ensures !(Joined(P - {B}, x) && x in B)
  {
    if Joined(P, x) {
      var C :| C in P && x - 1 in C && x in C;
      if C != B { assert C in P - {B}; }
    }
  }

  lemma {:induction false} KeptWithout(P: set<set<int>>, w: int -> int, B: set<int>, k: nat)
    requires B in P && Disjoint(P)
    ensures Kept(P, w, k) == Kept(P - {B}, w, k) + Inside(B, w, k)
  {
    if k > 0 {
      KeptWithout(P, w, B, k - 1);
      JoinedWithout(P, B, k - 1);
    }
  }

  lemma {:induction false} NothingKept(w: int -> int, k: nat)
    ensures Kept({}, w, k) == 0
  {
    if k > 0 { NothingKept(w, k - 1); }
  }

  /** The score of a partition is the sum over the links it keeps. */
  lemma {:induction false} TotalIsKept(n: Node, m: nat, w: int -> int, P: set<set<int>>)
    requires Chain(n, m, w) && Disjoint(P) && forall B, x :: B in P && x in B ==> 0 <= x < m
    ensures TotalScore(n, P) == Kept(P, w, m)
  {
    if P == {} {
      NothingKept(w, m);
    } else {
      var B :| B in P;
      TotalScoreAny(n, P, B);
      TotalIsKept(n, m, w, P - {B});
      BlockIsInside(n, m, w, B);
      KeptWithout(P, w, B, m);
    }
  }

  /** All links are kept if and only if the sum is that of all of them. */
  lemma {:induction false} AllKeptIff(P: set<set<int>>, w: int -> int, k: nat)
    requires forall x :: 0 <= w(x)
    ensures Kept(P, w, k) <= All(w, k)
    ensures Kept(P, w, k) == All(w, k) <==> forall x :: 0 <= x < k && w(x) > 0 ==> Joined(P, x)
  {
    if k > 0 { AllKeptIff(P, w, k - 1); }
  }

  // ---------- Ranges ----------

  ghost function Range(a: int, b: int): (r: set<int>)
    ensures forall x :: x in r <==> a <= x < b
    decreases b - a
  {
    if a >= b then {} else Range(a, b - 1) + {b - 1}
  }

  lemma {:induction false} RangeSize(a: int, b: int)
    requires a <= b
    ensures |Range(a, b)| == b - a
    decreases b - a
  {
    if a < b { RangeSize(a, b - 1); }
  }

  /** d links of c each. */
  function Links(c: nat, d: nat): nat {
    if d == 0 then 0 else Links(c, d - 1) + c
  }

  lemma {:induction false} LinksScore(c: nat, d: nat)
    ensures Links(c, d) == c * d
  {
    if d > 0 {
      LinksScore(c, d - 1);
      assert c * d == c * (d - 1) + c;
    }
  }

  /** A range whose links score c each. */
  lemma {:induction false} RangeInside(w: int -> int, B: set<int>, a: nat, b: nat, c: nat, k: nat)
    requires a < b && B == Range(a, b) && forall x :: a < x < b ==> w(x) == c
    ensures Inside(B, w, k) == if k <= a then 0 else if k <= b then Links(c, k - 1 - a) else Links(c, b - 1 - a)
  {
    if k > 0 { RangeInside(w, B, a, b, c, k - 1); }
  }

  // ---------- The partition that keeps all links ----------

  /** A multiple of `size`. */
  predicate Starts(a: nat, size: nat)
    requires size > 0
  {
    a == 0 || (a >= size && Starts(a - size, size))
  }

  lemma {:induction false} StartsIsMultiple(a: nat, size: nat) returns (q: nat)
    requires size > 0 && Starts(a, size)
    ensures a == q * size
  {
    if a == 0 {
      q := 0;
    } else {
      q := StartsIsMultiple(a - size, size);
      q := q + 1;
    }
  }

  lemma {:induction false} MultipleStarts(q: nat, size: nat)
    requires size > 0
    ensures Starts(q * size, size)
  {
    if q > 0 {
      MultipleStarts(q - 1, size);
      assert q * size == (q - 1) * size + size;
    }
  }

  /** [0, size), [size, 2 * size), ..., up to a. */
  ghost function Full(a: nat, size: nat): set<set<int>>
    requires size > 0
  {
    if a < size then {} else Full(a - size, size) + {Range(a - size, a)}
  }

  /** The range of `size` around x. */
  lemma {:induction false} Around(x: nat, a: nat, size: nat) returns (i: nat)
    requires size > 0 && Starts(a, size) && x < a
    ensures Starts(i, size) && i <= x < i + size <= a
  {
    if x >= a - size {
      i := a - size;
    } else {
      i := Around(x, a - size, size);
    }
  }

  /** The range of `size` that starts at i, up to a. */
  ghost predicate IsFullRange(B: set<int>, a: nat, size: nat, i: nat)
    requires size > 0
  {
    Starts(i, size) && i + size <= a && B == Range(i, i + size)
  }

  lemma {:induction false} FullMembers(a: nat, size: nat, B: set<int>)
    requires size > 0 && Starts(a, size)
    ensures B in Full(a, size) <==> exists i: nat :: IsFullRange(B, a, size, i)
  {
    if a > 0 {
      var b := a - size;
      FullMembers(b, size, B);
      if B in Full(b, size) {
        var i: nat :| IsFullRange(B, b, size, i);
        assert IsFullRange(B, a, size, i);
      }
      if B == Range(b, a) { assert IsFullRange(B, a, size, b); }
      if i: nat :| IsFullRange(B, a, size, i) && i != b {
        StartsApart(i, b, size);
        assert IsFullRange(B, b, size, i);
      }
    }
  }

  lemma {:induction false} StartsApart(i: nat, j: nat, size: nat)
    requires size > 0 && Starts(i, size) && Starts(j, size) && i != j
    ensures i + size <= j || j + size <= i
  {
    if i > 0 && j > 0 { StartsApart(i - size, j - size, size); }
  }

  /** The ranges of `size` up to a, and the rest up to m. */
  ghost function Ranges(a: nat, m: nat, size: nat): set<set<int>>
    requires size > 0
  {
    Full(a, size) + {Range(a, m)}
  }

  /** The start of a block of that partition. */
  ghost predicate StartOf(B: set<int>, a: nat, m: nat, size: nat, i: nat)
    requires size > 0
  {
    Starts(i, size) && (IsFullRange(B, a, size, i) || (i == a && B == Range(a, m)))
  }

  lemma RangesMembers(a: nat, m: nat, size: nat, B: set<int>)
    requires size > 0 && Starts(a, size)
    ensures B in Ranges(a, m, size) <==> exists i: nat :: StartOf(B, a, m, size, i)
  {
    FullMembers(a, size, B);
    if B in Full(a, size) {
      var i: nat :| IsFullRange(B, a, size, i);
      assert StartOf(B, a, m, size, i);
    }
    if B == Range(a, m) { assert StartOf(B, a, m, size, a); }
  }

  lemma OneBlock(a: nat, m: nat, size: nat, B: set<int>) returns (i: nat)
    requires size > 0 && Starts(a, size) && a < m <= a + size && B in Ranges(a, m, size)
    ensures StartOf(B, a, m, size, i) && i in B && B <= Range(0, m) && |B| <= size
    ensures |B| < size ==> i == a
    ensures forall x :: x in B ==> i <= x < i + size
  {
    RangesMembers(a, m, size, B);
    i :| StartOf(B, a, m, size, i);
    var b := if IsFullRange(B, a, size, i) then i + size else m;
    RangeFacts(B, i, b, m, size);
  }

  lemma RangeFacts(B: set<int>, i: nat, b: nat, m: nat, size: nat)
    requires B == Range(i, b) && i < b <= i + size && b <= m
    ensures i in B && B <= Range(0, m) && |B| == b - i && forall x :: x in B ==> i <= x < i + size
  {
    RangeSize(i, b);
  }

  lemma TwoBlocks(a: nat, m: nat, size: nat, B: set<int>, C: set<int>)
    requires size > 0 && Starts(a, size) && a < m <= a + size && B in Ranges(a, m, size) && C in Ranges(a, m, size)
    ensures B == C || B !! C
    ensures |B| < size && |C| < size ==> B == C
  {
    var i := OneBlock(a, m, size, B);
    var j := OneBlock(a, m, size, C);
    if i != j { StartsApart(i, j, size); }
    if i == j { SameStart(a, m, size, B, C, i); }
  }

  lemma SameStart(a: nat, m: nat, size: nat, B: set<int>, C: set<int>, i: nat)
    requires size > 0 && Starts(a, size) && StartOf(B, a, m, size, i) && StartOf(C, a, m, size, i)
    ensures B == C
  {
  }

  lemma RangesCover(a: nat, m: nat, size: nat, x: nat)
    requires size > 0 && Starts(a, size) && x < m
    ensures Covers(Ranges(a, m, size), x)
  {
    if x < a {
      var i := Around(x, a, size);
      assert IsFullRange(Range(i, i + size), a, size, i);
      FullMembers(a, size, Range(i, i + size));
      assert Range(i, i + size) in Ranges(a, m, size);
    } else {
      assert Range(a, m) in Ranges(a, m, size);
    }
  }

  lemma RangesArePartition(a: nat, m: nat, size: nat)
    requires size > 0 && Starts(a, size) && a < m <= a + size
    ensures IsPartition(Ranges(a, m, size), Range(0, m), size)
  {
    var P := Ranges(a, m, size);
    forall B | B in P ensures B != {} && B <= Range(0, m) && |B| <= size {
      var i := OneBlock(a, m, size, B);
    }
    forall x | x in Range(0, m) ensures Covers(P, x) {
      RangesCover(a, m, size, x);
    }
    forall B, C | B in P && C in P && B != C ensures B !! C && !(|B| < size && |C| < size) {
      TwoBlocks(a, m, size, B, C);
    }
  }

  /** No link leads from one range into the next. */
  ghost predicate Broken(w: int -> int, size: nat)
    requires size > 0
  {
    forall a: nat :: Starts(a, size) ==> w(a) == 0
  }

  lemma JoinedInRange(P: set<set<int>>, a: int, b: int, x: int)
    requires Range(a, b) in P && a < x < b
    ensures Joined(P, x)
  {
    assert x - 1 in Range(a, b) && x in Range(a, b);
  }

  lemma JoinedInMore(P: set<set<int>>, B: set<int>, x: int)
    requires Joined(P, x)
    ensures Joined(P + {B}, x)
  {
    var C :| C in P && x - 1 in C && x in C;
    assert C in P + {B};
  }

  lemma {:induction false} FullJoins(w: int -> int, a: nat, size: nat, x: int)
    requires size > 0 && Starts(a, size) && Broken(w, size) && 0 < x < a && w(x) > 0
    ensures Joined(Full(a, size), x)
  {
    var b := a - size;
    if x > b {
      JoinedInRange(Full(a, size), b, a, x);
    } else {
      assert x != b;
      FullJoins(w, b, size, x);
      JoinedInMore(Full(b, size), Range(b, a), x);
    }
  }

  lemma RangesKeepLinks(w: int -> int, a: nat, m: nat, size: nat)
    requires size > 0 && Starts(a, size) && Broken(w, size)
    ensures KeepsLinks(Ranges(a, m, size), w, m) || w(0) > 0
  {
    forall x | 0 < x < m && w(x) > 0 ensures Joined(Ranges(a, m, size), x) {
      if x > a {
        JoinedInRange(Ranges(a, m, size), a, m, x);
      } else {
        assert x != a;
        FullJoins(w, a, size, x);
        JoinedInMore(Full(a, size), Range(a, m), x);
      }
    }
  }

  lemma KeepsAll(n: Node, m: nat, w: int -> int, P: set<set<int>>, size: nat)
    requires Chain(n, m, w) && IsPartition(P, Range(0, m), size)
    ensures TotalScore(n, P) <= All(w, m)
    ensures TotalScore(n, P) == All(w, m) <==> KeepsLinks(P, w, m)
  {
    TotalIsKept(n, m, w, P);
    AllKeptIff(P, w, m);
  }

  ghost predicate KeepsLinks(P: set<set<int>>, w: int -> int, m: nat) {
    forall x :: 0 <= x < m && w(x) > 0 ==> Joined(P, x)
  }

  // ---------- A partition that keeps all links ----------

  lemma {:induction false} RunTogether(P: set<set<int>>, B: set<int>, a: int, b: int, x: int)
    requires Disjoint(P) && B in P && a in B && a <= x < b
    requires forall y :: a < y < b ==> Joined(P, y)
    ensures x in B
    decreases x - a
  {
    if x > a {
      RunTogether(P, B, a, b, x - 1);
      assert Joined(P, x);
      var C :| C in P && x - 1 in C && x in C;
      assert C == B;
    }
  }

  /** A run of linked GPUs lies in one block. */
  lemma RangeInBlock(P: set<set<int>>, D: set<int>, size: nat, B: set<int>, a: int, b: int, x: int)
    requires IsPartition(P, D, size) && B in P && a <= x < b && x in B && a in D
    requires forall y :: a < y < b ==> Joined(P, y)
    ensures Range(a, b) <= B
  {
    assert Covers(P, a);
    var C :| C in P && a in C;
    RunTogether(P, C, a, b, x);
    assert C == B;
    forall y | y in Range(a, b) ensures y in B {
      RunTogether(P, B, a, b, y);
    }
  }

  /** The links inside a range from i on, before a or in the rest from a on, score `full` and `last`. */
  ghost predicate Levels(w: int -> int, m: nat, a: nat, size: nat, full: nat, last: nat)
    requires size > 0
  {
    forall i: nat, y :: Starts(i, size) && i < y < i + size && y < m ==> w(y) == if y > a then last else full
  }

  /** A full range that lies in a block is the block. */
  lemma RangeIsBlock(size: nat, B: set<int>, i: nat)
    requires Range(i, i + size) <= B && |B| <= size
    ensures B == Range(i, i + size)
  {
    RangeSize(i, i + size);
    SubsetIsAll(Range(i, i + size), B);
  }

  lemma LinkedRange(
      P: set<set<int>>, w: int -> int, m: nat, a: nat, size: nat, full: nat, last: nat, i: nat, b: nat)
    requires size > 0 && full > 0 && last > 0 && KeepsLinks(P, w, m) && Levels(w, m, a, size, full, last)
    requires Starts(i, size) && b <= i + size && b <= m
    ensures forall y :: i < y < b ==> Joined(P, y)
  {
    forall y | i < y < b ensures Joined(P, y) {
      assert w(y) > 0;
    }
  }

  /** The blocks of a partition that keeps all links are ranges of `size` and the rest. */
  lemma BlockIsRange(
      P: set<set<int>>, w: int -> int, m: nat, a: nat, size: nat, full: nat, last: nat, B: set<int>, x: nat)
    returns (i: nat)
    requires size > 0 && Starts(a, size) && a < m <= a + size && full > 0 && last > 0
    requires IsPartition(P, Range(0, m), size) && KeepsLinks(P, w, m) && Levels(w, m, a, size, full, last)
    requires B in P && x in B && x < a
    ensures Starts(i, size) && i + size <= a && B == Range(i, i + size)
  {
    i := Around(x, a, size);
    LinkedRange(P, w, m, a, size, full, last, i, i + size);
    RangeInBlock(P, Range(0, m), size, B, i, i + size, x);
    RangeIsBlock(size, B, i);
  }

  lemma SubsetIsAll(A: set<int>, B: set<int>)
    requires A <= B && |B| <= |A|
    ensures A == B
  {
    assert |B| == |A| + |B - A|;
  }

  /** The block with the last GPU is the rest. */
  lemma LastIsRest(P: set<set<int>>, w: int -> int, m: nat, a: nat, size: nat, full: nat, last: nat, B: set<int>)
    requires size > 0 && Starts(a, size) && a < m <= a + size && full > 0 && last > 0
    requires IsPartition(P, Range(0, m), size) && KeepsLinks(P, w, m) && Levels(w, m, a, size, full, last)
    requires B in P && m - 1 in B
    ensures B == Range(a, m)
  {
    LinkedRange(P, w, m, a, size, full, last, a, m);
    RangeInBlock(P, Range(0, m), size, B, a, m, m - 1);
    forall y | y in B ensures y >= a {
      if y < a {
        var i := BlockIsRange(P, w, m, a, size, full, last, B, y);
      }
    }
    IntSets.SameElements(B, Range(a, m));
  }

  // ---------- The topology ----------

  /** The link between x - 1 and x: six NVLinks in the rest, PCIe in the ranges before. */
  function LinkAt(x: int, m: nat, size: nat): int
    requires size > 0
  {
    if x <= 0 || x >= m || x % size == 0 then 0 else if x > m - m % size then 12 else 1
  }

  function ScoreAt(m: nat, size: nat): int -> int
    requires size > 0
  {
    x => LinkScore(LinkAt(x, m, size))
  }

  /** m free GPUs in chains of `size`, and one chain of the rest with faster links. */
  function Chains(m: nat, size: nat): Node
    requires size > 0
  {
    var topology := map i, j | 0 <= i < m && 0 <= j < m ::
      (i, j) := if j == i + 1 then LinkAt(j, m, size) else if i == j + 1 then LinkAt(i, m, size) else 0;
    Node(NodeSpec("node", m, topology), FreshDevices(m), topology)
  }

  lemma ChainsLink(m: nat, size: nat, a: int, b: int)
    requires size > 0
    ensures var t := Chains(m, size).topology;
            Link(t, a, b) == (if b == a + 1 && a >= 0 then LinkAt(b, m, size)
                              else if a == b + 1 && b >= 0 then LinkAt(a, m, size) else 0)
  {
  }

  lemma ChainsAreSquare(m: nat, size: nat)
    requires size > 0
    ensures Decoded(Chains(m, size).topology, m)
  {
    var t := Chains(m, size).topology;
    assert (0, 0) in t <==> m > 0;
    assert Square(t, m);
  }

  lemma ChainsAreWellFormed(m: nat, size: nat)
    requires size > 0
    ensures WellFormed(Chains(m, size)) && FreeIds(Chains(m, size)) == Range(0, m)
  {
    ChainsAreSquare(m, size);
    AllAreFree(m, Chains(m, size));
  }

  lemma AllAreFree(m: nat, n: Node)
    requires n.devs == FreshDevices(m)
    ensures FreeIds(n) == Range(0, m)
  {
    IntSets.SameElements(FreeIds(n), Range(0, m));
  }

  lemma ChainsScore(m: nat, size: nat, a: int, b: int)
    requires size > 0
    ensures var w := ScoreAt(m, size);
            PairScore(Chains(m, size), a, b) == if b == a + 1 then w(b) else if a == b + 1 then w(a) else 0
  {
    IntSets.RangeCount(Chains(m, size).devs.Keys, m);
    ChainsLink(m, size, a, b);
  }

  lemma ChainsAreChain(m: nat, size: nat)
    requires size > 0
    ensures Chain(Chains(m, size), m, ScoreAt(m, size)) && Broken(ScoreAt(m, size), size)
  {
    var n := Chains(m, size);
    forall a, b ensures Link(n.topology, a, b) == Link(n.topology, b, a) {
      ChainsLink(m, size, a, b);
      ChainsLink(m, size, b, a);
    }
    forall a, b
      ensures PairScore(n, a, b)
           == if b == a + 1 then ScoreAt(m, size)(b) else if a == b + 1 then ScoreAt(m, size)(a) else 0
    {
      ChainsScore(m, size, a, b);
    }
    forall a: nat | Starts(a, size) ensures ScoreAt(m, size)(a) == 0 {
      var q := StartsIsMultiple(a, size);
      DivisionIsUnique(a, size, q, 0);
    }
  }

  lemma LevelsOfChains(m: nat, a: nat, size: nat, rest: nat)
    requires 0 < rest < size && rest == m % size && m == a + rest && Starts(a, size)
    ensures Levels(ScoreAt(m, size), m, a, size, 10, 600)
  {
    forall i: nat, y | Starts(i, size) && i < y < i + size && y < m
      ensures ScoreAt(m, size)(y) == if y > a then 600 else 10
    {
      var q := StartsIsMultiple(i, size);
      DivisionIsUnique(y, size, q, y - i);
    }
  }

  // ---------- Every order ----------

  /** Every optimal partition has the rest as a block, and it is the best block. */
  lemma RestIsBest(
      n: Node, m: nat, w: int -> int, a: nat, size: nat, full: nat, last: nat,
      P: set<set<int>>, block: set<int>, score: int)
    requires size > 0 && Starts(a, size) && a < m <= a + size && full > 0 && last > 0
    requires Chain(n, m, w) && Broken(w, size) && Levels(w, m, a, size, full, last)
    requires full * (size - 1) < last * (m - 1 - a)
    requires OptimalChoice(n, Range(0, m), size, P, block, score)
    ensures block == Range(a, m)
  {
    OptimalKeepsLinks(n, m, w, a, size, P);
    assert Covers(P, m - 1);
    var rest :| rest in P && m - 1 in rest;
    LastIsRest(P, w, m, a, size, full, last, rest);
    RestScore(n, m, w, a, size, full, last);
    forall x | x in block ensures x >= a {
      if x < a {
        var i := BlockIsRange(P, w, m, a, size, full, last, block, x);
        FullScore(n, m, w, a, size, full, last, i);
      }
    }
    IntSets.NonEmpty(block);
    var x :| x in block;
    SameBlock(P, Range(0, m), size, rest, block, x);
  }

  lemma SameBlock(P: set<set<int>>, D: set<int>, size: nat, B: set<int>, C: set<int>, x: int)
    requires IsPartition(P, D, size) && B in P && C in P && x in B && x in C
    ensures B == C
  {
  }

  lemma RestLinks(m: nat, w: int -> int, a: nat, size: nat, full: nat, last: nat)
    requires size > 0 && Starts(a, size) && a < m <= a + size && Levels(w, m, a, size, full, last)
    ensures Inside(Range(a, m), w, m) == last * (m - 1 - a)
  {
    RangeInside(w, Range(a, m), a, m, last, m);
    LinksScore(last, m - 1 - a);
  }

  lemma RestScore(n: Node, m: nat, w: int -> int, a: nat, size: nat, full: nat, last: nat)
    requires size > 0 && Starts(a, size) && a < m <= a + size && Chain(n, m, w) && Levels(w, m, a, size, full, last)
    ensures BlockScore(n, Range(a, m)) == last * (m - 1 - a)
  {
    BlockIsInside(n, m, w, Range(a, m));
    RestLinks(m, w, a, size, full, last);
  }

  lemma FullLinks(m: nat, w: int -> int, a: nat, size: nat, full: nat, last: nat, i: nat)
    requires size > 0 && Starts(i, size) && i + size <= a < m && Levels(w, m, a, size, full, last)
    ensures Inside(Range(i, i + size), w, m) == full * (size - 1)
  {
    RangeInside(w, Range(i, i + size), i, i + size, full, m);
    LinksScore(full, size - 1);
  }

  lemma FullScore(n: Node, m: nat, w: int -> int, a: nat, size: nat, full: nat, last: nat, i: nat)
    requires size > 0 && Starts(i, size) && i + size <= a < m && Chain(n, m, w) && Levels(w, m, a, size, full, last)
    ensures BlockScore(n, Range(i, i + size)) == full * (size - 1)
  {
    BlockIsInside(n, m, w, Range(i, i + size));
    FullLinks(m, w, a, size, full, last, i);
  }

  lemma OptimalKeepsLinks(n: Node, m: nat, w: int -> int, a: nat, size: nat, P: set<set<int>>)
    requires size > 0 && Starts(a, size) && a < m <= a + size && Chain(n, m, w) && Broken(w, size)
    requires IsPartition(P, Range(0, m), size)
    requires forall Q :: IsPartition(Q, Range(0, m), size) ==> TotalScore(n, Q) <= TotalScore(n, P)
    ensures KeepsLinks(P, w, m)
  {
    RangesArePartition(a, m, size);
    RangesKeepLinks(w, a, m, size);
    KeepsAll(n, m, w, Ranges(a, m, size), size);
    KeepsAll(n, m, w, P, size);
  }

  /** With r >= 2 GPUs left over and 60 * (r - 1) > req - 1 there is a symmetric topology for which the
      result contains padding whatever the order of the device map. */
  lemma PaddedInEveryOrder(m: nat, req: nat, rest: nat)
    requires 2 <= req <= m && rest == m % req >= 2 && 60 * (rest - 1) > req - 1
    ensures var n := Chains(m, req);
            && WellFormed(n) && Symmetric(n.topology) && |FreeIds(n)| == m
            && forall devices :: FreeDevices(n, devices) ==>
                 Selection(n, devices, req).Selected? && PADDING in Selection(n, devices, req).ids
  {
    var n, w, a := Chains(m, req), ScoreAt(m, req), m - rest;
    ChainsAreWellFormed(m, req);
    ChainsAreChain(m, req);
    RestStarts(m, req, rest);
    LevelsOfChains(m, a, req, rest);
    RangeSize(0, m);
    forall devices | FreeDevices(n, devices)
      ensures Selection(n, devices, req).Selected? && PADDING in Selection(n, devices, req).ids
    {
      PaddedInThisOrder(n, m, w, a, req, devices);
    }
  }

  lemma RestStarts(m: nat, size: nat, rest: nat)
    requires size > 0 && rest == m % size
    ensures rest <= m && rest < size && Starts(m - rest, size)
  {
    var q := m / size;
    assert m - rest == q * size;
    MultipleStarts(q, size);
  }

  lemma PaddedInThisOrder(n: Node, m: nat, w: int -> int, a: nat, size: nat, devices: seq<int>)
    requires size > 1 && Starts(a, size) && a + 1 < m < a + size && size <= m
    requires Chain(n, m, w) && Broken(w, size) && Levels(w, m, a, size, 10, 600)
    requires 60 * (m - a - 1) > size - 1
    requires FreeDevices(n, devices) && FreeIds(n) == Range(0, m)
    ensures Selection(n, devices, size).Selected? && PADDING in Selection(n, devices, size).ids
  {
    RangeSize(0, m);
    FreeDevicesCount(n, devices);
    assert w(m - 1) == 600;
    assert PairScore(n, m - 2, m - 1) > 0 && m - 2 in Reals(devices) && m - 1 in Reals(devices);
    SelectionInRange(n, devices, size);
    var P := SelectionIsOptimal(n, devices, size);
    var r := Selection(n, devices, size);
    RestIsBest(n, m, w, a, size, 10, 600, P, Reals(r.ids), r.score);
    RangeSize(a, m);
    BlockSize(r.ids);
  }
}

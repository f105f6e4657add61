/** The partition enumerator lists exactly the partitions of the free GPUs into blocks of the
    requested size with at most one short block, each of them once. */
module PartitionTheory {
  import opened Arithmetic
  import opened GpuSets
  import opened GpuPartitions

  // ---------- The independent notion of a partition ----------

  /** P splits D into non-empty disjoint blocks of `size`, except that one block may be smaller. */
  ghost predicate IsPartition(P: set<set<int>>, D: set<int>, size: nat) {
    && (forall B :: B in P ==> B != {} && B <= D && |B| <= size)
    && (forall x :: x in D ==> Covers(P, x))
    && (forall B, C :: B in P && C in P && B != C ==> B !! C)
    && (forall B, C :: B in P && C in P && |B| < size && |C| < size ==> B == C)
  }

  ghost predicate Covers(P: set<set<int>>, x: int) {
    exists B :: B in P && x in B
  }

  /** What every candidate looks like as the program's list of lists. */
  ghost predicate Sound(p: Partition, devices: seq<int>, size: nat)
    requires size > 0
  {
    && IsPartition(Shape(p), Reals(devices), size)
    && |Shape(p)| == |p| == |devices| / size
    && BlocksFit(p, devices, size)
  }

  ghost predicate BlocksFit(p: Partition, devices: seq<int>, size: nat) {
    forall b :: b in p ==> |b| == size && NoRepeat(b) && forall id :: id in b ==> id in devices
  }

  ghost predicate DistinctShapes(ps: seq<Partition>) {
    forall i, j :: 0 <= i < j < |ps| ==> Shape(ps[i]) != Shape(ps[j])
  }

  // ---------- Taking blocks off and putting them back ----------

  lemma TakeOff(P: set<set<int>>, D: set<int>, size: nat, B: set<int>)
    requires IsPartition(P, D, size) && B in P
    ensures IsPartition(P - {B}, D - B, size)
  {
    forall x | x in D - B ensures Covers(P - {B}, x) {
      assert Covers(P, x);
      var C :| C in P && x in C;
      assert C in P - {B};
    }
  }

  lemma PutBack(P: set<set<int>>, D: set<int>, size: nat, B: set<int>, x: int)
    requires x in B && B <= D && |B| <= size && IsPartition(P, D - B, size)
    requires |B| < size ==> forall C :: C in P ==> |C| == size
    ensures B !in P && IsPartition(P + {B}, D, size)
  {
    assert forall C :: C in P ==> x !in C;
    forall y | y in D ensures Covers(P + {B}, y) {
      if y in B {
        assert B in P + {B};
      } else {
        assert y in D - B && Covers(P, y);
        var C :| C in P && y in C;
        assert C in P + {B};
      }
    }
  }

  lemma {:induction false} FullBlocks(P: set<set<int>>, D: set<int>, size: nat)
    requires IsPartition(P, D, size) && forall B :: B in P ==> |B| == size
    ensures |D| == |P| * size
    decreases P
  {
    if P == {} {
      forall x ensures x !in D {}
    } else {
      var B :| B in P;
      TakeOff(P, D, size, B);
      FullBlocks(P - {B}, D - B, size);
      assert |P - {B}| == |P| - 1;
      assert |D - B| == |D| - |B|;
      assert |D| == (|P| - 1) * size + size;
    }
  }

  /** A short block holds what is left over when the device count is divided by `size`. */
  lemma ShortBlock(P: set<set<int>>, D: set<int>, size: nat, B: set<int>)
    requires IsPartition(P, D, size) && B in P && |B| < size
    ensures |B| == |D| % size && forall C :: C in P - {B} ==> |C| == size
  {
    TakeOff(P, D, size, B);
    FullBlocks(P - {B}, D - B, size);
    DivisionIsUnique(|D|, size, |P - {B}|, |B|);
  }

  lemma AllFull(P: set<set<int>>, D: set<int>, size: nat)
    requires size > 0 && IsPartition(P, D, size) && |D| % size == 0
    ensures forall B :: B in P ==> |B| == size
  {
    forall B | B in P ensures |B| == size {
      if |B| < size { ShortBlock(P, D, size, B); }
    }
  }

  // ---------- Sizes at one level of the recursion ----------

  /** How many real ids the argument of `iterate` has, and what that leaves for a short block. */
  lemma LevelSize(devices: seq<int>, size: nat, padding: nat)
    requires Level(devices, size, padding)
    ensures devices[0] in Reals(devices)
    ensures |Reals(devices)| + CountPadding(devices) == |devices|
    ensures |Reals(devices)| % size == (if CountPadding(devices) == 0 then 0 else size - CountPadding(devices))
  {
    var r, k := RealPart(devices), CountPadding(devices);
    LayoutSize(devices, r, k);
    WithoutPadding(|r|, k, size);
    assert devices[0] == r[0];
  }

  // ---------- Soundness ----------

  lemma {:induction false} BranchesMember(devices: seq<int>, size: nat, padding: nat, sets: seq<seq<int>>, p: Partition)
    requires devices != [] && p in Branches(devices, size, padding, sets)
    ensures exists s :: s in sets && p in Branch(devices, size, padding, s)
  {
    var front, last := sets[..|sets| - 1], sets[|sets| - 1];
    if p in Branch(devices, size, padding, last) {
      assert last in sets;
    } else {
      BranchesMember(devices, size, padding, front, p);
      var s :| s in front && p in Branch(devices, size, padding, s);
      assert s in sets;
    }
  }

  lemma BranchMember(
      devices: seq<int>, size: nat, padding: nat, chosen: seq<int>, p: Partition) returns (rest: Partition)
    requires devices != [] && p in Branch(devices, size, padding, chosen)
    ensures PaddingTogether(Block(devices, chosen), padding)
    ensures rest in Partitions(Outside(devices, Block(devices, chosen)), size, padding)
    ensures p == [Block(devices, chosen)] + rest
  {
    var block := Block(devices, chosen);
    var ps := Partitions(Outside(devices, block), size, padding);
    var i :| 0 <= i < |ps| && p == [block] + ps[i];
    rest := ps[i];
  }

  lemma ShapeOfPrefixed(block: seq<int>, rest: Partition)
    ensures Shape([block] + rest) == Shape(rest) + {Reals(block)}
  {
    var p := [block] + rest;
    assert p[0] == block && forall b :: b in rest ==> b in p;
  }

  /** A short block takes the padding, so that only full blocks remain. */
  lemma FullAfterShort(devices: seq<int>, size: nat, padding: nat, chosen: seq<int>, P: set<set<int>>)
    requires Level(devices, size, padding) && size < |devices|
    requires chosen in Sets(devices[1..], size - 1) && PaddingTogether(Block(devices, chosen), padding)
    requires |Reals(Block(devices, chosen))| < size
    requires IsPartition(P, Reals(Outside(devices, Block(devices, chosen))), size)
    ensures forall C :: C in P ==> |C| == size
  {
    var block := Block(devices, chosen);
    var remaining := Outside(devices, block);
    RemainingSize(devices, size, padding, chosen);
    RemainingIsLevel(devices, size, padding, chosen);
    LayoutIsUnique(remaining, Outside(RealPart(devices), block), PaddingLeft(devices, block));
    LevelSize(remaining, size, padding);
    AllFull(P, Reals(remaining), size);
  }

  lemma AddBlock(devices: seq<int>, size: nat, padding: nat, chosen: seq<int>, P: set<set<int>>)
    requires Level(devices, size, padding) && size < |devices|
    requires chosen in Sets(devices[1..], size - 1) && PaddingTogether(Block(devices, chosen), padding)
    requires IsPartition(P, Reals(Outside(devices, Block(devices, chosen))), size)
    ensures Reals(Block(devices, chosen)) !in P
    ensures IsPartition(P + {Reals(Block(devices, chosen))}, Reals(devices), size)
  {
    var B := Reals(Block(devices, chosen));
    RemainingSize(devices, size, padding, chosen);
    LevelSize(devices, size, padding);
    assert devices[0] in B;
    if |B| < size {
      FullAfterShort(devices, size, padding, chosen, P);
    }
    PutBack(P, Reals(devices), size, B, devices[0]);
  }

  lemma AddBlockIsSound(devices: seq<int>, size: nat, padding: nat, chosen: seq<int>, rest: Partition)
    requires Level(devices, size, padding) && size < |devices|
    requires chosen in Sets(devices[1..], size - 1) && PaddingTogether(Block(devices, chosen), padding)
    requires Sound(rest, Outside(devices, Block(devices, chosen)), size)
    ensures Sound([Block(devices, chosen)] + rest, devices, size)
  {
    var block := Block(devices, chosen);
    AddBlock(devices, size, padding, chosen, Shape(rest));
    ShapeOfPrefixed(block, rest);
    RemainingLength(devices, size, padding, chosen);
    MultipleMinus(|devices|, size, |Outside(devices, block)|);
    AddBlockFits(devices, size, chosen, rest);
  }

  lemma AddBlockFits(devices: seq<int>, size: nat, chosen: seq<int>, rest: Partition)
    requires exists padding :: Level(devices, size, padding)
    requires 2 <= size <= |devices| && chosen in Sets(devices[1..], size - 1)
    requires BlocksFit(rest, Outside(devices, Block(devices, chosen)), size)
    ensures BlocksFit([Block(devices, chosen)] + rest, devices, size)
  {
    LayoutIsUnique(devices, RealPart(devices), CountPadding(devices));
    ChosenBlock(devices, size, chosen);
    OutsideElements(devices, Block(devices, chosen));
  }

  lemma {:induction false} PartitionsAreSound(devices: seq<int>, size: nat, padding: nat, p: Partition)
    requires Level(devices, size, padding) && p in Partitions(devices, size, padding)
    ensures Sound(p, devices, size)
    decreases |devices|
  {
    if |devices| == size {
      WholeIsSound(devices, size, padding);
    } else {
      var sets := Sets(devices[1..], size - 1);
      BranchesMember(devices, size, padding, sets, p);
      var s :| s in sets && p in Branch(devices, size, padding, s);
      var rest := BranchMember(devices, size, padding, s, p);
      RemainingIsLevel(devices, size, padding, s);
      RemainingLength(devices, size, padding, s);
      PartitionsAreSound(Outside(devices, Block(devices, s)), size, padding, rest);
      AddBlockIsSound(devices, size, padding, s, rest);
    }
  }

  lemma WholeIsSound(devices: seq<int>, size: nat, padding: nat)
    requires Level(devices, size, padding) && |devices| == size
    ensures Sound([devices], devices, size)
  {
    LevelSize(devices, size, padding);
    LayoutIsUnique(devices, RealPart(devices), CountPadding(devices));
    OneBlock(Reals(devices), size);
    ShapeOfPrefixed(devices, []);
    assert [devices] + [] == [devices];
    assert BlocksFit([devices], devices, size);
    DivisionIsUnique(size, size, 1, 0);
  }

  lemma OneBlock(D: set<int>, size: nat)
    requires D != {} && |D| <= size
    ensures IsPartition({} + {D}, D, size)
  {
    forall x | x in D ensures Covers({} + {D}, x) { assert D in {} + {D}; }
  }

  // ---------- Selecting by membership ----------

  /** The indices of the elements of s that are in `keep`. */
  ghost function Positions(s: seq<int>, keep: set<int>): (t: seq<nat>)
    ensures Bounded(t, |s|)
  {
    if s == [] then []
    else Positions(s[..|s| - 1], keep) + if s[|s| - 1] in keep then [|s| - 1] else []
  }

  lemma {:induction false} PositionsAreExact(s: seq<int>, keep: set<int>)
    ensures Increasing(Positions(s, keep)) && |Positions(s, keep)| <= |s|
    ensures forall i :: i in Positions(s, keep) <==> 0 <= i < |s| && s[i] in keep
  {
    if s != [] {
      PositionsAreExact(s[..|s| - 1], keep);
    }
  }

  lemma ChosenElements(s: seq<int>, keep: set<int>)
    ensures forall id :: id in Select(s, Positions(s, keep)) <==> id in s && id in keep
  {
    var t := Positions(s, keep);
    PositionsAreExact(s, keep);
    forall id | id in s && id in keep ensures id in Select(s, t) {
      var i :| 0 <= i < |s| && s[i] == id;
      assert i in t;
      var j :| 0 <= j < |t| && t[j] == i;
      assert Select(s, t)[j] == id;
    }
  }

  lemma {:induction false} PaddingKept(s: seq<int>, keep: set<int>)
    ensures CountPadding(Select(s, Positions(s, keep))) == if PADDING in keep then CountPadding(s) else 0
  {
    if s != [] {
      var n := |s| - 1;
      var front := s[..n];
      assert s == front + [s[n]];
      PaddingKept(front, keep);
      CountAppend(front, s[n]);
      CountAppend(Select(front, Positions(front, keep)), s[n]);
      assert Select(s, Positions(s, keep))
          == Select(front, Positions(front, keep)) + if s[n] in keep then [s[n]] else [];
    }
  }

  lemma CountAppend(s: seq<int>, x: int)
    ensures CountPadding(s + [x]) == CountPadding(s) + if x == PADDING then 1 else 0
  {
  }

  lemma SelectTaken(s: seq<int>, t: seq<nat>)
    requires s != [] && Increasing(t) && Bounded(t, |s|) && |s| - 1 in t
    ensures t[|t| - 1] == |s| - 1 && Bounded(t[..|t| - 1], |s| - 1)
    ensures CountPadding(Select(s, t))
         == CountPadding(Select(s[..|s| - 1], t[..|t| - 1])) + if s[|s| - 1] == PADDING then 1 else 0
  {
    var n := |s| - 1;
    var j :| 0 <= j < |t| && t[j] == n;
    var last := t[|t| - 1];
    var chosen := Select(s[..n], t[..j]);
    assert Select(s, t) == chosen + [s[n]];
    CountAppend(chosen, s[n]);
  }

  /** Splitting off the last element of s and, if it is selected, the last index of t. */
  lemma SelectFront(s: seq<int>, t: seq<nat>) returns (front: seq<int>, t': seq<nat>)
    requires s != [] && Increasing(t) && Bounded(t, |s|)
    ensures front == s[..|s| - 1] && Increasing(t') && Bounded(t', |front|)
    ensures t == if |s| - 1 in t then t' + [|s| - 1] else t'
    ensures CountPadding(s) == CountPadding(front) + if s[|s| - 1] == PADDING then 1 else 0
    ensures CountPadding(Select(s, t))
         == CountPadding(Select(front, t')) + if |s| - 1 in t && s[|s| - 1] == PADDING then 1 else 0
  {
    var n := |s| - 1;
    front := s[..n];
    assert s == front + [s[n]];
    CountAppend(front, s[n]);
    if n in t {
      SelectTaken(s, t);
      t' := t[..|t| - 1];
    } else {
      t' := t;
      assert Select(s, t) == Select(front, t);
    }
  }

  lemma {:induction false} PaddingAtMost(s: seq<int>, t: seq<nat>)
    requires Increasing(t) && Bounded(t, |s|)
    ensures CountPadding(Select(s, t)) <= CountPadding(s)
  {
    if s != [] {
      var front, t' := SelectFront(s, t);
      PaddingAtMost(front, t');
    }
  }

  /** An increasing tuple that misses a padding selects less padding than there is. */
  lemma {:induction false} PaddingMissed(s: seq<int>, t: seq<nat>, i: nat)
    requires Increasing(t) && Bounded(t, |s|) && i < |s| && s[i] == PADDING && i !in t
    ensures CountPadding(Select(s, t)) < CountPadding(s)
    decreases |s|
  {
    var front, t' := SelectFront(s, t);
    if i < |front| {
      PaddingMissed(front, t', i);
    } else {
      PaddingAtMost(front, t');
    }
  }

  // ---------- Completeness ----------

  /** The first device together with the other members of its block B, and all padding if B is short. */
  lemma ChooseBlock(devices: seq<int>, size: nat, padding: nat, B: set<int>) returns (chosen: seq<int>)
    requires 2 <= size && NoRepeat(devices) && PaddingTogether(devices, padding)
    requires devices != [] && devices[0] in B && B <= Reals(devices)
    requires |B| == size || (|B| < size && |B| == size - CountPadding(devices))
    ensures chosen in Sets(devices[1..], size - 1)
    ensures Reals(Block(devices, chosen)) == B && PaddingTogether(Block(devices, chosen), padding)
  {
    var tail, d := devices[1..], devices[0];
    assert PADDING !in B by { assert PADDING !in Reals(devices); }
    var keep := if |B| < size then B - {d} + {PADDING} else B - {d};
    chosen := KeptBlock(devices, B, keep);
    SelectionIsEmitted(tail, size - 1, keep);
  }

  /** The block that keeps B, with all padding or none. */
  lemma KeptBlock(devices: seq<int>, B: set<int>, keep: set<int>) returns (chosen: seq<int>)
    requires devices != [] && NoRepeat(devices) && devices[0] in B && B <= Reals(devices)
    requires keep - {PADDING} == B - {devices[0]}
    ensures chosen == Select(devices[1..], Positions(devices[1..], keep))
    ensures Reals(Block(devices, chosen)) == B
    ensures CountPadding(Block(devices, chosen)) == if PADDING in keep then CountPadding(devices) else 0
    ensures |Positions(devices[1..], keep)| + 1 == |B| + CountPadding(Block(devices, chosen))
  {
    assert devices[0] != PADDING by { assert devices[0] in Reals(devices); }
    chosen := Select(devices[1..], Positions(devices[1..], keep));
    BlockByMembership(devices, B, keep);
    BlockPadding(devices, keep);
    BlockSize(Block(devices, chosen));
  }

  lemma BlockPadding(devices: seq<int>, keep: set<int>)
    requires devices != [] && devices[0] != PADDING
    ensures CountPadding(Block(devices, Select(devices[1..], Positions(devices[1..], keep))))
         == if PADDING in keep then CountPadding(devices) else 0
  {
    var tail, d := devices[1..], devices[0];
    PaddingKept(tail, keep);
    assert devices == [d] + tail;
    CountPrepend(d, tail);
    CountPrepend(d, Select(tail, Positions(tail, keep)));
  }

  lemma CountPrepend(x: int, s: seq<int>)
    ensures CountPadding([x] + s) == CountPadding(s) + if x == PADDING then 1 else 0
  {
  }

  lemma BlockByMembership(devices: seq<int>, B: set<int>, keep: set<int>)
    requires devices != [] && NoRepeat(devices) && devices[0] in B && B <= Reals(devices)
    requires keep - {PADDING} == B - {devices[0]}
    ensures NoRepeat(Block(devices, Select(devices[1..], Positions(devices[1..], keep))))
    ensures Reals(Block(devices, Select(devices[1..], Positions(devices[1..], keep)))) == B
  {
    var tail := devices[1..];
    PositionsAreExact(tail, keep);
    SelectionHasNoRepeat(devices, Positions(tail, keep));
    ChosenElements(tail, keep);
    assert devices == [devices[0]] + tail;
    var block := Block(devices, Select(tail, Positions(tail, keep)));
    forall id ensures id in Reals(block) <==> id in B {
      assert id in B ==> id in Reals(devices);
      assert id in keep - {PADDING} <==> id in B - {devices[0]};
    }
  }

  lemma SelectionIsEmitted(tail: seq<int>, size: nat, keep: set<int>)
    requires size > 0 && |Positions(tail, keep)| == size
    ensures Select(tail, Positions(tail, keep)) in Sets(tail, size)
  {
    var t := Positions(tail, keep);
    PositionsAreExact(tail, keep);
    TuplesAreExact(|tail|, size);
    assert t in Tuples(|tail|, size);
    var i :| 0 <= i < |Tuples(|tail|, size)| && Tuples(|tail|, size)[i] == t;
    assert Sets(tail, size)[i] == Select(tail, t);
  }

  lemma BlockSizeInPartition(devices: seq<int>, size: nat, padding: nat, P: set<set<int>>, B: set<int>)
    requires Level(devices, size, padding) && IsPartition(P, Reals(devices), size) && B in P
    ensures |B| == size || (|B| < size && |B| == size - CountPadding(devices))
  {
    if |B| < size {
      ShortBlock(P, Reals(devices), size, B);
      LevelSize(devices, size, padding);
    }
  }

  lemma OnlyOneBlock(P: set<set<int>>, D: set<int>, size: nat, x: int)
    requires IsPartition(P, D, size) && x in D && |D| <= size
    requires forall B :: B in P ==> |B| == size || |B| == |D|
    ensures P == {D}
  {
    assert Covers(P, x);
    forall B | B in P ensures B == D {
      SubsetOfSameSize(B, D);
    }
  }

  lemma SubsetOfSameSize(B: set<int>, D: set<int>)
    requires B <= D && |B| >= |D|
    ensures B == D
  {
    assert |D| == |B| + |D - B|;
  }

  lemma CompleteLast(devices: seq<int>, size: nat, padding: nat, P: set<set<int>>)
    requires Level(devices, size, padding) && IsPartition(P, Reals(devices), size) && |devices| == size
    ensures Shape([devices]) == P
  {
    LevelSize(devices, size, padding);
    forall B | B in P ensures |B| == size || |B| == |Reals(devices)| {
      BlockSizeInPartition(devices, size, padding, P, B);
    }
    OnlyOneBlock(P, Reals(devices), size, devices[0]);
    ShapeOfPrefixed(devices, []);
    assert [devices] == [devices] + [];
  }

  /** The emitted set that yields the block of the first device. */
  lemma CompleteFirst(devices: seq<int>, size: nat, padding: nat, P: set<set<int>>) returns (chosen: seq<int>)
    requires Level(devices, size, padding) && IsPartition(P, Reals(devices), size) && size < |devices|
    ensures chosen in Sets(devices[1..], size - 1) && PaddingTogether(Block(devices, chosen), padding)
    ensures Reals(Block(devices, chosen)) in P
  {
    LevelSize(devices, size, padding);
    assert Covers(P, devices[0]);
    var B :| B in P && devices[0] in B;
    BlockSizeInPartition(devices, size, padding, P, B);
    LayoutIsUnique(devices, RealPart(devices), CountPadding(devices));
    chosen := ChooseBlock(devices, size, padding, B);
  }

  lemma CompleteRest(devices: seq<int>, size: nat, padding: nat, P: set<set<int>>, chosen: seq<int>)
    requires Level(devices, size, padding) && IsPartition(P, Reals(devices), size) && size < |devices|
    requires chosen in Sets(devices[1..], size - 1) && PaddingTogether(Block(devices, chosen), padding)
    requires Reals(Block(devices, chosen)) in P
    ensures var remaining := Outside(devices, Block(devices, chosen));
            && |remaining| < |devices| && Level(remaining, size, padding)
            && IsPartition(P - {Reals(Block(devices, chosen))}, Reals(remaining), size)
  {
    TakeOff(P, Reals(devices), size, Reals(Block(devices, chosen)));
    RemainingSize(devices, size, padding, chosen);
    RemainingIsLevel(devices, size, padding, chosen);
    RemainingLength(devices, size, padding, chosen);
  }

  /** Every partition of the ids is among the candidates. */
  lemma {:induction false} PartitionsAreComplete(devices: seq<int>, size: nat, padding: nat, P: set<set<int>>)
    returns (p: Partition)
    requires Level(devices, size, padding) && IsPartition(P, Reals(devices), size)
    ensures p in Partitions(devices, size, padding) && Shape(p) == P
    decreases |devices|
  {
    if |devices| == size {
      p := [devices];
      CompleteLast(devices, size, padding, P);
    } else {
      var chosen := CompleteFirst(devices, size, padding, P);
      var block := Block(devices, chosen);
      CompleteRest(devices, size, padding, P, chosen);
      var rest := PartitionsAreComplete(Outside(devices, block), size, padding, P - {Reals(block)});
      p := [block] + rest;
      ShapeCompleted(block, rest, P);
      PartitionsHave(devices, size, padding, chosen, rest);
    }
  }

  lemma ShapeCompleted(block: seq<int>, rest: Partition, P: set<set<int>>)
    requires Reals(block) in P && Shape(rest) == P - {Reals(block)}
    ensures Shape([block] + rest) == P
  {
    ShapeOfPrefixed(block, rest);
  }

  lemma PartitionsHave(devices: seq<int>, size: nat, padding: nat, chosen: seq<int>, rest: Partition)
    requires 2 <= size < |devices|
    requires chosen in Sets(devices[1..], size - 1) && PaddingTogether(Block(devices, chosen), padding)
    requires rest in Partitions(Outside(devices, Block(devices, chosen)), size, padding)
    ensures [Block(devices, chosen)] + rest in Partitions(devices, size, padding)
  {
    BranchHas(devices, size, padding, chosen, rest);
    BranchesHave(devices, size, padding, Sets(devices[1..], size - 1), chosen, [Block(devices, chosen)] + rest);
  }

  lemma BranchHas(devices: seq<int>, size: nat, padding: nat, chosen: seq<int>, rest: Partition)
    requires devices != [] && PaddingTogether(Block(devices, chosen), padding)
    requires rest in Partitions(Outside(devices, Block(devices, chosen)), size, padding)
    ensures [Block(devices, chosen)] + rest in Branch(devices, size, padding, chosen)
  {
    var block := Block(devices, chosen);
    var ps := Partitions(Outside(devices, block), size, padding);
    var i :| 0 <= i < |ps| && ps[i] == rest;
    assert Prefixed([block], ps)[i] == [block] + rest;
  }

  lemma {:induction false} BranchesHave(
      devices: seq<int>, size: nat, padding: nat, sets: seq<seq<int>>, s: seq<int>, p: Partition)
    requires devices != [] && s in sets && p in Branch(devices, size, padding, s)
    ensures p in Branches(devices, size, padding, sets)
  {
    var front, last := sets[..|sets| - 1], sets[|sets| - 1];
    if s != last {
      assert sets == front + [last];
      BranchesHave(devices, size, padding, front, s, p);
    }
  }

  // ---------- No candidate twice ----------

  lemma FirstIsElement(s: seq<nat>)
    ensures s == [] || s[0] in s
  {
  }

  lemma GreatestIsLast(s: seq<nat>, m: nat)
    requires Increasing(s) && |s| == m + 1
    ensures s[m] in s && forall x :: x in s ==> x <= s[m]
  {
  }

  lemma WithoutLast(s: seq<nat>, m: nat, x: nat)
    requires Increasing(s) && |s| == m + 1
    ensures x in s[..m] <==> x in s && x != s[m]
  {
    assert s == s[..m] + [s[m]];
  }

  lemma {:induction false} IncreasingIsDetermined(a: seq<nat>, b: seq<nat>)
    requires Increasing(a) && Increasing(b) && forall x :: x in a <==> x in b
    ensures a == b
  {
    FirstIsElement(a);
    FirstIsElement(b);
    if a != [] {
      var m, n := |a| - 1, |b| - 1;
      GreatestIsLast(a, m);
      GreatestIsLast(b, n);
      forall x: nat ensures x in a[..m] <==> x in b[..n] {
        WithoutLast(a, m, x);
        WithoutLast(b, n, x);
      }
      IncreasingIsDetermined(a[..m], b[..n]);
      assert a == a[..m] + [a[m]] && b == b[..n] + [b[n]];
    }
  }

  /** With padding kept together, a tuple is determined by the values it selects. */
  lemma TupleByValues(s: seq<int>, t: seq<nat>)
    requires NoRepeat(s) && Increasing(t) && Bounded(t, |s|)
    requires CountPadding(Select(s, t)) == 0 || CountPadding(Select(s, t)) == CountPadding(s)
    ensures forall i :: 0 <= i < |s| ==> (i in t <==> s[i] in Select(s, t))
  {
    var chosen := Select(s, t);
    forall i | 0 <= i < |s| ensures i in t <==> s[i] in chosen {
      if i in t {
        var j :| 0 <= j < |t| && t[j] == i;
        assert chosen[j] == s[i];
      } else if s[i] in chosen {
        var j :| 0 <= j < |chosen| && chosen[j] == s[i];
        assert s[t[j]] == s[i] && t[j] != i;
        PaddingMissed(s, t, i);
      }
    }
  }

  /** Two sets emitted at different moments that keep padding together give different first blocks. */
  lemma BlocksDiffer(devices: seq<int>, size: nat, padding: nat, i: nat, j: nat)
    requires Level(devices, size, padding) && size < |devices|
    requires i < j < |Sets(devices[1..], size - 1)|
    requires PaddingTogether(Block(devices, Sets(devices[1..], size - 1)[i]), padding)
    requires PaddingTogether(Block(devices, Sets(devices[1..], size - 1)[j]), padding)
    ensures Reals(Block(devices, Sets(devices[1..], size - 1)[i]))
         != Reals(Block(devices, Sets(devices[1..], size - 1)[j]))
  {
    var t, u := TuplesOfSets(devices[1..], size - 1, i, j);
    if Reals(Block(devices, Select(devices[1..], t))) == Reals(Block(devices, Select(devices[1..], u))) {
      SameBlockSameTuple(devices, size, padding, t, u);
    }
  }

  lemma TuplesOfSets(tail: seq<int>, size: nat, i: nat, j: nat) returns (t: seq<nat>, u: seq<nat>)
    requires 1 <= size <= |tail| && i < j < |Sets(tail, size)|
    ensures t != u && |t| == |u| == size && Increasing(t) && Increasing(u) && Bounded(t, |tail|) && Bounded(u, |tail|)
    ensures Sets(tail, size)[i] == Select(tail, t) && Sets(tail, size)[j] == Select(tail, u)
  {
    var ts := Tuples(|tail|, size);
    SetsAreExact(tail, size);
    t, u := ts[i], ts[j];
  }

  /** The selecting tuple, read back from the block. */
  lemma TupleOfBlock(devices: seq<int>, size: nat, padding: nat, t: seq<nat>)
    requires Level(devices, size, padding) && size < |devices|
    requires |t| == size - 1 && Increasing(t) && Bounded(t, |devices| - 1)
    requires PaddingTogether(Block(devices, Select(devices[1..], t)), padding)
    ensures var block := Block(devices, Select(devices[1..], t));
            && CountPadding(block) + |Reals(block)| == size
            && forall x :: x in t <==> 0 <= x < |devices| - 1 && devices[x + 1] in block
  {
    LayoutIsUnique(devices, RealPart(devices), CountPadding(devices));
    SelectionHasNoRepeat(devices, t);
    BlockSize(Block(devices, Select(devices[1..], t)));
    TupleByMembers(devices, t, padding);
  }

  lemma TupleByMembers(devices: seq<int>, t: seq<nat>, padding: nat)
    requires devices != [] && NoRepeat(devices) && devices[0] != PADDING && PaddingTogether(devices, padding)
    requires Increasing(t) && Bounded(t, |devices| - 1)
    requires PaddingTogether(Block(devices, Select(devices[1..], t)), padding)
    ensures forall x :: x in t <==> 0 <= x < |devices| - 1 && devices[x + 1] in Block(devices, Select(devices[1..], t))
  {
    var tail := devices[1..];
    var chosen := Select(tail, t);
    assert devices == [devices[0]] + tail;
    CountPrepend(devices[0], tail);
    CountPrepend(devices[0], chosen);
    PaddingAtMost(tail, t);
    TupleByValues(tail, t);
    forall x ensures x in t <==> 0 <= x < |tail| && devices[x + 1] in Block(devices, chosen) {
      if 0 <= x < |tail| {
        assert tail[x] == devices[x + 1] != devices[0];
      }
    }
  }

  lemma SameBlockSameTuple(devices: seq<int>, size: nat, padding: nat, t: seq<nat>, u: seq<nat>)
    requires Level(devices, size, padding) && size < |devices|
    requires |t| == |u| == size - 1 && Increasing(t) && Increasing(u)
    requires Bounded(t, |devices| - 1) && Bounded(u, |devices| - 1)
    requires PaddingTogether(Block(devices, Select(devices[1..], t)), padding)
    requires PaddingTogether(Block(devices, Select(devices[1..], u)), padding)
    requires Reals(Block(devices, Select(devices[1..], t))) == Reals(Block(devices, Select(devices[1..], u)))
    ensures t == u
  {
    var b, c := Block(devices, Select(devices[1..], t)), Block(devices, Select(devices[1..], u));
    TupleOfBlock(devices, size, padding, t);
    TupleOfBlock(devices, size, padding, u);
    assert PADDING in b <==> PADDING in c;
    forall id ensures id in b <==> id in c {
      assert id in Reals(b) <==> id in Reals(c);
    }
    IncreasingIsDetermined(t, u);
  }

  lemma BranchesDiffer(devices: seq<int>, size: nat, padding: nat, i: nat, j: nat, p: Partition, q: Partition)
    requires Level(devices, size, padding) && size < |devices|
    requires i < j < |Sets(devices[1..], size - 1)|
    requires p in Branch(devices, size, padding, Sets(devices[1..], size - 1)[i])
    requires q in Branch(devices, size, padding, Sets(devices[1..], size - 1)[j])
    ensures Shape(p) != Shape(q)
  {
    var sets := Sets(devices[1..], size - 1);
    var p' := BranchMember(devices, size, padding, sets[i], p);
    var q' := BranchMember(devices, size, padding, sets[j], q);
    assert sets[i] in sets && sets[j] in sets;
    BranchIsSound(devices, size, padding, sets[i], p);
    var b, c := Block(devices, sets[i]), Block(devices, sets[j]);
    BlocksDiffer(devices, size, padding, i, j);
    ShapeOfPrefixed(b, p');
    ShapeOfPrefixed(c, q');
    LevelSize(devices, size, padding);
    assert devices[0] in Reals(b) && devices[0] in Reals(c);
    assert Reals(b) in Shape(p) && Reals(c) in Shape(q);
  }

  lemma BranchIsSound(devices: seq<int>, size: nat, padding: nat, chosen: seq<int>, p: Partition)
    requires Level(devices, size, padding) && size < |devices|
    requires chosen in Sets(devices[1..], size - 1) && p in Branch(devices, size, padding, chosen)
    ensures Sound(p, devices, size)
  {
    BranchesHave(devices, size, padding, Sets(devices[1..], size - 1), chosen, p);
    PartitionsAreSound(devices, size, padding, p);
  }

  lemma DistinctConcat(a: seq<Partition>, b: seq<Partition>)
    requires DistinctShapes(a) && DistinctShapes(b)
    requires forall p, q :: p in a && q in b ==> Shape(p) != Shape(q)
    ensures DistinctShapes(a + b)
  {
    var c := a + b;
    forall i, j | 0 <= i < j < |c| ensures Shape(c[i]) != Shape(c[j]) {
      if j < |a| {
        assert c[i] == a[i] && c[j] == a[j];
      } else if i < |a| {
        assert c[i] in a && c[j] in b;
      } else {
        assert c[i] == b[i - |a|] && c[j] == b[j - |a|];
      }
    }
  }

  lemma DistinctPrefixed(block: seq<int>, ps: seq<Partition>)
    requires DistinctShapes(ps) && forall p :: p in ps ==> Reals(block) !in Shape(p)
    ensures DistinctShapes(Prefixed([block], ps))
  {
    var qs := Prefixed([block], ps);
    forall i, j | 0 <= i < j < |qs| ensures Shape(qs[i]) != Shape(qs[j]) {
      ShapeOfPrefixed(block, ps[i]);
      ShapeOfPrefixed(block, ps[j]);
      assert ps[i] in ps && ps[j] in ps;
      assert Shape(qs[i]) - {Reals(block)} == Shape(ps[i]);
      assert Shape(qs[j]) - {Reals(block)} == Shape(ps[j]);
    }
  }

  /** No two candidates are the same partition. */
  lemma {:induction false} PartitionsAreDistinct(devices: seq<int>, size: nat, padding: nat)
    requires Level(devices, size, padding)
    ensures DistinctShapes(Partitions(devices, size, padding))
    decreases |devices|, 1, 0
  {
    if size < |devices| {
      BranchesAreDistinct(devices, size, padding, |Sets(devices[1..], size - 1)|);
      var sets := Sets(devices[1..], size - 1);
      assert sets[..|sets|] == sets;
    }
  }

  lemma {:induction false} BranchesAreDistinct(devices: seq<int>, size: nat, padding: nat, n: nat)
    requires Level(devices, size, padding) && size < |devices| && n <= |Sets(devices[1..], size - 1)|
    ensures DistinctShapes(Branches(devices, size, padding, Sets(devices[1..], size - 1)[..n]))
    decreases |devices|, 0, n
  {
    if n > 0 {
      var sets, m := Sets(devices[1..], size - 1), n - 1;
      assert sets[..n][..m] == sets[..m] && sets[..n][m] == sets[m];
      BranchesAreDistinct(devices, size, padding, m);
      BranchIsDistinct(devices, size, padding, sets[m]);
      LastBranchDiffers(devices, size, padding, m);
      DistinctConcat(Branches(devices, size, padding, sets[..m]), Branch(devices, size, padding, sets[m]));
    }
  }

  lemma LastBranchDiffers(devices: seq<int>, size: nat, padding: nat, m: nat)
    requires Level(devices, size, padding) && size < |devices| && m < |Sets(devices[1..], size - 1)|
    ensures var sets := Sets(devices[1..], size - 1);
            forall p, q ::
              p in Branches(devices, size, padding, sets[..m]) && q in Branch(devices, size, padding, sets[m])
              ==> Shape(p) != Shape(q)
  {
    var sets := Sets(devices[1..], size - 1);
    forall p, q | p in Branches(devices, size, padding, sets[..m]) && q in Branch(devices, size, padding, sets[m])
      ensures Shape(p) != Shape(q)
    {
      BranchesMember(devices, size, padding, sets[..m], p);
      var s :| s in sets[..m] && p in Branch(devices, size, padding, s);
      var i :| 0 <= i < m && sets[i] == s;
      BranchesDiffer(devices, size, padding, i, m, p, q);
    }
  }

  lemma {:induction false} BranchIsDistinct(devices: seq<int>, size: nat, padding: nat, chosen: seq<int>)
    requires Level(devices, size, padding) && size < |devices| && chosen in Sets(devices[1..], size - 1)
    ensures DistinctShapes(Branch(devices, size, padding, chosen))
    decreases |devices|, 0, 0
  {
    var block := Block(devices, chosen);
    if PaddingTogether(block, padding) {
      var remaining := Outside(devices, block);
      RemainingIsLevel(devices, size, padding, chosen);
      RemainingLength(devices, size, padding, chosen);
      PartitionsAreDistinct(remaining, size, padding);
      forall p | p in Partitions(remaining, size, padding) ensures Reals(block) !in Shape(p) {
        PartitionsAreSound(remaining, size, padding, p);
        AddBlock(devices, size, padding, chosen, Shape(p));
      }
      DistinctPrefixed(block, Partitions(remaining, size, padding));
    }
  }

  // ---------- The enumeration as a whole ----------

  /** For distinct devices and 2 <= size <= n the candidates are exactly the partitions of the
      devices into blocks of `size` with at most one short block, each of them once. */
  lemma CandidatesAreExact(devices: seq<int>, size: nat)
    requires DeviceIds(devices) && 2 <= size <= |devices|
    ensures forall p :: p in Candidates(devices, size) ==> Sound(p, Padded(devices, size), size)
    ensures forall P :: IsPartition(P, Reals(devices), size) ==>
      exists p :: p in Candidates(devices, size) && Shape(p) == P
    ensures DistinctShapes(Candidates(devices, size))
  {
    var padded, k := Padded(devices, size), PadCount(|devices|, size);
    PaddedIsLevel(devices, size);
    LayoutIsUnique(padded, devices, k);
    forall p | p in Candidates(devices, size) ensures Sound(p, padded, size) {
      PartitionsAreSound(padded, size, k, p);
    }
    forall P | IsPartition(P, Reals(devices), size)
      ensures exists p :: p in Candidates(devices, size) && Shape(p) == P
    {
      var p := PartitionsAreComplete(padded, size, k, P);
    }
    PartitionsAreDistinct(padded, size, k);
  }
}

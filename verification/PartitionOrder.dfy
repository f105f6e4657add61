/** The order in which the enumerator lists the partitions, which decides between equal scores. */
module PartitionOrder {
  import opened Arithmetic
  import opened GpuSets
  import opened GpuPartitions
  import opened PartitionTheory

  /** The block lists the devices at these increasing positions, the first device among them. */
  ghost predicate AtPositions(devices: seq<int>, block: seq<int>, t: seq<nat>) {
    Increasing(t) && Bounded(t, |devices|) && t != [] && t[0] == 0 && block == Select(devices, t)
  }

  /** The positions of the one block come before those of the other. */
  ghost predicate BlockBefore(devices: seq<int>, b: seq<int>, c: seq<int>) {
    exists t, u :: AtPositions(devices, b, t) && AtPositions(devices, c, u) && LexBefore(t, u)
  }

  /** At the first block that differs, among the devices that are left there, p comes before q. */
  ghost predicate Precedes(devices: seq<int>, p: Partition, q: Partition)
    decreases |p|
  {
    && p != [] && q != []
    && if p[0] == q[0] then Precedes(Outside(devices, p[0]), p[1..], q[1..]) else BlockBefore(devices, p[0], q[0])
  }

  ghost predicate InOrder(devices: seq<int>, ps: seq<Partition>) {
    forall i, j :: 0 <= i < j < |ps| ==> Precedes(devices, ps[i], ps[j])
  }

  // ---------- Positions with the first device ----------

  function WithFirst(t: seq<nat>): seq<nat> {
    [0] + seq(|t|, i requires 0 <= i < |t| => t[i] + 1)
  }

  lemma PositionsOfBlock(devices: seq<int>, t: seq<nat>)
    requires devices != [] && Increasing(t) && Bounded(t, |devices| - 1)
    ensures AtPositions(devices, Block(devices, Select(devices[1..], t)), WithFirst(t))
  {
    var u := WithFirst(t);
    forall i | 0 <= i < |u| ensures u[i] < |devices| && Block(devices, Select(devices[1..], t))[i] == devices[u[i]] {
      if i > 0 { assert u[i] == t[i - 1] + 1; }
    }
    assert Block(devices, Select(devices[1..], t)) == Select(devices, u);
  }

  lemma FirstKeepsOrder(t: seq<nat>, u: seq<nat>)
    requires LexBefore(t, u)
    ensures LexBefore(WithFirst(t), WithFirst(u))
  {
    var k: nat :| LexBeforeAt(t, u, k);
    var a, b := WithFirst(t), WithFirst(u);
    forall i | 0 <= i < k + 1 ensures a[i] == b[i] {
      if i > 0 { assert t[..k][i - 1] == u[..k][i - 1]; }
    }
    assert a[..k + 1] == b[..k + 1];
    assert LexBeforeAt(a, b, k + 1);
  }

  lemma SetsInOrder(tail: seq<int>, size: nat, i: nat, j: nat) returns (t: seq<nat>, u: seq<nat>)
    requires 1 <= size <= |tail| && i < j < |Sets(tail, size)|
    ensures Increasing(t) && Increasing(u) && Bounded(t, |tail|) && Bounded(u, |tail|) && LexBefore(t, u)
    ensures Sets(tail, size)[i] == Select(tail, t) && Sets(tail, size)[j] == Select(tail, u)
  {
    var ts := Tuples(|tail|, size);
    TuplesAreExact(|tail|, size);
    t, u := ts[i], ts[j];
    assert t in ts && u in ts;
  }

  /** The blocks of sets emitted one after the other. */
  lemma BlocksInOrder(devices: seq<int>, size: nat, i: nat, j: nat)
    requires 2 <= size <= |devices| && i < j < |Sets(devices[1..], size - 1)|
    ensures var sets := Sets(devices[1..], size - 1);
            BlockBefore(devices, Block(devices, sets[i]), Block(devices, sets[j]))
  {
    var t, u := SetsInOrder(devices[1..], size - 1, i, j);
    PositionsOfBlock(devices, t);
    PositionsOfBlock(devices, u);
    FirstKeepsOrder(t, u);
  }

  // ---------- The whole list ----------

  lemma ConcatInOrder(devices: seq<int>, a: seq<Partition>, b: seq<Partition>)
    requires InOrder(devices, a) && InOrder(devices, b)
    requires forall p, q :: p in a && q in b ==> Precedes(devices, p, q)
    ensures InOrder(devices, a + b)
  {
    var c := a + b;
    forall i, j | 0 <= i < j < |c| ensures Precedes(devices, c[i], c[j]) {
      if j < |a| {
        assert c[i] == a[i] && c[j] == a[j];
      } else if i < |a| {
        assert c[i] in a && c[j] in b;
      } else {
        assert c[i] == b[i - |a|] && c[j] == b[j - |a|];
      }
    }
  }

  lemma PrefixedInOrder(devices: seq<int>, block: seq<int>, ps: seq<Partition>)
    requires InOrder(Outside(devices, block), ps)
    ensures InOrder(devices, Prefixed([block], ps))
  {
    var qs := Prefixed([block], ps);
    forall i, j | 0 <= i < j < |qs| ensures Precedes(devices, qs[i], qs[j]) {
      assert qs[i][0] == block && qs[j][0] == block && qs[i][1..] == ps[i] && qs[j][1..] == ps[j];
    }
  }

  lemma {:induction false} PartitionsInOrder(devices: seq<int>, size: nat, padding: nat)
    requires Level(devices, size, padding)
    ensures InOrder(devices, Partitions(devices, size, padding))
    decreases |devices|, 1, 0
  {
    if size < |devices| {
      var sets := Sets(devices[1..], size - 1);
      BranchesInOrder(devices, size, padding, |sets|);
      assert sets[..|sets|] == sets;
    }
  }

  lemma {:induction false} BranchesInOrder(devices: seq<int>, size: nat, padding: nat, n: nat)
    requires Level(devices, size, padding) && size < |devices| && n <= |Sets(devices[1..], size - 1)|
    ensures InOrder(devices, Branches(devices, size, padding, Sets(devices[1..], size - 1)[..n]))
    decreases |devices|, 0, n
  {
    if n > 0 {
      var sets, m := Sets(devices[1..], size - 1), n - 1;
      assert sets[..n][..m] == sets[..m] && sets[..n][m] == sets[m];
      BranchesInOrder(devices, size, padding, m);
      BranchInOrder(devices, size, padding, sets[m]);
      LastBranchFollows(devices, size, padding, m);
      ConcatInOrder(devices, Branches(devices, size, padding, sets[..m]), Branch(devices, size, padding, sets[m]));
    }
  }

  lemma {:induction false} BranchInOrder(devices: seq<int>, size: nat, padding: nat, chosen: seq<int>)
    requires Level(devices, size, padding) && size < |devices| && chosen in Sets(devices[1..], size - 1)
    ensures InOrder(devices, Branch(devices, size, padding, chosen))
    decreases |devices|, 0, 0
  {
    var block := Block(devices, chosen);
    if PaddingTogether(block, padding) {
      var remaining := Outside(devices, block);
      RemainingIsLevel(devices, size, padding, chosen);
      RemainingLength(devices, size, padding, chosen);
      PartitionsInOrder(remaining, size, padding);
      PrefixedInOrder(devices, block, Partitions(remaining, size, padding));
    }
  }

  lemma LastBranchFollows(devices: seq<int>, size: nat, padding: nat, m: nat)
    requires Level(devices, size, padding) && size < |devices| && m < |Sets(devices[1..], size - 1)|
    ensures var sets := Sets(devices[1..], size - 1);
            forall p, q ::
              p in Branches(devices, size, padding, sets[..m]) && q in Branch(devices, size, padding, sets[m])
              ==> Precedes(devices, p, q)
  {
    var sets := Sets(devices[1..], size - 1);
    forall p, q | p in Branches(devices, size, padding, sets[..m]) && q in Branch(devices, size, padding, sets[m])
      ensures Precedes(devices, p, q)
    {
      BranchesMember(devices, size, padding, sets[..m], p);
      var s :| s in sets[..m] && p in Branch(devices, size, padding, s);
      var i :| 0 <= i < m && sets[i] == s;
      BranchFollows(devices, size, padding, i, m, p, q);
    }
  }

  lemma BranchFollows(devices: seq<int>, size: nat, padding: nat, i: nat, j: nat, p: Partition, q: Partition)
    requires Level(devices, size, padding) && size < |devices|
    requires i < j < |Sets(devices[1..], size - 1)|
    requires p in Branch(devices, size, padding, Sets(devices[1..], size - 1)[i])
    requires q in Branch(devices, size, padding, Sets(devices[1..], size - 1)[j])
    ensures Precedes(devices, p, q)
  {
    var sets := Sets(devices[1..], size - 1);
    var p' := BranchMember(devices, size, padding, sets[i], p);
    var q' := BranchMember(devices, size, padding, sets[j], q);
    BlocksDiffer(devices, size, padding, i, j);
    BlocksInOrder(devices, size, i, j);
    assert p[0] == Block(devices, sets[i]) && q[0] == Block(devices, sets[j]);
  }

  /** The candidates are listed by the positions of their blocks: where two of them first differ, the block
      with the lexicographically smaller positions among the devices left there comes first. */
  lemma CandidatesInOrder(devices: seq<int>, size: nat)
    requires DeviceIds(devices) && 2 <= size <= |devices|
    ensures InOrder(Padded(devices, size), Candidates(devices, size))
  {
    PaddedIsLevel(devices, size);
    PartitionsInOrder(Padded(devices, size), size, PadCount(|devices|, size));
  }
}

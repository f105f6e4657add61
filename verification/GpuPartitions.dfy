/** The partition enumerator of pkg/policy/besteffort_policy.go: padding, the recursive
    `iterate`, and what the callback receives. */
module GpuPartitions {
  import opened Arithmetic
  import opened GpuSets

  /** Filler id that completes a short block. */
  const PADDING: int := -1

  type Partition = seq<seq<int>>

  // ---------- Vocabulary ----------

  /** A block is a list of ids, some of which may be padding. */
  function Reals(block: seq<int>): set<int> {
    set id | id in block && id != PADDING
  }

  /** A candidate up to the order of blocks and of ids in a block, without the padding. */
  ghost function Shape(p: Partition): set<set<int>> {
    set b | b in p :: Reals(b)
  }

  lemma ShapeOfLast(front: Partition, last: seq<int>)
    ensures Shape(front + [last]) == Shape(front) + {Reals(last)}
  {
    var p := front + [last];
    assert p[|p| - 1] == last && forall b :: b in front ==> b in p;
  }

  function Pads(k: nat): (r: seq<int>) {
    seq(k, _ => PADDING)
  }

  function CountPadding(s: seq<int>): nat {
    multiset(s)[PADDING]
  }

  /** Real ids occur once; padding may repeat. */
  predicate NoRepeat(s: seq<int>) {
    forall i, j :: 0 <= i < j < |s| && s[i] == s[j] ==> s[i] == PADDING
  }

  /** Distinct non-negative ids: what the device map of a node yields. */
  predicate DeviceIds(s: seq<int>) {
    NoRepeat(s) && forall i :: 0 <= i < |s| ==> s[i] >= 0
  }

  // ---------- Specification of the enumeration ----------

  function Padded(devices: seq<int>, size: nat): seq<int>
    requires size > 0
  {
    devices + Pads(PadCount(|devices|, size))
  }

  /** The elements of s that are not in `removed`, in order. */
  function Outside(s: seq<int>, removed: seq<int>): (r: seq<int>)
  {
    if s == [] then []
    else
      var last := s[|s| - 1];
      Outside(s[..|s| - 1], removed) + if last in removed then [] else [last]
  }

  lemma {:induction false} OutsideShrinks(s: seq<int>, removed: seq<int>)
    ensures |Outside(s, removed)| <= |s|
    ensures s != [] && s[0] in removed ==> |Outside(s, removed)| < |s|
  {
    if s != [] {
      OutsideShrinks(s[..|s| - 1], removed);
    }
  }

  function Prefixed(head: Partition, ps: seq<Partition>): seq<Partition> {
    seq(|ps|, i requires 0 <= i < |ps| => head + ps[i])
  }

  function Block(devices: seq<int>, chosen: seq<int>): seq<int>
    requires devices != []
  {
    [devices[0]] + chosen
  }

  /** Padding is kept together: a block takes all of it or none. */
  predicate PaddingTogether(block: seq<int>, padding: nat) {
    CountPadding(block) == 0 || CountPadding(block) == padding
  }

  /** All partitions of `devices` into blocks of `size`, in the order of the recursion. */
  function Partitions(devices: seq<int>, size: nat, padding: nat): seq<Partition>
    decreases |devices|, 1, 0
  {
    if |devices| <= size then [[devices]]
    else Branches(devices, size, padding, Sets(devices[1..], size - 1))
  }

  function Branches(devices: seq<int>, size: nat, padding: nat, sets: seq<seq<int>>): seq<Partition>
    requires devices != []
    decreases |devices|, 0, |sets|
  {
    if sets == [] then []
    else Branches(devices, size, padding, sets[..|sets| - 1]) + Branch(devices, size, padding, sets[|sets| - 1])
  }

  /** The partitions whose first block is the first device with `chosen`. */
  function Branch(devices: seq<int>, size: nat, padding: nat, chosen: seq<int>): seq<Partition>
    requires devices != []
    decreases |devices|, 0, 0
  {
    var block := Block(devices, chosen);
    if !PaddingTogether(block, padding) then []
    else
      OutsideShrinks(devices, block);
      Prefixed([block], Partitions(Outside(devices, block), size, padding))
  }

  /** What `iterateGPUPartitions` passes to its callback, in order. */
  function Candidates(devices: seq<int>, size: int): seq<Partition> {
    if size <= 0 || size > |devices| then []
    else if size == 1 then seq(|devices|, i requires 0 <= i < |devices| => [[devices[i]]])
    else Partitions(Padded(devices, size), size, PadCount(|devices|, size))
  }

  /** For a size of one each device is a partition of its own, in order; no partitions are listed for a
      size that is not positive or too large. */
  lemma SpecialSizes(devices: seq<int>, size: int)
    ensures size < 1 || size > |devices| ==> Candidates(devices, size) == []
    ensures size == 1 <= |devices| ==>
      |Candidates(devices, 1)| == |devices|
      && forall i :: 0 <= i < |devices| ==> Candidates(devices, 1)[i] == [[devices[i]]]
  {
  }

  // ---------- What the recursion keeps ----------

  /** `devices` is the list of real ids r followed by k paddings. */
  ghost predicate Layout(devices: seq<int>, r: seq<int>, k: nat) {
    devices == r + Pads(k) && DeviceIds(r)
  }

  /** The real ids in front of the padding. */
  ghost function RealPart(devices: seq<int>): seq<int> {
    devices[..|devices| - CountPadding(devices)]
  }

  /** Arguments `iterate` is called with: real ids, then all of the padding or none of it. */
  ghost predicate Level(devices: seq<int>, size: nat, padding: nat) {
    && Layout(devices, RealPart(devices), CountPadding(devices))
    && PaddingTogether(devices, padding) && padding < size
    && 2 <= size <= |devices| && Multiple(|devices|, size)
  }

  lemma {:induction false} PadsCount(k: nat)
    ensures CountPadding(Pads(k)) == k
  {
    if k > 0 {
      assert Pads(k) == Pads(k - 1) + [PADDING];
      PadsCount(k - 1);
    }
  }

  lemma LayoutIsUnique(devices: seq<int>, r: seq<int>, k: nat)
    requires Layout(devices, r, k)
    ensures RealPart(devices) == r && CountPadding(devices) == k
    ensures NoRepeat(devices) && (devices != [] && r != [] ==> devices[0] == r[0])
    ensures Reals(devices) == Reals(r)
  {
    PadsCount(k);
    assert CountPadding(r) == 0;
    assert forall id :: id in Pads(k) ==> id == PADDING;
  }

  lemma {:induction false} OutsideConcat(a: seq<int>, b: seq<int>, removed: seq<int>)
    ensures Outside(a + b, removed) == Outside(a, removed) + Outside(b, removed)
  {
    if b == [] {
      assert a + b == a;
    } else {
      assert (a + b)[..|a + b| - 1] == a + b[..|b| - 1];
      OutsideConcat(a, b[..|b| - 1], removed);
    }
  }

  lemma {:induction false} OutsidePads(k: nat, removed: seq<int>)
    ensures Outside(Pads(k), removed) == if PADDING in removed then [] else Pads(k)
  {
    if k > 0 {
      assert Pads(k)[..k - 1] == Pads(k - 1);
      OutsidePads(k - 1, removed);
    }
  }

  lemma {:induction false} OutsideElements(r: seq<int>, removed: seq<int>)
    ensures forall id :: id in Outside(r, removed) <==> id in r && id !in removed
  {
    if r != [] {
      OutsideElements(r[..|r| - 1], removed);
      assert r == r[..|r| - 1] + [r[|r| - 1]];
    }
  }

  lemma {:induction false} OutsideIsDeviceIds(r: seq<int>, removed: seq<int>)
    requires DeviceIds(r)
    ensures DeviceIds(Outside(r, removed))
  {
    if r != [] {
      var front, last := r[..|r| - 1], r[|r| - 1];
      OutsideIsDeviceIds(front, removed);
      OutsideElements(front, removed);
      assert last !in front;
    }
  }

  lemma OutsideIsDifference(r: seq<int>, removed: seq<int>)
    ensures Reals(Outside(r, removed)) == Reals(r) - Reals(removed)
  {
    OutsideElements(r, removed);
  }

  lemma {:induction false} BlockSize(b: seq<int>)
    requires NoRepeat(b)
    ensures |Reals(b)| + CountPadding(b) == |b|
  {
    if b != [] {
      var front, last := b[..|b| - 1], b[|b| - 1];
      assert b == front + [last];
      BlockSize(front);
      if last == PADDING {
        assert Reals(b) == Reals(front);
      } else {
        assert last !in front;
        assert Reals(b) == Reals(front) + {last};
      }
    }
  }

  /** A set emitted over devices[1..] consists of devices[i + 1] for increasing i. */
  lemma SetIsSelection(tail: seq<int>, size: nat, chosen: seq<int>) returns (t: seq<nat>)
    requires chosen in Sets(tail, size) && size > 0
    ensures |t| == size && Increasing(t) && Bounded(t, |tail|) && chosen == Select(tail, t)
  {
    var ts := Tuples(|tail|, size);
    TuplesAreExact(|tail|, size);
    var i :| 0 <= i < |ts| && chosen == Select(tail, ts[i]);
    t := ts[i];
    assert t in ts;
  }

  lemma SelectionHasNoRepeat(devices: seq<int>, t: seq<nat>)
    requires devices != [] && NoRepeat(devices) && Increasing(t) && Bounded(t, |devices| - 1)
    ensures NoRepeat(Block(devices, Select(devices[1..], t)))
  {
    var b := Block(devices, Select(devices[1..], t));
    forall i, j | 0 <= i < j < |b| && b[i] == b[j] ensures b[i] == PADDING {
      assert b[j] == devices[t[j - 1] + 1];
      if i > 0 { assert b[i] == devices[t[i - 1] + 1]; }
    }
  }

  lemma ChosenBlock(devices: seq<int>, size: nat, chosen: seq<int>)
    requires NoRepeat(devices) && 2 <= size <= |devices|
    requires chosen in Sets(devices[1..], size - 1)
    ensures |Block(devices, chosen)| == size && NoRepeat(Block(devices, chosen))
    ensures forall id :: id in Block(devices, chosen) ==> id in devices
  {
    var t := SetIsSelection(devices[1..], size - 1, chosen);
    SelectionHasNoRepeat(devices, t);
    assert forall id :: id in devices[1..] ==> id in devices;
  }

  lemma OutsideLayout(devices: seq<int>, r: seq<int>, k: nat, block: seq<int>)
    requires Layout(devices, r, k)
    ensures CountPadding(devices) == k
    ensures Layout(Outside(devices, block), Outside(r, block), PaddingLeft(devices, block))
  {
    PadsCount(k);
    assert CountPadding(r) == 0;
    OutsideConcat(r, Pads(k), block);
    OutsidePads(k, block);
    OutsideIsDeviceIds(r, block);
  }

  lemma LayoutSize(devices: seq<int>, r: seq<int>, k: nat)
    requires Layout(devices, r, k)
    ensures |Reals(devices)| == |r| && |devices| == |r| + k
  {
    LayoutIsUnique(devices, r, k);
    BlockSize(r);
    PadsCount(0);
    assert CountPadding(r) == 0;
  }

  /** Padding left once `block` is taken off. */
  function PaddingLeft(devices: seq<int>, block: seq<int>): nat {
    if PADDING in block then 0 else CountPadding(devices)
  }

  /** Taking off a block that keeps padding together: exactly `size` devices go, and all padding or none. */
  lemma RemainingSize(devices: seq<int>, size: nat, padding: nat, chosen: seq<int>)
    requires Level(devices, size, padding) && size < |devices|
    requires chosen in Sets(devices[1..], size - 1) && PaddingTogether(Block(devices, chosen), padding)
    ensures var block := Block(devices, chosen);
            && Layout(Outside(devices, block), Outside(RealPart(devices), block), PaddingLeft(devices, block))
            && Reals(Outside(devices, block)) == Reals(devices) - Reals(block)
            && Reals(block) <= Reals(devices)
            && CountPadding(block) + PaddingLeft(devices, block) == CountPadding(devices)
            && |Reals(block)| + CountPadding(block) == size
  {
    var block, r, k := Block(devices, chosen), RealPart(devices), CountPadding(devices);
    LayoutIsUnique(devices, r, k);
    ChosenBlock(devices, size, chosen);
    OutsideLayout(devices, r, k, block);
    OutsideIsDifference(devices, block);
    BlockSize(block);
    assert PADDING in block <==> CountPadding(block) > 0;
  }

  lemma RemainingLength(devices: seq<int>, size: nat, padding: nat, chosen: seq<int>)
    requires Level(devices, size, padding) && size < |devices|
    requires chosen in Sets(devices[1..], size - 1) && PaddingTogether(Block(devices, chosen), padding)
    ensures |Outside(devices, Block(devices, chosen))| == |devices| - size
  {
    var block, r, k := Block(devices, chosen), RealPart(devices), CountPadding(devices);
    RemainingSize(devices, size, padding, chosen);
    LayoutSize(devices, r, k);
    LayoutSize(Outside(devices, block), Outside(r, block), PaddingLeft(devices, block));
  }

  /** The padding stays at the tail, goes wholly into one block or none, and `remaining` shrinks by
      exactly `size`: the recursion only sees well-formed arguments. */
  lemma RemainingIsLevel(devices: seq<int>, size: nat, padding: nat, chosen: seq<int>)
    requires Level(devices, size, padding) && size < |devices|
    requires chosen in Sets(devices[1..], size - 1) && PaddingTogether(Block(devices, chosen), padding)
    ensures Level(Outside(devices, Block(devices, chosen)), size, padding)
  {
    var block := Block(devices, chosen);
    RemainingSize(devices, size, padding, chosen);
    RemainingLength(devices, size, padding, chosen);
    MultipleMinus(|devices|, size, |Outside(devices, block)|);
    MakeLevel(Outside(devices, block), Outside(RealPart(devices), block), PaddingLeft(devices, block), size, padding);
  }

  lemma MakeLevel(devices: seq<int>, r: seq<int>, k: nat, size: nat, padding: nat)
    requires Layout(devices, r, k) && (k == 0 || k == padding) && padding < size
    requires 2 <= size <= |devices| && Multiple(|devices|, size)
    ensures Level(devices, size, padding)
  {
    LayoutIsUnique(devices, r, k);
  }

  // ---------- The program ----------

  /** `gpuSetCopyAndAddPadding` */
  method AddPadding(gpuSet: seq<int>, size: int) returns (gpus: seq<int>)
    ensures gpus == if size <= 0 then [] else Padded(gpuSet, size)
  {
    if size <= 0 { return []; }
    gpus := gpuSet;
    PaddedLength(|gpuSet|, size);
    while |gpus| % size != 0
      invariant |gpuSet| <= |gpus| <= |gpuSet| + PadCount(|gpuSet|, size)
      invariant gpus == gpuSet + Pads(|gpus| - |gpuSet|)
      decreases |gpuSet| + PadCount(|gpuSet|, size) - |gpus|
    {
      gpus := gpus + [PADDING];
    }
  }

  /** `gpuSetCountPadding` */
  method GpuSetCountPadding(gpuSet: seq<int>) returns (count: nat)
    ensures count == CountPadding(gpuSet)
  {
    count := 0;
    for i := 0 to |gpuSet|
      invariant count == CountPadding(gpuSet[..i])
    {
      assert gpuSet[..i + 1] == gpuSet[..i] + [gpuSet[i]];
      if gpuSet[i] == PADDING { count := count + 1; }
    }
    assert gpuSet[..|gpuSet|] == gpuSet;
  }

  /** `gpuSetContains` */
  method GpuSetContains(gpuSet: seq<int>, gpu: int) returns (found: bool)
    ensures found == (gpu in gpuSet)
  {
    for i := 0 to |gpuSet|
      invariant gpu !in gpuSet[..i]
    {
      if gpuSet[i] == gpu { return true; }
    }
    found := false;
  }

  /** The inner `iterate`: the callback's arguments in order, for a prefix `accum` of blocks. */
  method Iterate(devices: seq<int>, size: nat, padding: nat, accum: Partition) returns (emitted: seq<Partition>)
    requires Level(devices, size, padding)
    ensures emitted == Prefixed(accum, Partitions(devices, size, padding))
    decreases |devices|, 2
  {
    if size > |devices| {
      assert false; // the panic of the original
    }
    if size == |devices| {
      return [accum + [devices]];
    }
    var sets := IterateGPUSets(devices[1..], size - 1);
    emitted := IterateSets(devices, size, padding, accum, sets);
  }

  /** The calls of the callback given to `iterateGPUSets`, one per set. */
  method IterateSets(devices: seq<int>, size: nat, padding: nat, accum: Partition, sets: seq<seq<int>>)
    returns (emitted: seq<Partition>)
    requires Level(devices, size, padding) && size < |devices| && sets == Sets(devices[1..], size - 1)
    ensures emitted == Prefixed(accum, Branches(devices, size, padding, sets))
    decreases |devices|, 1
  {
    emitted := [];
    for s := 0 to |sets|
      invariant emitted == Prefixed(accum, Branches(devices, size, padding, sets[..s]))
    {
      BranchesStep(devices, size, padding, accum, sets, s);
      var rest := IterateBranch(devices, size, padding, accum, sets[s]);
      emitted := emitted + rest;
    }
    assert sets[..|sets|] == sets;
  }

  /** The body of the callback given to `iterateGPUSets`. */
  method IterateBranch(devices: seq<int>, size: nat, padding: nat, accum: Partition, chosen: seq<int>)
    returns (emitted: seq<Partition>)
    requires Level(devices, size, padding) && size < |devices| && chosen in Sets(devices[1..], size - 1)
    ensures emitted == Prefixed(accum, Branch(devices, size, padding, chosen))
    decreases |devices|, 0
  {
    var block := [devices[0]] + chosen;
    var p := GpuSetCountPadding(block);
    if !(p == 0 || p == padding) { return []; }
    RemainingIsLevel(devices, size, padding, chosen);
    OutsideShrinks(devices, block);
    var remaining := RemainingDevices(devices, block);
    emitted := Iterate(remaining, size, padding, accum + [block]);
    PrefixedTwice(accum, [block], Partitions(remaining, size, padding));
  }

  lemma BranchesStep(devices: seq<int>, size: nat, padding: nat, accum: Partition, sets: seq<seq<int>>, s: nat)
    requires devices != [] && s < |sets|
    ensures Prefixed(accum, Branches(devices, size, padding, sets[..s + 1]))
         == Prefixed(accum, Branches(devices, size, padding, sets[..s]))
            + Prefixed(accum, Branch(devices, size, padding, sets[s]))
  {
    assert sets[..s + 1][..s] == sets[..s];
    PrefixedConcat(accum, Branches(devices, size, padding, sets[..s]), Branch(devices, size, padding, sets[s]));
  }

  lemma PrefixedConcat(accum: Partition, a: seq<Partition>, b: seq<Partition>)
    ensures Prefixed(accum, a + b) == Prefixed(accum, a) + Prefixed(accum, b)
  {
  }

  method RemainingDevices(devices: seq<int>, block: seq<int>) returns (remaining: seq<int>)
    ensures remaining == Outside(devices, block)
  {
    remaining := [];
    for i := 0 to |devices|
      invariant remaining == Outside(devices[..i], block)
    {
      assert devices[..i + 1][..i] == devices[..i];
      var found := GpuSetContains(block, devices[i]);
      if !found { remaining := remaining + [devices[i]]; }
    }
    assert devices[..|devices|] == devices;
  }

  lemma EmptyPrefix(ps: seq<Partition>)
    ensures Prefixed([], ps) == ps
  {
    forall i | 0 <= i < |ps| ensures [] + ps[i] == ps[i] {}
  }

  lemma PrefixedTwice(a: Partition, b: Partition, ps: seq<Partition>)
    ensures Prefixed(a, Prefixed(b, ps)) == Prefixed(a + b, ps)
  {
    forall i | 0 <= i < |ps| ensures a + (b + ps[i]) == (a + b) + ps[i] {}
  }

  lemma PaddedIsLevel(devices: seq<int>, size: nat)
    requires DeviceIds(devices) && 2 <= size <= |devices|
    ensures Level(Padded(devices, size), size, PadCount(|devices|, size))
    ensures CountPadding(Padded(devices, size)) == PadCount(|devices|, size)
    ensures RealPart(Padded(devices, size)) == devices
  {
    PaddedLength(|devices|, size);
    LayoutIsUnique(Padded(devices, size), devices, PadCount(|devices|, size));
    MakeLevel(Padded(devices, size), devices, PadCount(|devices|, size), size, PadCount(|devices|, size));
  }

  /** `iterateGPUPartitions` */
  method IterateGPUPartitions(devices: seq<int>, size: int) returns (emitted: seq<Partition>)
    requires DeviceIds(devices)
    ensures emitted == Candidates(devices, size)
  {
    emitted := [];
    if size <= 0 { return; }
    if size > |devices| { return; }
    if size == 1 {
      for i := 0 to |devices|
        invariant emitted == seq(i, j requires 0 <= j < i => [[devices[j]]])
      {
        emitted := emitted + [[[devices[i]]]];
      }
      return;
    }
    PaddedIsLevel(devices, size);
    var padded := AddPadding(devices, size);
    var padding := GpuSetCountPadding(padded);
    emitted := Iterate(padded, size, padding, []);
    EmptyPrefix(Partitions(padded, size, padding));
  }
}

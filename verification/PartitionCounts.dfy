/** How many partitions the enumerator lists. */
module PartitionCounts {
  import opened Arithmetic
  import opened GpuSets
  import opened GpuPartitions
  import opened PartitionTheory

  // ---------- Products ----------

  /** The product as repeated addition, so that the solver need not reason about nonlinear terms. */
  function Times(x: nat, y: nat): nat {
    if x == 0 then 0 else Times(x - 1, y) + y
  }

  lemma {:induction false} TimesIsProduct(x: nat, y: nat)
    ensures Times(x, y) == x * y
  {
    if x > 0 {
      TimesIsProduct(x - 1, y);
      assert x * y == (x - 1) * y + y;
    }
  }

  lemma {:induction false} Distribute(x: nat, y: nat, z: nat)
    ensures Times(x + y, z) == Times(x, z) + Times(y, z)
  {
    if x > 0 { Distribute(x - 1, y, z); }
  }

  lemma {:induction false} DistributeRight(x: nat, y: nat, z: nat)
    ensures Times(x, y + z) == Times(x, y) + Times(x, z)
  {
    if x > 0 { DistributeRight(x - 1, y, z); }
  }

  lemma {:induction false} TimesNone(x: nat)
    ensures Times(x, 0) == 0 && Times(x, 1) == x
  {
    if x > 0 { TimesNone(x - 1); }
  }

  lemma {:induction false} Associate(x: nat, y: nat, z: nat)
    ensures Times(x, Times(y, z)) == Times(Times(x, y), z)
  {
    if x > 0 {
      Associate(x - 1, y, z);
      Distribute(Times(x - 1, y), y, z);
    }
  }

  // ---------- Binomial coefficients ----------

  lemma {:induction false} ChooseAll(n: nat)
    ensures Choose(n, n) == 1
  {
    if n > 0 {
      ChooseAll(n - 1);
      ChooseTooMany(n - 1, n);
    }
  }

  /** C(n, k), which is 0 for negative k. */
  function ChooseOrNone(n: nat, k: int): nat {
    if k < 0 then 0 else Choose(n, k)
  }

  /** Choosing a elements and then b others, the two steps exchanged. */
  lemma {:induction false} ChooseTwice(n: nat, a: nat, b: nat)
    requires a + b <= n
    ensures Times(Choose(n, a), Choose(n - a, b)) == Times(Choose(n, b), Choose(n - b, a))
  {
    if a == 0 || b == 0 {
      TimesNone(Choose(n, a));
      TimesNone(Choose(n, b));
    } else {
      ChooseTwiceStep(n, a, b);
      ChooseTwiceStep(n, b, a);
      ChooseTwice(n - 1, a - 1, b);
      ChooseTwice(n - 1, a, b - 1);
      if a + b < n {
        ChooseTwice(n - 1, a, b);
      } else {
        ChooseTooMany(n - 1 - a, b);
        ChooseTooMany(n - 1 - b, a);
        TimesNone(Choose(n - 1, a));
        TimesNone(Choose(n - 1, b));
      }
    }
  }

  lemma ChooseTwiceStep(n: nat, a: nat, b: nat)
    requires 0 < a && 0 < b && a + b <= n
    ensures Times(Choose(n, a), Choose(n - a, b))
         == Times(Choose(n - 1, a - 1), Choose(n - a, b)) + Times(Choose(n - 1, a), Choose(n - 1 - a, b - 1))
          + Times(Choose(n - 1, a), Choose(n - 1 - a, b))
  {
    Distribute(Choose(n - 1, a - 1), Choose(n - 1, a), Choose(n - a, b));
    DistributeRight(Choose(n - 1, a), Choose(n - 1 - a, b - 1), Choose(n - 1 - a, b));
  }

  // ---------- Without padding ----------

  /** C(n - 1, size - 1) * C(n - size - 1, size - 1) * ... * C(size - 1, size - 1). */
  ghost function Product(n: nat, size: nat): nat
    requires size > 0
  {
    if n < size then 1 else Times(Choose(n - 1, size - 1), Product(n - size, size))
  }

  /** The list, as a recursion step sees it, has n real ids and this padding. */
  ghost predicate HasSize(devices: seq<int>, size: nat, padding: nat, n: nat, pads: nat) {
    |devices| == n + pads && Level(devices, size, padding) && CountPadding(devices) == pads
  }

  /** The lists of these sizes. */
  ghost function Lists(size: nat, padding: nat, n: nat, pads: nat): iset<seq<int>> {
    iset devices | HasSize(devices, size, padding, n, pads)
  }

  ghost predicate AllHave(size: nat, padding: nat, n: nat, pads: nat, count: nat) {
    forall devices :: devices in Lists(size, padding, n, pads) ==> |Partitions(devices, size, padding)| == count
  }

  /** The numbers of partitions that all lists of these sizes have. */
  ghost function Counts(size: nat, padding: nat, n: nat, pads: nat): iset<nat> {
    iset count | AllHave(size, padding, n, pads, count)
  }

  lemma CountOf(devices: seq<int>, size: nat, padding: nat, n: nat, pads: nat, count: nat)
    requires count in Counts(size, padding, n, pads) && devices in Lists(size, padding, n, pads)
    ensures |Partitions(devices, size, padding)| == count
  {
    assert AllHave(size, padding, n, pads, count);
  }

  lemma {:induction false} PartitionsCount(size: nat, padding: nat, n: nat)
    requires size > 0
    ensures Product(n, size) in Counts(size, padding, n, 0)
  {
    if size < n {
      PartitionsCount(size, padding, n - size);
      forall devices | devices in Lists(size, padding, n, 0)
        ensures |Partitions(devices, size, padding)| == Product(n, size)
      {
        CountOneMore(devices, size, padding, n - size, Product(n - size, size));
      }
    } else if size == n {
      ChooseAll(size - 1);
    }
    assert AllHave(size, padding, n, 0, Product(n, size));
  }

  /** The first block can be chosen in C(n - 1, size - 1) ways. */
  lemma CountOneMore(devices: seq<int>, size: nat, padding: nat, m: nat, each: nat)
    requires devices in Lists(size, padding, m + size, 0) && m > 0 && each in Counts(size, padding, m, 0)
    ensures |Partitions(devices, size, padding)| == Times(Choose(m + size - 1, size - 1), each)
  {
    forall s | s in Sets(devices[1..], size - 1) ensures |Branch(devices, size, padding, s)| == each {
      BranchCount(devices, size, padding, m, each, s);
    }
    EqualBranches(devices, size, padding, m, each);
  }

  lemma EqualBranches(devices: seq<int>, size: nat, padding: nat, m: nat, each: nat)
    requires |devices| == m + size && m > 0 && size >= 2
    requires forall s :: s in Sets(devices[1..], size - 1) ==> |Branch(devices, size, padding, s)| == each
    ensures |Partitions(devices, size, padding)| == Times(Choose(m + size - 1, size - 1), each)
  {
    var sets := Sets(devices[1..], size - 1);
    SetsCount(devices[1..], size - 1);
    BranchesCount(devices, size, padding, sets, each);
    PartitionsAreBranches(devices, size, padding, sets);
  }

  lemma BranchCount(devices: seq<int>, size: nat, padding: nat, m: nat, each: nat, chosen: seq<int>)
    requires devices in Lists(size, padding, m + size, 0) && m > 0 && each in Counts(size, padding, m, 0)
    requires chosen in Sets(devices[1..], size - 1)
    ensures |Branch(devices, size, padding, chosen)| == each
  {
    NoPadding(devices, size, padding, chosen);
    var rest := BranchRest(devices, size, padding, chosen, m);
    CountOf(rest, size, padding, m, 0, each);
  }

  /** Branches of equal size add up. */
  lemma {:induction false} BranchesCount(devices: seq<int>, size: nat, padding: nat, sets: seq<seq<int>>, each: nat)
    requires devices != [] && forall s :: s in sets ==> |Branch(devices, size, padding, s)| == each
    ensures |Branches(devices, size, padding, sets)| == Times(|sets|, each)
  {
    if sets != [] {
      BranchesCount(devices, size, padding, sets[..|sets| - 1], each);
    }
  }

  lemma NoPadding(devices: seq<int>, size: nat, padding: nat, chosen: seq<int>)
    requires Level(devices, size, padding) && CountPadding(devices) == 0 && chosen in Sets(devices[1..], size - 1)
    ensures CountPadding(Block(devices, chosen)) == 0
  {
    LayoutIsUnique(devices, RealPart(devices), 0);
    ChosenBlock(devices, size, chosen);
    assert PADDING !in devices;
  }

  /** A branch has the candidates for one block less. */
  lemma BranchRest(devices: seq<int>, size: nat, padding: nat, chosen: seq<int>, m: nat) returns (rest: seq<int>)
    requires Level(devices, size, padding) && m > 0 && |devices| == m + size && chosen in Sets(devices[1..], size - 1)
    requires PaddingTogether(Block(devices, chosen), padding)
    ensures Level(rest, size, padding) && |rest| == m
    ensures CountPadding(rest) == CountPadding(devices) - CountPadding(Block(devices, chosen))
    ensures |Branch(devices, size, padding, chosen)| == |Partitions(rest, size, padding)|
  {
    var block := Block(devices, chosen);
    RemainingSize(devices, size, padding, chosen);
    LayoutIsUnique(Outside(devices, block), Outside(RealPart(devices), block), PaddingLeft(devices, block));
    RemainingIsLevel(devices, size, padding, chosen);
    RemainingLength(devices, size, padding, chosen);
    BranchLength(devices, size, padding, chosen);
    rest := Outside(devices, block);
  }

  lemma BranchLength(devices: seq<int>, size: nat, padding: nat, chosen: seq<int>)
    requires devices != [] && PaddingTogether(Block(devices, chosen), padding)
    ensures |Branch(devices, size, padding, chosen)|
         == |Partitions(Outside(devices, Block(devices, chosen)), size, padding)|
  {
  }

  // ---------- Weighing index tuples by the padding they select ----------

  /** How many indices are n or more. */
  function Beyond(t: seq<nat>, n: nat): nat {
    if t == [] then 0 else Beyond(t[..|t| - 1], n) + if t[|t| - 1] >= n then 1 else 0
  }

  lemma {:induction false} BeyondIsBounded(t: seq<nat>, n: nat)
    ensures Bounded(t, n) ==> Beyond(t, n) == 0
  {
    if t != [] { BeyondIsBounded(t[..|t| - 1], n); }
  }

  lemma BeyondOneMore(t: seq<nat>, x: nat, n: nat)
    ensures Beyond(t + [x], n) == Beyond(t, n) + if x >= n then 1 else 0
  {
    assert (t + [x])[..|t|] == t;
  }

  /** How many tuples have c indices from n on. */
  function With(ts: seq<seq<nat>>, n: nat, c: nat): nat {
    if ts == [] then 0 else With(ts[..|ts| - 1], n, c) + if Beyond(ts[|ts| - 1], n) == c then 1 else 0
  }

  lemma {:induction false} WithConcat(s: seq<seq<nat>>, t: seq<seq<nat>>, n: nat, c: nat)
    ensures With(s + t, n, c) == With(s, n, c) + With(t, n, c)
  {
    if t == [] {
      assert s + t == s;
    } else {
      assert (s + t)[..|s + t| - 1] == s + t[..|t| - 1];
      WithConcat(s, t[..|t| - 1], n, c);
    }
  }

  lemma {:induction false} WithSame(ts: seq<seq<nat>>, n: nat, c: nat, each: nat)
    requires forall t :: t in ts ==> Beyond(t, n) == each
    ensures With(ts, n, c) == if each == c then |ts| else 0
  {
    if ts != [] { WithSame(ts[..|ts| - 1], n, c, each); }
  }

  /** From n on only padding is left to choose. */
  lemma {:induction false} OnlyBeyond(n: nat, k: nat, size: nat, prefix: seq<nat>, start: nat)
    requires |prefix| <= size && n <= start <= n + k
    ensures forall t :: t in From(n + k, size, prefix, start) ==> Beyond(t, n) == Beyond(prefix, n) + size - |prefix|
    decreases n + k - start
  {
    if |prefix| < size && start < n + k {
      OnlyBeyond(n, k, size, prefix + [start], start + 1);
      OnlyBeyond(n, k, size, prefix, start + 1);
      BeyondOneMore(prefix, start, n);
    }
  }

  lemma WithBeyond(n: nat, k: nat, size: nat, prefix: seq<nat>, j: nat, c: nat)
    requires |prefix| + j == size && Bounded(prefix, n) && (c == 0 || c == k)
    ensures With(From(n + k, size, prefix, n), n, c) == ChooseOrNone(0, j - c)
  {
    var ts := From(n + k, size, prefix, n);
    BeyondIsBounded(prefix, n);
    OnlyBeyond(n, k, size, prefix, n);
    FromCount(n + k, size, prefix, n);
    WithSame(ts, n, c, j);
    AllOrNone(k, j, c, |ts|);
  }

  lemma AllOrNone(k: nat, j: nat, c: nat, count: nat)
    requires count == Choose(k, j) && (c == 0 || c == k)
    ensures (if j == c then count else 0) == ChooseOrNone(0, j - c)
  {
    ChooseAll(k);
  }

  lemma FromSplits(n: nat, size: nat, prefix: seq<nat>, start: nat, next: nat)
    requires |prefix| < size && start < n && next == start + 1
    ensures From(n, size, prefix, start) == From(n, size, prefix + [start], next) + From(n, size, prefix, next)
  {
  }

  lemma WithBoth(longer: seq<seq<nat>>, later: seq<seq<nat>>, n: nat, m: nat, j: nat, c: nat)
    requires m > 0 && j > 0
    requires With(longer, n, c) == ChooseOrNone(m - 1, j - 1 - c) && With(later, n, c) == ChooseOrNone(m - 1, j - c)
    ensures With(longer + later, n, c) == ChooseOrNone(m, j - c)
  {
    WithConcat(longer, later, n, c);
  }

  lemma WithOne(prefix: seq<nat>, n: nat, m: nat, c: nat)
    requires Bounded(prefix, n)
    ensures With([prefix], n, c) == ChooseOrNone(m, 0 - c)
  {
    BeyondIsBounded(prefix, n);
    WithSame([prefix], n, c, 0);
  }

  lemma FromWithLast(n: nat, k: nat, size: nat, prefix: seq<nat>, j: nat, m: nat, c: nat, ts: seq<seq<nat>>)
    requires |prefix| + j == size && m <= n && Bounded(prefix, n - m) && (c == 0 || c == k) && (j == 0 || m == 0)
    requires ts == From(n + k, size, prefix, n - m)
    ensures With(ts, n, c) == ChooseOrNone(m, j - c)
  {
    if j == 0 {
      WithOne(prefix, n, m, c);
    } else {
      WithBeyond(n, k, size, prefix, j, c);
    }
  }

  lemma BoundedMore(prefix: seq<nat>, start: nat, next: nat)
    requires Bounded(prefix, start) && next == start + 1
    ensures Bounded(prefix, next) && Bounded(prefix + [start], next)
  {
  }

  /** Of the tuples of j indices out of m below n and k from n on, C(m, j) use none of those from n on,
      and C(m, j - k) use all. */
  lemma {:induction false} FromWith(
      n: nat, k: nat, size: nat, prefix: seq<nat>, j: nat, m: nat, c: nat, ts: seq<seq<nat>>)
    requires |prefix| + j == size && m <= n && Bounded(prefix, n - m) && (c == 0 || c == k)
    requires ts == From(n + k, size, prefix, n - m)
    ensures With(ts, n, c) == ChooseOrNone(m, j - c)
    decreases m
  {
    if j == 0 || m == 0 {
      FromWithLast(n, k, size, prefix, j, m, c, ts);
    } else {
      var start, next := n - m, n - (m - 1);
      var longer, later := From(n + k, size, prefix + [start], next), From(n + k, size, prefix, next);
      BoundedMore(prefix, start, next);
      FromWith(n, k, size, prefix + [start], j - 1, m - 1, c, longer);
      FromWith(n, k, size, prefix, j, m - 1, c, later);
      FromSplits(n + k, size, prefix, start, next);
      WithBoth(longer, later, n, m, j, c);
    }
  }

  /** Weight a without and b with all k indices from n on, and 0 with some of them. */
  function Weight(t: seq<nat>, n: nat, k: nat, a: nat, b: nat): nat {
    if Beyond(t, n) == 0 then a else if Beyond(t, n) == k then b else 0
  }

  // ---------- With padding ----------

  lemma {:induction false} SelectedPadding(r: seq<int>, k: nat, t: seq<nat>)
    requires PADDING !in r && Bounded(t, |r| + k)
    ensures CountPadding(Select(r + Pads(k), t)) == Beyond(t, |r|)
  {
    var tail := r + Pads(k);
    if t != [] {
      var front, last := t[..|t| - 1], t[|t| - 1];
      SelectedPadding(r, k, front);
      assert Select(tail, t) == Select(tail, front) + [tail[last]];
      assert tail[last] == PADDING <==> last >= |r|;
    }
  }

  lemma BlockBeyond(devices: seq<int>, size: nat, k: nat, n: nat, t: seq<nat>)
    requires devices in Lists(size, k, n, k) && Bounded(t, |devices| - 1) && n > 0
    ensures CountPadding(Block(devices, Select(devices[1..], t))) == Beyond(t, n - 1)
  {
    var r := RealPart(devices);
    assert devices[1..] == r[1..] + Pads(k);
    SelectedPadding(r[1..], k, t);
    LayoutIsUnique(devices, r, k);
    CountPrepend(devices[0], Select(devices[1..], t));
  }

  /** A branch without padding, with all of it, or not pursued. */
  lemma BranchCounts(devices: seq<int>, size: nat, k: nat, m: nat, chosen: seq<int>, a: nat, b: nat)
    requires 0 < k < size <= m && devices in Lists(size, k, m + size - k, k) && chosen in Sets(devices[1..], size - 1)
    requires a in Counts(size, k, m - k, k) && b in Counts(size, k, m, 0)
    ensures var pads := CountPadding(Block(devices, chosen));
            |Branch(devices, size, k, chosen)| == if pads == 0 then a else if pads == k then b else 0
  {
    var pads := CountPadding(Block(devices, chosen));
    if pads == 0 {
      var rest := BranchRest(devices, size, k, chosen, m);
      CountOf(rest, size, k, m - k, k, a);
    } else if pads == k {
      var rest := BranchRest(devices, size, k, chosen, m);
      CountOf(rest, size, k, m, 0, b);
    }
  }

  lemma BranchesLast(devices: seq<int>, size: nat, padding: nat, sets: seq<seq<int>>, last: seq<int>)
    requires devices != []
    ensures |Branches(devices, size, padding, sets + [last])|
         == |Branches(devices, size, padding, sets)| + |Branch(devices, size, padding, last)|
  {
    assert (sets + [last])[..|sets|] == sets;
  }

  function Total(ts: seq<seq<nat>>, n: nat, k: nat, a: nat, b: nat): nat {
    if ts == [] then 0 else Total(ts[..|ts| - 1], n, k, a, b) + Weight(ts[|ts| - 1], n, k, a, b)
  }

  lemma TotalLast(ts: seq<seq<nat>>, last: seq<nat>, n: nat, k: nat, a: nat, b: nat)
    ensures Total(ts + [last], n, k, a, b) == Total(ts, n, k, a, b) + Weight(last, n, k, a, b)
  {
    assert (ts + [last])[..|ts|] == ts;
  }

  lemma {:induction false} TotalMeans(ts: seq<seq<nat>>, n: nat, k: nat, a: nat, b: nat)
    requires k > 0
    ensures Total(ts, n, k, a, b) == Times(With(ts, n, 0), a) + Times(With(ts, n, k), b)
  {
    if ts != [] {
      var front := ts[..|ts| - 1];
      TotalMeans(front, n, k, a, b);
      Distribute(With(front, n, 0), 1, a);
      Distribute(With(front, n, k), 1, b);
      assert Times(1, a) == a && Times(1, b) == b;
    }
  }

  ghost predicate Weighed(
      devices: seq<int>, size: nat, k: nat, n: nat, t: seq<nat>, chosen: seq<int>, a: nat, b: nat)
    requires devices != []
  {
    |Branch(devices, size, k, chosen)| == Weight(t, n, k, a, b)
  }

  lemma OneMoreBranch(
      devices: seq<int>, size: nat, k: nat, n: nat, ts: seq<seq<nat>>, t: seq<nat>, sets: seq<seq<int>>,
      chosen: seq<int>, a: nat, b: nat)
    requires devices != [] && Weighed(devices, size, k, n, t, chosen, a, b)
    requires |Branches(devices, size, k, sets)| == Total(ts, n, k, a, b)
    ensures |Branches(devices, size, k, sets + [chosen])| == Total(ts + [t], n, k, a, b)
  {
    BranchesLast(devices, size, k, sets, chosen);
    TotalLast(ts, t, n, k, a, b);
  }

  lemma {:induction false} BranchesTotal(
      devices: seq<int>, size: nat, k: nat, n: nat, ts: seq<seq<nat>>, sets: seq<seq<int>>, a: nat, b: nat, m: nat)
    requires devices != [] && |sets| == |ts| && m <= |ts|
    requires forall i :: 0 <= i < |ts| ==> Weighed(devices, size, k, n, ts[i], sets[i], a, b)
    ensures |Branches(devices, size, k, sets[..m])| == Total(ts[..m], n, k, a, b)
  {
    if m > 0 {
      var i := m - 1;
      BranchesTotal(devices, size, k, n, ts, sets, a, b, i);
      OneMoreBranch(devices, size, k, n, ts[..i], ts[i], sets[..i], sets[i], a, b);
      assert sets[..m] == sets[..i] + [sets[i]] && ts[..m] == ts[..i] + [ts[i]];
    }
  }

  /** The tuples behind the sets that complete the first block. */
  lemma SetsOfTuples(tail: seq<int>, size: nat, ts: seq<seq<nat>>)
    requires 0 < size <= |tail| && ts == Tuples(|tail|, size)
    ensures |Sets(tail, size)| == |ts|
    ensures forall i :: 0 <= i < |ts| ==>
      |ts[i]| == size && Increasing(ts[i]) && Bounded(ts[i], |tail|) && Sets(tail, size)[i] == Select(tail, ts[i])
  {
    TuplesAreExact(|tail|, size);
    assert forall i :: 0 <= i < |ts| ==> ts[i] in ts;
  }

  lemma BranchOfTuple(
      devices: seq<int>, size: nat, k: nat, n: nat, m: nat, t: seq<nat>, chosen: seq<int>, a: nat, b: nat)
    requires 0 < k < size <= m && m + size == n + k && devices in Lists(size, k, n, k)
    requires chosen in Sets(devices[1..], size - 1) && Bounded(t, |devices| - 1) && chosen == Select(devices[1..], t)
    requires a in Counts(size, k, m - k, k) && b in Counts(size, k, m, 0)
    ensures |Branch(devices, size, k, chosen)| == Weight(t, n - 1, k, a, b)
  {
    BlockBeyond(devices, size, k, n, t);
    BranchCounts(devices, size, k, m, chosen, a, b);
  }

  lemma BranchesOfTuples(
      devices: seq<int>, size: nat, k: nat, n: nat, m: nat, ts: seq<seq<nat>>, sets: seq<seq<int>>, a: nat, b: nat)
    requires 0 < k < size <= m && m + size == n + k && devices in Lists(size, k, n, k)
    requires ts == Tuples(|devices| - 1, size - 1) && sets == Sets(devices[1..], size - 1)
    requires a in Counts(size, k, m - k, k) && b in Counts(size, k, m, 0)
    ensures |devices| == n + k && |sets| == |ts|
    ensures forall i :: 0 <= i < |ts| ==> Weighed(devices, size, k, n - 1, ts[i], sets[i], a, b)
  {
    SetsOfTuples(devices[1..], size - 1, ts);
    forall i | 0 <= i < |ts| ensures Weighed(devices, size, k, n - 1, ts[i], sets[i], a, b) {
      BranchOfTuple(devices, size, k, n, m, ts[i], sets[i], a, b);
    }
  }

  lemma PartitionsTotal(
      devices: seq<int>, size: nat, k: nat, n: nat, ts: seq<seq<nat>>, sets: seq<seq<int>>, a: nat, b: nat)
    requires 0 < size < |devices| && sets == Sets(devices[1..], size - 1) && |sets| == |ts|
    requires forall i :: 0 <= i < |ts| ==> Weighed(devices, size, k, n, ts[i], sets[i], a, b)
    ensures |Partitions(devices, size, k)| == Total(ts, n, k, a, b)
  {
    BranchesTotal(devices, size, k, n, ts, sets, a, b, |ts|);
    assert sets[..|ts|] == sets && ts[..|ts|] == ts;
    PartitionsAreBranches(devices, size, k, sets);
  }

  lemma PaddedPartitions(devices: seq<int>, size: nat, k: nat, n: nat, m: nat, ts: seq<seq<nat>>, a: nat, b: nat)
    requires 0 < k < size <= m && m + size == n + k && devices in Lists(size, k, n, k)
    requires ts == Tuples(n - 1 + k, size - 1)
    requires a in Counts(size, k, m - k, k) && b in Counts(size, k, m, 0)
    ensures |Partitions(devices, size, k)| == Total(ts, n - 1, k, a, b)
  {
    assert |devices| == n + k;
    var sets := Sets(devices[1..], size - 1);
    BranchesOfTuples(devices, size, k, n, m, ts, sets, a, b);
    PartitionsTotal(devices, size, k, n - 1, ts, sets, a, b);
  }

  lemma PartitionsAreBranches(devices: seq<int>, size: nat, k: nat, sets: seq<seq<int>>)
    requires 0 < size < |devices| && sets == Sets(devices[1..], size - 1)
    ensures Partitions(devices, size, k) == Branches(devices, size, k, sets)
  {
  }

  lemma TuplesTotal(n: nat, k: nat, size: nat, ts: seq<seq<nat>>, a: nat, b: nat)
    requires k > 0 && ts == Tuples(n + k, size)
    ensures Total(ts, n, k, a, b) == Times(Choose(n, size), a) + Times(ChooseOrNone(n, size - k), b)
  {
    FromWith(n, k, size, [], size, n, 0, ts);
    FromWith(n, k, size, [], size, n, k, ts);
    TotalMeans(ts, n, k, a, b);
  }

  /** The number of partitions of n ids with a short block of rest < size of them. */
  ghost function PaddedProduct(n: nat, size: nat, rest: nat): nat
    requires 0 < size && rest <= n
  {
    Times(Choose(n, rest), Product(n - rest, size))
  }

  lemma PaddedProductStep(n: nat, size: nat, rest: nat, a: nat, b: nat)
    requires 0 < rest < size && size + rest <= n
    requires a == PaddedProduct(n - size, size, rest) && b == Product(n - rest, size)
    ensures PaddedProduct(n, size, rest) == Times(Choose(n - 1, size - 1), a) + Times(Choose(n - 1, rest - 1), b)
  {
    var c, p := Choose(n - 1 - rest, size - 1), Product(n - size - rest, size);
    ChooseTwice(n - 1, size - 1, rest);
    Distribute(Choose(n - 1, rest - 1), Choose(n - 1, rest), b);
    Associate(Choose(n - 1, rest), c, p);
    Associate(Choose(n - 1, size - 1), Choose(n - size, rest), p);
  }

  lemma {:induction false} PaddedCount(size: nat, k: nat, n: nat, count: nat)
    requires 0 < k < size && size <= n + k && Multiple(n + k, size) && count == PaddedProduct(n, size, size - k)
    ensures count in Counts(size, k, n, k)
  {
    if n + k > size {
      var m, rest := n + k - size, size - k;
      MultipleMinus(n + k, size, m);
      var a, b := PaddedProduct(n - size, size, rest), Product(m, size);
      PaddedCount(size, k, n - size, a);
      PartitionsCount(size, k, m);
      PaddedProductStep(n, size, rest, a, b);
      PaddedCountStep(size, k, n, m, a, b, count);
    } else {
      ChooseAll(n);
      OneCandidate(size, k, n, count);
    }
  }

  lemma OneCandidate(size: nat, k: nat, n: nat, count: nat)
    requires n + k == size && count == 1
    ensures count in Counts(size, k, n, k)
  {
    assert AllHave(size, k, n, k, count);
  }

  /** The first block takes no padding in C(n - 1, size - 1) ways, and all of it in C(n - 1, size - 1 - k). */
  lemma PaddedCountStep(size: nat, k: nat, n: nat, m: nat, a: nat, b: nat, count: nat)
    requires 0 < k < size <= m && m + size == n + k
    requires a in Counts(size, k, m - k, k) && b in Counts(size, k, m, 0)
    requires count == Times(Choose(n - 1, size - 1), a) + Times(Choose(n - 1, size - 1 - k), b)
    ensures count in Counts(size, k, n, k)
  {
    var ts := Tuples(n - 1 + k, size - 1);
    TuplesTotal(n - 1, k, size - 1, ts, a, b);
    forall devices | devices in Lists(size, k, n, k) ensures |Partitions(devices, size, k)| == count {
      PaddedPartitions(devices, size, k, n, m, ts, a, b);
    }
    assert AllHave(size, k, n, k, count);
  }

  /** With n devices and r = n % size the number of candidates is C(n, r) for the short block times
      C(n - r - 1, size - 1) * C(n - r - size - 1, size - 1) * ... * C(size - 1, size - 1). */
  lemma CandidatesCount(devices: seq<int>, size: nat, rest: nat)
    requires DeviceIds(devices) && 2 <= size <= |devices| && rest == |devices| % size
    ensures |Candidates(devices, size)| == Choose(|devices|, rest) * Product(|devices| - rest, size)
  {
    var c, p := Choose(|devices|, rest), Product(|devices| - rest, size);
    CandidatesTimes(devices, size, rest, Times(c, p));
    TimesIsProduct(c, p);
  }

  lemma CandidatesTimes(devices: seq<int>, size: nat, rest: nat, count: nat)
    requires DeviceIds(devices) && 2 <= size <= |devices| && rest == |devices| % size
    requires count == Times(Choose(|devices|, rest), Product(|devices| - rest, size))
    ensures |Candidates(devices, size)| == count
  {
    var n := |devices|;
    var k := PadCountOf(n, size, rest);
    EitherCount(size, k, n, rest, count);
    CandidatesOf(devices, size, k, count);
  }

  lemma CandidatesOf(devices: seq<int>, size: nat, k: nat, count: nat)
    requires DeviceIds(devices) && 2 <= size <= |devices| && k == PadCount(|devices|, size)
    requires count in Counts(size, k, |devices|, k)
    ensures |Candidates(devices, size)| == count
  {
    PaddedIsLevel(devices, size);
    CountOf(Padded(devices, size), size, k, |devices|, k, count);
  }

  lemma EitherCount(size: nat, k: nat, n: nat, rest: nat, count: nat)
    requires rest < size <= n && k == (if rest == 0 then 0 else size - rest) && Multiple(n + k, size)
    requires count == Times(Choose(n, rest), Product(n - rest, size))
    ensures count in Counts(size, k, n, k)
  {
    if rest == 0 {
      PartitionsCount(size, k, n);
      assert Times(1, count) == count;
    } else {
      PaddedCount(size, k, n, count);
    }
  }

  lemma PadCountOf(n: nat, size: nat, rest: nat) returns (k: nat)
    requires 2 <= size <= n && rest == n % size
    ensures k == PadCount(n, size) == (if rest == 0 then 0 else size - rest) && Multiple(n + k, size)
  {
    k := PadCount(n, size);
    PaddedLength(n, size);
    if rest == 0 {
      DivisionIsUnique(size, size, 1, 0);
    } else {
      DivisionIsUnique(size - rest, size, 0, size - rest);
    }
  }
}

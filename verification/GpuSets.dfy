/** The set enumerator of pkg/policy/besteffort_policy.go: all size-element subsequences of a
    list, produced by an explicit stack of indices (`iterateGPUSets`). */
module GpuSets {

  // ---------- Specification: increasing index tuples in lexicographic order ----------

  /** The tuples of length `size` over 0..n that extend `prefix` by indices of at least `start`. */
  function From(n: nat, size: nat, prefix: seq<nat>, start: nat): seq<seq<nat>>
    decreases n - start
  {
    if |prefix| >= size then [prefix]
    else if start >= n then []
    else From(n, size, prefix + [start], start + 1) + From(n, size, prefix, start + 1)
  }

  function Tuples(n: nat, size: nat): seq<seq<nat>> {
    From(n, size, [], 0)
  }

  predicate Increasing(t: seq<nat>) {
    forall i, j :: 0 <= i < j < |t| ==> t[i] < t[j]
  }

  predicate Bounded(t: seq<nat>, n: nat) {
    forall i :: 0 <= i < |t| ==> t[i] < n
  }

  /** Strict lexicographic order on tuples of one length. */
  ghost predicate LexBefore(s: seq<nat>, t: seq<nat>) {
    |s| == |t| && exists k: nat :: LexBeforeAt(s, t, k)
  }

  ghost predicate LexBeforeAt(s: seq<nat>, t: seq<nat>, k: nat) {
    k < |s| && k < |t| && s[..k] == t[..k] && s[k] < t[k]
  }

  ghost predicate Ordered(ts: seq<seq<nat>>) {
    forall i, j :: 0 <= i < j < |ts| ==> LexBefore(ts[i], ts[j])
  }

  function Select(devices: seq<int>, t: seq<nat>): (r: seq<int>)
    requires Bounded(t, |devices|)
  {
    seq(|t|, i requires 0 <= i < |t| => devices[t[i]])
  }

  function SelectAll(devices: seq<int>, ts: seq<seq<nat>>): (r: seq<seq<int>>)
    requires forall t :: t in ts ==> Bounded(t, |devices|)
  {
    seq(|ts|, i requires 0 <= i < |ts| => Select(devices, ts[i]))
  }

  /** What the enumerator hands to its callback, in order. */
  function Sets(devices: seq<int>, size: int): (r: seq<seq<int>>) {
    if size <= 0 || size > |devices| then []
    else TuplesAreExact(|devices|, size); SelectAll(devices, Tuples(|devices|, size))
  }

  // ---------- Exactness of the tuples ----------

  /** t is a tuple that From(n, size, prefix, start) must list. */
  ghost predicate Extends(n: nat, size: nat, prefix: seq<nat>, start: nat, t: seq<nat>) {
    |t| == size && Increasing(t) && Bounded(t, n) && prefix <= t
    && (forall i :: |prefix| <= i < size ==> start <= t[i])
  }

  ghost predicate GoodPrefix(n: nat, size: nat, prefix: seq<nat>, start: nat) {
    |prefix| <= size && Increasing(prefix) && Bounded(prefix, n) && Bounded(prefix, start)
  }

  lemma {:induction false} FromIsExact(n: nat, size: nat, prefix: seq<nat>, start: nat)
    requires GoodPrefix(n, size, prefix, start)
    ensures forall t :: t in From(n, size, prefix, start) <==> Extends(n, size, prefix, start, t)
    decreases n - start
  {
    if |prefix| >= size {
      forall t ensures t in From(n, size, prefix, start) <==> Extends(n, size, prefix, start, t) {
        if Extends(n, size, prefix, start, t) { assert t == prefix; }
      }
    } else if start >= n {
      forall t: seq<nat> | |t| == size && Bounded(t, n) ensures t[|prefix|] < start {
      }
    } else {
      var longer := prefix + [start];
      FromIsExact(n, size, longer, start + 1);
      FromIsExact(n, size, prefix, start + 1);
      forall t
        ensures Extends(n, size, prefix, start, t)
           <==> Extends(n, size, longer, start + 1, t) || Extends(n, size, prefix, start + 1, t)
      {
        if Extends(n, size, prefix, start, t) {
          if t[|prefix|] == start {
            assert longer == t[..|prefix| + 1];
          }
        }
        if Extends(n, size, longer, start + 1, t) {
          assert t[|prefix|] == longer[|prefix|] == start;
          assert prefix <= longer <= t;
        }
      }
    }
  }

  lemma {:induction false} FromIsOrdered(n: nat, size: nat, prefix: seq<nat>, start: nat)
    requires GoodPrefix(n, size, prefix, start)
    ensures Ordered(From(n, size, prefix, start))
    decreases n - start
  {
    if |prefix| < size && start < n {
      var longer := prefix + [start];
      FromIsOrdered(n, size, longer, start + 1);
      FromIsOrdered(n, size, prefix, start + 1);
      FromIsExact(n, size, longer, start + 1);
      FromIsExact(n, size, prefix, start + 1);
      var a, b := From(n, size, longer, start + 1), From(n, size, prefix, start + 1);
      forall s, t | s in a && t in b ensures LexBefore(s, t) {
        assert Extends(n, size, longer, start + 1, s) && Extends(n, size, prefix, start + 1, t);
        var k := |prefix|;
        assert s[k] == longer[k];
        assert s[..k] == longer[..k] == prefix == t[..k];
        assert LexBeforeAt(s, t, k);
      }
      var r := From(n, size, prefix, start);
      forall i, j | 0 <= i < j < |r| ensures LexBefore(r[i], r[j]) {
        if j < |a| {
          assert r[i] == a[i] && r[j] == a[j];
        } else if i < |a| {
          assert r[i] == a[i] && r[j] == b[j - |a|];
        } else {
          assert r[i] == b[i - |a|] && r[j] == b[j - |a|];
        }
      }
    }
  }

  /** The tuples listed are exactly the strictly increasing ones, in lexicographic order, none twice. */
  lemma TuplesAreExact(n: nat, size: nat)
    ensures forall t :: t in Tuples(n, size) <==> |t| == size && Increasing(t) && Bounded(t, n)
    ensures Ordered(Tuples(n, size))
  {
    FromIsExact(n, size, [], 0);
    FromIsOrdered(n, size, [], 0);
    forall t ensures t in Tuples(n, size) <==> |t| == size && Increasing(t) && Bounded(t, n) {
      assert t in Tuples(n, size) <==> Extends(n, size, [], 0, t);
    }
  }

  lemma OrderedIsDistinct(ts: seq<seq<nat>>)
    requires Ordered(ts)
    ensures forall i, j :: 0 <= i < j < |ts| ==> ts[i] != ts[j]
  {
    forall i, j | 0 <= i < j < |ts| ensures ts[i] != ts[j] {
      assert LexBefore(ts[i], ts[j]);
    }
  }

  // ---------- Number of emissions ----------

  /** Binomial coefficient by Pascal's rule. */
  function Choose(n: nat, k: nat): nat {
    if k == 0 then 1 else if n == 0 then 0 else Choose(n - 1, k - 1) + Choose(n - 1, k)
  }

  lemma {:induction false} FromCount(n: nat, size: nat, prefix: seq<nat>, start: nat)
    requires |prefix| <= size && start <= n
    ensures |From(n, size, prefix, start)| == Choose(n - start, size - |prefix|)
    decreases n - start
  {
    if |prefix| < size && start < n {
      FromCount(n, size, prefix + [start], start + 1);
      FromCount(n, size, prefix, start + 1);
    }
  }

  lemma SetsCount(devices: seq<int>, size: int)
    requires size >= 1
    ensures |Sets(devices, size)| == Choose(|devices|, size)
  {
    FromCount(|devices|, size, [], 0);
    if size > |devices| { ChooseTooMany(|devices|, size); }
  }

  /** No sets are listed for a size that is not positive or too large. */
  lemma NoSetsOfInvalidSize(devices: seq<int>, size: int)
    requires size < 1 || size > |devices|
    ensures Sets(devices, size) == []
  {
  }

  lemma {:induction false} ChooseTooMany(n: nat, k: nat)
    requires k > n
    ensures Choose(n, k) == 0
  {
    if n > 0 { ChooseTooMany(n - 1, k - 1); ChooseTooMany(n - 1, k); }
  }

  /** Emissions and increasing index tuples correspond one to one, in lexicographic order. */
  lemma SetsAreExact(devices: seq<int>, size: int)
    requires 1 <= size <= |devices|
    ensures var ts, r := Tuples(|devices|, size), Sets(devices, size);
            && |r| == |ts|
            && (forall i :: 0 <= i < |r| ==> Bounded(ts[i], |devices|) && r[i] == Select(devices, ts[i]))
            && (forall t :: |t| == size && Increasing(t) && Bounded(t, |devices|)
                  <==> exists i :: 0 <= i < |ts| && ts[i] == t)
            && (forall i, j :: 0 <= i < j < |ts| ==> LexBefore(ts[i], ts[j]) && ts[i] != ts[j])
  {
    var ts := Tuples(|devices|, size);
    TuplesAreExact(|devices|, size);
    OrderedIsDistinct(ts);
    forall i | 0 <= i < |ts| ensures Bounded(ts[i], |devices|) { assert ts[i] in ts; }
    forall t ensures |t| == size && Increasing(t) && Bounded(t, |devices|)
                <==> exists i :: 0 <= i < |ts| && ts[i] == t {
      assert |t| == size && Increasing(t) && Bounded(t, |devices|) <==> t in ts;
    }
  }

  // ---------- The backtracking loop ----------

  /** The loop's own state: the index stack and the level it stands at. */
  datatype Walk = Walk(idx: seq<nat>, level: nat)

  ghost predicate Valid(n: nat, size: nat, w: Walk) {
    && w.level < size == |w.idx| && w.idx[w.level] <= n
    && (forall i :: 0 <= i < w.level ==> w.idx[i] < n)
  }

  /** Index stack after one iteration that starts with w; nothing follows an exhausted level 0. */
  ghost function Next(n: nat, size: nat, w: Walk): Walk
    requires Valid(n, size, w) && (w.level > 0 || w.idx[0] < n)
  {
    var i := w.idx[w.level];
    if i == n then Walk(w.idx[w.level - 1 := w.idx[w.level - 1] + 1], w.level - 1)
    else if w.level < size - 1 then Walk(w.idx[w.level + 1 := i + 1], w.level + 1)
    else Walk(w.idx[w.level := i + 1], w.level)
  }

  /** Loop iterations spent on one level from index `start` until it is exhausted. */
  ghost function Iterations(n: nat, size: nat, level: nat, start: nat): nat
    decreases n - start
  {
    if start >= n then 1
    else if level + 1 >= size then 1 + Iterations(n, size, level, start + 1)
    else 1 + Iterations(n, size, level + 1, start + 1) + Iterations(n, size, level, start + 1)
  }

  /** Iterations left once the levels from `level` upwards are exhausted. */
  ghost function IterationsBelow(n: nat, size: nat, idx: seq<nat>, level: nat): nat
    requires level < |idx|
    decreases level
  {
    if level == 0 then 0
    else Iterations(n, size, level - 1, idx[level - 1] + 1) + IterationsBelow(n, size, idx, level - 1)
  }

  /** The exact number of iterations the loop has left. */
  ghost function Fuel(n: nat, size: nat, w: Walk): nat
    requires Valid(n, size, w)
  {
    Iterations(n, size, w.level, w.idx[w.level]) + IterationsBelow(n, size, w.idx, w.level)
  }

  /** The tuples the loop still has to list: those of the current level, then those reached by backing up. */
  ghost function Todo(n: nat, size: nat, idx: seq<nat>, level: nat, start: nat): seq<seq<nat>>
    requires level < |idx|
    decreases level
  {
    From(n, size, idx[..level], start)
    + if level == 0 then [] else Todo(n, size, idx, level - 1, idx[level - 1] + 1)
  }

  ghost function TodoAt(n: nat, size: nat, w: Walk): seq<seq<nat>>
    requires Valid(n, size, w)
  {
    Todo(n, size, w.idx, w.level, w.idx[w.level])
  }

  /** The tuple that the iteration starting with w passes to the callback, if any. */
  ghost function EmittedAt(n: nat, size: nat, w: Walk): seq<seq<nat>>
    requires Valid(n, size, w)
  {
    if w.idx[w.level] < n && w.level == size - 1 then [w.idx] else []
  }

  /** What happens at `level` and above is invisible to the levels below. */
  lemma {:induction false} TodoIgnoresTop(n: nat, size: nat, a: seq<nat>, b: seq<nat>, level: nat, start: nat)
    requires level < |a| && level < |b| && a[..level] == b[..level]
    ensures Todo(n, size, a, level, start) == Todo(n, size, b, level, start)
    decreases level
  {
    if level > 0 {
      TopOff(a, b, level);
      TodoIgnoresTop(n, size, a, b, level - 1, a[level - 1] + 1);
    }
  }

  lemma {:induction false} FuelIgnoresTop(n: nat, size: nat, a: seq<nat>, b: seq<nat>, level: nat)
    requires level < |a| && level < |b| && a[..level] == b[..level]
    ensures IterationsBelow(n, size, a, level) == IterationsBelow(n, size, b, level)
    decreases level
  {
    if level > 0 {
      TopOff(a, b, level);
      FuelIgnoresTop(n, size, a, b, level - 1);
    }
  }

  lemma TopOff(a: seq<nat>, b: seq<nat>, level: nat)
    requires 0 < level < |a| && level < |b| && a[..level] == b[..level]
    ensures a[..level - 1] == b[..level - 1] && a[level - 1] == b[level - 1]
  {
    assert a[..level - 1] == a[..level][..level - 1];
    assert b[..level - 1] == b[..level][..level - 1];
    assert a[level - 1] == a[..level][level - 1];
    assert b[level - 1] == b[..level][level - 1];
  }

  /** Every iteration keeps the stack well formed and uses up exactly one unit of fuel. */
  lemma NextIsValid(n: nat, size: nat, w: Walk)
    requires Valid(n, size, w) && (w.level > 0 || w.idx[0] < n)
    ensures var w' := Next(n, size, w); Valid(n, size, w') && Fuel(n, size, w') + 1 == Fuel(n, size, w)
  {
    var l, i := w.level, w.idx[w.level];
    if i == n {
      FuelAfterPop(n, size, w.idx, Next(n, size, w).idx, l);
    } else if l < size - 1 {
      FuelIgnoresTop(n, size, w.idx, w.idx[l + 1 := i + 1], l);
    } else {
      FuelIgnoresTop(n, size, w.idx, w.idx[l := i + 1], l);
    }
  }

  lemma FuelAfterPop(n: nat, size: nat, idx: seq<nat>, idx': seq<nat>, level: nat)
    requires 0 < level < |idx| && idx' == idx[level - 1 := idx[level - 1] + 1]
    ensures Iterations(n, size, level - 1, idx'[level - 1]) + IterationsBelow(n, size, idx', level - 1)
         == IterationsBelow(n, size, idx, level)
  {
    FuelIgnoresTop(n, size, idx, idx', level - 1);
  }

  /** The emissions of the loop run from w on. */
  ghost function Emissions(devices: seq<int>, size: nat, w: Walk): seq<seq<int>>
    requires Valid(|devices|, size, w)
    decreases Fuel(|devices|, size, w)
  {
    var i := w.idx[w.level];
    if w.level == 0 && i == |devices| then []
    else
      NextIsValid(|devices|, size, w);
      var later := Emissions(devices, size, Next(|devices|, size, w));
      if i < |devices| && w.level == size - 1 then [Select(devices, w.idx)] + later else later
  }

  ghost function TodoBelow(n: nat, size: nat, idx: seq<nat>, level: nat): seq<seq<nat>>
    requires level < |idx|
  {
    if level == 0 then [] else Todo(n, size, idx, level - 1, idx[level - 1] + 1)
  }

  /** One iteration leaves the remaining tuples alone, or takes off the one it emits. */
  lemma TodoAfterNext(n: nat, size: nat, w: Walk)
    requires Valid(n, size, w) && (w.level > 0 || w.idx[0] < n)
    ensures TodoAt(n, size, w) == EmittedAt(n, size, w) + TodoAt(n, size, Next(n, size, w))
  {
    if w.idx[w.level] == n {
      TodoAfterPop(n, size, w);
    } else if w.level < size - 1 {
      TodoAfterPush(n, size, w);
    } else {
      TodoAfterEmit(n, size, w);
    }
  }

  lemma TodoAfterPop(n: nat, size: nat, w: Walk)
    requires Valid(n, size, w) && w.level > 0 && w.idx[w.level] == n
    ensures TodoAt(n, size, w) == TodoAt(n, size, Next(n, size, w))
  {
    TodoIgnoresTop(n, size, w.idx, Next(n, size, w).idx, w.level - 1, w.idx[w.level - 1] + 1);
  }

  /** The continuation from index i splits into what uses i and what does not. */
  lemma TodoSplits(n: nat, size: nat, idx: seq<nat>, l: nat, i: nat)
    requires l < |idx| && l < size && i < n
    ensures Todo(n, size, idx, l, i) == From(n, size, idx[..l] + [i], i + 1) + Todo(n, size, idx, l, i + 1)
  {
    var below := TodoBelow(n, size, idx, l);
    var first, rest := From(n, size, idx[..l] + [i], i + 1), From(n, size, idx[..l], i + 1);
    assert (first + rest) + below == first + (rest + below);
  }

  lemma TodoAfterPush(n: nat, size: nat, w: Walk)
    requires Valid(n, size, w) && w.idx[w.level] < n && w.level < size - 1
    ensures TodoAt(n, size, w) == TodoAt(n, size, Next(n, size, w))
  {
    var i, l, idx' := w.idx[w.level], w.level, Next(n, size, w).idx;
    TodoSplits(n, size, w.idx, l, i);
    TodoIgnoresTop(n, size, w.idx, idx', l, i + 1);
    assert idx'[..l + 1] == w.idx[..l] + [i] && idx'[l] == i && idx'[l + 1] == i + 1;
  }

  lemma TodoAfterEmit(n: nat, size: nat, w: Walk)
    requires Valid(n, size, w) && w.idx[w.level] < n && w.level == size - 1
    ensures TodoAt(n, size, w) == [w.idx] + TodoAt(n, size, Next(n, size, w))
  {
    var i, l, idx' := w.idx[w.level], w.level, Next(n, size, w).idx;
    var prefix, below := w.idx[..l], TodoBelow(n, size, w.idx, l);
    TodoIgnoresTop(n, size, w.idx, idx', l, i + 1);
    assert w.idx == prefix + [i];
    assert From(n, size, prefix + [i], i + 1) == [w.idx];
    var rest := From(n, size, prefix, i + 1);
    calc {
      TodoAt(n, size, w);
      ([w.idx] + rest) + below;
      [w.idx] + (rest + below);
      [w.idx] + Todo(n, size, w.idx, l, i + 1);
      [w.idx] + TodoAt(n, size, Next(n, size, w));
    }
  }

  lemma {:induction false} FromIsBounded(n: nat, size: nat, prefix: seq<nat>, start: nat)
    requires Bounded(prefix, n)
    ensures forall t :: t in From(n, size, prefix, start) ==> Bounded(t, n)
    decreases n - start
  {
    if |prefix| < size && start < n {
      FromIsBounded(n, size, prefix + [start], start + 1);
      FromIsBounded(n, size, prefix, start + 1);
    }
  }

  lemma {:induction false} TodoIsBounded(n: nat, size: nat, idx: seq<nat>, level: nat, start: nat)
    requires level < |idx| && Bounded(idx[..level], n)
    ensures forall t :: t in Todo(n, size, idx, level, start) ==> Bounded(t, n)
    decreases level
  {
    FromIsBounded(n, size, idx[..level], start);
    if level > 0 {
      assert idx[..level - 1] == idx[..level][..level - 1];
      TodoIsBounded(n, size, idx, level - 1, idx[level - 1] + 1);
    }
  }

  lemma SelectAllConcat(devices: seq<int>, a: seq<seq<nat>>, b: seq<seq<nat>>)
    requires forall t :: t in a + b ==> Bounded(t, |devices|)
    ensures (forall t :: t in a ==> Bounded(t, |devices|)) && (forall t :: t in b ==> Bounded(t, |devices|))
    ensures SelectAll(devices, a + b) == SelectAll(devices, a) + SelectAll(devices, b)
  {
    assert forall t :: t in a ==> t in a + b;
    assert forall t :: t in b ==> t in a + b;
  }

  /** The loop lists the tuples in the order of the specification. */
  lemma {:induction false} EmissionsAreTodo(devices: seq<int>, size: nat, w: Walk)
    requires Valid(|devices|, size, w)
    ensures forall t :: t in TodoAt(|devices|, size, w) ==> Bounded(t, |devices|)
    ensures Emissions(devices, size, w) == SelectAll(devices, TodoAt(|devices|, size, w))
    decreases Fuel(|devices|, size, w)
  {
    var n := |devices|;
    TodoIsBounded(n, size, w.idx, w.level, w.idx[w.level]);
    if w.level > 0 || w.idx[0] < n {
      NextIsValid(n, size, w);
      EmissionsAreTodo(devices, size, Next(n, size, w));
      TodoAfterNext(n, size, w);
      SelectAllConcat(devices, EmittedAt(n, size, w), TodoAt(n, size, Next(n, size, w)));
    }
  }

  method IterateGPUSets(devices: seq<int>, size: int) returns (emitted: seq<seq<int>>)
    ensures emitted == Sets(devices, size)
  {
    if size <= 0 || size > |devices| { return []; }
    var indices: array<nat> := new nat[size](_ => 0);
    ghost var start := Walk(indices[..], 0);
    EmissionsAreTodo(devices, size, start);
    assert TodoAt(|devices|, size, start) == Tuples(|devices|, size);
    emitted := Backtrack(devices, size, indices);
  }

  method Backtrack(devices: seq<int>, size: nat, indices: array<nat>) returns (emitted: seq<seq<int>>)
    requires 0 < size == indices.Length && indices[0] == 0
    modifies indices
    ensures emitted == Emissions(devices, size, Walk(old(indices[..]), 0))
  {
    emitted := [];
    var n := |devices|;
    var level := 0;
    var chosen: array<int> := new int[size];
    ghost var w := Walk(indices[..], 0);
    ghost var all := Emissions(devices, size, w);
    while true
      invariant level >= 0 && w == Walk(indices[..], level) && Valid(n, size, w)
      invariant forall i :: 0 <= i < level ==> chosen[i] == devices[w.idx[i]]
      invariant emitted + Emissions(devices, size, w) == all
      decreases Fuel(n, size, w)
    {
      if indices[level] == n && level == 0 { break; }
      NextIsValid(n, size, w);
      w := Next(n, size, w);
      if indices[level] == n {
        level := level - 1;
        indices[level] := indices[level] + 1;
        continue;
      }
      chosen[level] := devices[indices[level]];
      if level < size - 1 {
        level := level + 1;
        indices[level] := indices[level - 1] + 1;
        continue;
      }
      // The callback receives a copy of the buffer.
      assert chosen[..] == Select(devices, indices[..]);
      assert (emitted + [chosen[..]]) + Emissions(devices, size, w)
          == emitted + ([chosen[..]] + Emissions(devices, size, w));
      emitted := emitted + [chosen[..]];
      indices[level] := indices[level] + 1;
    }
  }
}

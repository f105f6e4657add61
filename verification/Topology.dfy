/** The link matrix of a node (pkg/types/topology.go): built from the annotation, and zeroed and
    restored row by row as GPUs are taken and given back. */
module Topology {
  import opened NodeState
  import opened Codec

  // ---------- Specification ----------

  /** All links of one GPU are removed. */
  function Consumed(m: Matrix, id: int): Matrix {
    map p | p in m :: if p.0 == id || p.1 == id then 0 else m[p]
  }

  /** All links of one GPU are copied from `origin`, if it has the same size. */
  function Recovered(m: Matrix, id: int, origin: Matrix): Matrix {
    if m.Keys != origin.Keys then m
    else map p | p in m :: if p.0 == id || p.1 == id then origin[p] else m[p]
  }

  /** Consuming and recovering keep a matrix symmetric. */
  lemma StaysSymmetric(m: Matrix, id: int, origin: Matrix)
    requires Symmetric(m) && Symmetric(origin) && m.Keys == origin.Keys
    ensures Symmetric(Consumed(m, id)) && Symmetric(Recovered(m, id, origin))
  {
    forall i, j
      ensures Link(Consumed(m, id), i, j) == Link(Consumed(m, id), j, i)
      ensures Link(Recovered(m, id, origin), i, j) == Link(Recovered(m, id, origin), j, i)
    {
      assert Link(m, i, j) == Link(m, j, i) && Link(origin, i, j) == Link(origin, j, i);
    }
  }

  /** Recovering a GPU from the original undoes its consumption; from a matrix of another size it changes
      nothing, and consuming or recovering an unknown GPU changes nothing either. */
  lemma RecoveryUndoesConsumption(m: Matrix, id: int, origin: Matrix)
    ensures Recovered(Consumed(m, id), id, m) == m
    ensures m.Keys != origin.Keys ==> Recovered(m, id, origin) == m
    ensures (forall p :: p in m ==> p.0 != id && p.1 != id) ==> Consumed(m, id) == m && Recovered(m, id, origin) == m
  {
  }

  datatype Step = Consume(id: int) | Recover(id: int)

  function AfterSteps(m: Matrix, origin: Matrix, steps: seq<Step>): Matrix {
    if steps == [] then m
    else
      var before := AfterSteps(m, origin, steps[..|steps| - 1]);
      match steps[|steps| - 1]
      case Consume(id) => Consumed(before, id)
      case Recover(id) => Recovered(before, id, origin)
  }

  /** Whatever GPUs are consumed and recovered, in whatever order and however often. */
  lemma {:induction false} SymmetricAfterSteps(m: Matrix, origin: Matrix, steps: seq<Step>)
    requires Symmetric(m) && Symmetric(origin) && m.Keys == origin.Keys
    ensures AfterSteps(m, origin, steps).Keys == m.Keys && Symmetric(AfterSteps(m, origin, steps))
  {
    if steps != [] {
      var front, last := steps[..|steps| - 1], steps[|steps| - 1];
      SymmetricAfterSteps(m, origin, front);
      var before := AfterSteps(m, origin, front);
      StaysSymmetric(before, last.id, origin);
    }
  }

  // ---------- The matrix in memory ----------

  function MatrixOf(t: array2<int>): Matrix
    reads t
  {
    map i, j | 0 <= i < t.Length0 && 0 <= j < t.Length1 :: (i, j) := t[i, j]
  }

  ghost predicate SquareArray(t: array2<int>) {
    t.Length0 == t.Length1
  }

  /** `ConsumeId` */
  method ConsumeId(t: array2<int>, id: int)
    requires SquareArray(t)
    modifies t
    ensures MatrixOf(t) == Consumed(old(MatrixOf(t)), id)
  {
    var numGpus := t.Length0;
    if id < 0 || id >= numGpus { return; }
    for i := 0 to numGpus
      invariant forall a, b :: 0 <= a < numGpus && 0 <= b < numGpus ==>
        t[a, b] == if a < i && (a == id || b == id) then 0 else old(t[a, b])
    {
      if i == id {
        for k := 0 to numGpus
          invariant forall a, b :: 0 <= a < numGpus && 0 <= b < numGpus ==>
            t[a, b] == if (a < i && b == id) || (a == i && b < k) then 0 else old(t[a, b])
        {
          t[i, k] := 0;
        }
      } else {
        for j := 0 to numGpus
          invariant forall a, b :: 0 <= a < numGpus && 0 <= b < numGpus ==>
            t[a, b] == if (a < i && (a == id || b == id)) || (a == i && b < j && b == id) then 0 else old(t[a, b])
        {
          if j == id {
            t[i, j] := 0;
          }
        }
      }
    }
  }

  /** `RecoveryId` */
  method RecoveryId(t: array2<int>, id: int, newTopology: array2<int>)
    requires SquareArray(t) && SquareArray(newTopology) && t != newTopology
    modifies t
    ensures MatrixOf(t) == Recovered(old(MatrixOf(t)), id, MatrixOf(newTopology))
  {
    var numGpus := t.Length0;
    SameSizeSameKeys(t, newTopology);
    if id < 0 || id >= numGpus { return; }
    if newTopology.Length0 != numGpus { return; }
    for i := 0 to numGpus
      invariant forall a, b :: 0 <= a < numGpus && 0 <= b < numGpus ==>
        t[a, b] == if a < i && (a == id || b == id) then newTopology[a, b] else old(t[a, b])
    {
      if i == id {
        for k := 0 to numGpus
          invariant forall a, b :: 0 <= a < numGpus && 0 <= b < numGpus ==>
            t[a, b] == if (a < i && b == id) || (a == i && b < k) then newTopology[a, b] else old(t[a, b])
        {
          t[i, k] := newTopology[i, k];
        }
      } else {
        for j := 0 to numGpus
          invariant forall a, b :: 0 <= a < numGpus && 0 <= b < numGpus ==>
            t[a, b] == if (a < i && (a == id || b == id)) || (a == i && b < j && b == id) then newTopology[a, b]
                       else old(t[a, b])
        {
          if j == id {
            t[i, j] := newTopology[i, j];
          }
        }
      }
    }
  }

  lemma SameSizeSameKeys(t: array2<int>, u: array2<int>)
    requires SquareArray(t) && SquareArray(u)
    ensures MatrixOf(t).Keys == MatrixOf(u).Keys <==> t.Length0 == u.Length0
  {
    if t.Length0 < u.Length0 {
      assert (t.Length0, t.Length0) in MatrixOf(u) && (t.Length0, t.Length0) !in MatrixOf(t);
    } else if u.Length0 < t.Length0 {
      assert (u.Length0, u.Length0) in MatrixOf(t) && (u.Length0, u.Length0) !in MatrixOf(u);
    }
  }

  // ---------- Building the matrix ----------

  /** `getGPULinkFromAbbr` */
  function AbbrLink(abbr: string): int {
    match abbr
    case "PSB" => 1
    case "PIX" => 2
    case "PXB" => 3
    case "PHB" => 4
    case "NODE" => 5
    case "SYS" => 6
    case "NV1" => 7
    case "NV2" => 8
    case "NV3" => 9
    case "NV4" => 10
    case "NV5" => 11
    case "NV6" => 12
    case _ => 0
  }

  /** The link abbreviations in the order of their numbers from 1 on: PCIe links from the nearest to the
      farthest connection, then one to six NVLinks. */
  const LINKS := ["PSB", "PIX", "PXB", "PHB", "NODE", "SYS", "NV1", "NV2", "NV3", "NV4", "NV5", "NV6"]

  /** The number of the link that an abbreviation stands for. */
  ghost predicate LinkNumber(abbr: string, link: int) {
    if 1 <= link <= 12 then abbr == LINKS[link - 1] else link == 0 && abbr !in LINKS
  }

  lemma AbbrTable(abbr: string, link: int)
    ensures LinkNumber(abbr, link) <==> link == AbbrLink(abbr)
  {
  }

  datatype Entry = Entry(link: int, gpu1: int, gpu2: int)

  /** A key such as GPU_SYS_0_4; other keys are skipped. */
  function ParseKey(key: string): Option<Entry> {
    var parts := Split(key, '_');
    if |parts| != 4 then None
    else
      var gpu1, gpu2 := Atoi(parts[2]), Atoi(parts[3]);
      if gpu1.None? || gpu2.None? then None else Some(Entry(AbbrLink(parts[1]), gpu1.value, gpu2.value))
  }

  /** Keys as the device plugin writes them are read back. */
  lemma KeyRoundTrip(abbr: string, gpu1: nat, gpu2: nat)
    requires '_' !in abbr && gpu1 < INT_LIMIT && gpu2 < INT_LIMIT
    ensures ParseKey("GPU" + ['_'] + abbr + ['_'] + Decimal(gpu1) + ['_'] + Decimal(gpu2))
         == Some(Entry(AbbrLink(abbr), gpu1, gpu2))
  {
    DecimalRoundTrip(gpu1);
    DecimalRoundTrip(gpu2);
    var first := "GPU" + ['_'] + abbr;
    var second := first + ['_'] + Decimal(gpu1);
    SplitOne("GPU", '_');
    SplitLast("GPU", '_', abbr);
    SplitLast(first, '_', Decimal(gpu1));
    SplitLast(second, '_', Decimal(gpu2));
    AtoiOfDecimal(gpu1);
    AtoiOfDecimal(gpu2);
  }

  /** The key consists of four parts without underscores, the last two of them numbers. */
  predicate KeyParts(key: string, parts: seq<string>, gpu1: int, gpu2: int) {
    && |parts| == 4 && key == parts[0] + "_" + parts[1] + "_" + parts[2] + "_" + parts[3]
    && (forall p :: p in parts ==> '_' !in p) && Atoi(parts[2]) == Some(gpu1) && Atoi(parts[3]) == Some(gpu2)
  }

  lemma FourParts(parts: seq<string>)
    requires |parts| == 4
    ensures JoinWith(parts, '_') == parts[0] + "_" + parts[1] + "_" + parts[2] + "_" + parts[3]
  {
    assert parts[1..][1..][1..] == [parts[3]];
    assert JoinWith(parts[1..][1..], '_') == parts[2] + "_" + parts[3];
  }

  /** Exactly the keys of this form are read. */
  lemma KeyIsReadIff(key: string, e: Entry)
    ensures ParseKey(key) == Some(e) <==>
      exists parts :: KeyParts(key, parts, e.gpu1, e.gpu2) && LinkNumber(parts[1], e.link)
  {
    var split := Split(key, '_');
    SplitIff(key, '_', split);
    if ParseKey(key) == Some(e) {
      FourParts(split);
      AbbrTable(split[1], e.link);
      assert KeyParts(key, split, e.gpu1, e.gpu2);
    }
    if parts :| KeyParts(key, parts, e.gpu1, e.gpu2) && LinkNumber(parts[1], e.link) {
      FourParts(parts);
      SplitIff(key, '_', parts);
      AbbrTable(parts[1], e.link);
    }
  }

  /** The key is skipped or indexes the matrix; indexing it with another number is a run-time panic. */
  predicate InRange(key: string, numGpus: nat) {
    var e := ParseKey(key);
    e.Some? ==> 0 <= e.value.gpu1 < numGpus && 0 <= e.value.gpu2 < numGpus
  }

  /** The key gives the link of the pair, in one order or the other. */
  predicate Names(key: string, i: int, j: int) {
    var e := ParseKey(key);
    e.Some? && ((e.value.gpu1 == i && e.value.gpu2 == j) || (e.value.gpu1 == j && e.value.gpu2 == i))
  }

  ghost predicate LinkFrom(keys: set<string>, i: int, j: int, link: int) {
    if (exists key :: key in keys && Names(key, i, j))
    then exists key :: key in keys && Names(key, i, j) && link == ParseKey(key).value.link
    else link == 0
  }

  /** Every entry of m is the link of some key that names the pair, or 0 if there is none. */
  ghost predicate BuiltFrom(m: Matrix, keys: set<string>) {
    forall i, j :: (i, j) in m ==> LinkFrom(keys, i, j, m[(i, j)])
  }

  predicate UniquePairs(keys: set<string>) {
    forall k, l ::
      k in keys && l in keys && ParseKey(k).Some? && Names(l, ParseKey(k).value.gpu1, ParseKey(k).value.gpu2)
      ==> k == l
  }

  ghost predicate Filled(t: array2<int>, keys: set<string>)
    requires SquareArray(t)
    reads t
  {
    && (forall i, j :: 0 <= i < t.Length0 && 0 <= j < t.Length0 ==> t[i, j] == t[j, i])
    && (forall i, j :: 0 <= i < t.Length0 && 0 <= j < t.Length0 ==> LinkFrom(keys, i, j, t[i, j]))
  }

  /** The matrix-building loop of `getOriginGpuTopology`; the annotation map is visited in any order.
      The answer is false if the program panics: in whatever order, exactly if the node has GPUs and
      some key indexes one that it has not. */
  method BuildTopology(annotation: map<string, string>, numGpus: nat) returns (ok: bool, topology: array2<int>)
    ensures ok <==> numGpus == 0 || forall key :: key in annotation ==> InRange(key, numGpus)
    ensures fresh(topology) && SquareArray(topology)
    ensures topology.Length0 == (if annotation == map[] then 0 else numGpus) && Decoded(MatrixOf(topology), numGpus)
    ensures ok ==> Symmetric(MatrixOf(topology)) && BuiltFrom(MatrixOf(topology), annotation.Keys)
  {
    if numGpus == 0 || annotation == map[] {
      return true, new int[0, 0];
    }
    topology := new int[numGpus, numGpus]((i, j) => 0);
    var todo := annotation.Keys;
    while todo != {}
      invariant todo <= annotation.Keys
      invariant forall key :: key in annotation && key !in todo ==> InRange(key, numGpus)
      invariant Filled(topology, annotation.Keys - todo)
      decreases todo
    {
      var key :| key in todo;
      ghost var done := annotation.Keys - todo;
      if !InRange(key, numGpus) {
        return false, topology;
      }
      ReadKey(topology, key, done);
      todo := todo - {key};
      assert annotation.Keys - todo == done + {key};
    }
    assert annotation.Keys - todo == annotation.Keys;
    FilledMatrix(topology, annotation.Keys);
    ok := true;
  }

  lemma FilledMatrix(t: array2<int>, keys: set<string>)
    requires SquareArray(t) && Filled(t, keys)
    ensures Symmetric(MatrixOf(t)) && BuiltFrom(MatrixOf(t), keys)
  {
  }

  method ReadKey(topology: array2<int>, key: string, ghost done: set<string>)
    requires SquareArray(topology) && Filled(topology, done) && InRange(key, topology.Length0)
    modifies topology
    ensures Filled(topology, done + {key})
  {
    var e := ParseKey(key);
    if e.Some? {
      topology[e.value.gpu1, e.value.gpu2] := e.value.link;
      topology[e.value.gpu2, e.value.gpu1] := e.value.link;
    }
    forall i, j | 0 <= i < topology.Length0 && 0 <= j < topology.Length0
      ensures LinkFrom(done + {key}, i, j, topology[i, j])
    {
      assert LinkFrom(done, i, j, old(topology[i, j]));
      OneMoreKey(done, key, i, j, old(topology[i, j]), topology[i, j]);
    }
  }

  lemma OneMoreKey(keys: set<string>, key: string, i: int, j: int, before: int, after: int)
    requires LinkFrom(keys, i, j, before)
    requires after == if Names(key, i, j) then ParseKey(key).value.link else before
    ensures LinkFrom(keys + {key}, i, j, after)
  {
    if Names(key, i, j) {
      assert key in keys + {key};
    } else if exists k :: k in keys && Names(k, i, j) {
      var k :| k in keys && Names(k, i, j) && before == ParseKey(k).value.link;
      assert k in keys + {key};
    }
  }

  /** An entry that a single key names is the link of that key's abbreviation. */
  lemma BuiltEntry(m: Matrix, keys: set<string>, key: string, parts: seq<string>, i: int, j: int)
    requires BuiltFrom(m, keys) && (i, j) in m && key in keys
    requires KeyParts(key, parts, i, j) || KeyParts(key, parts, j, i)
    requires forall other :: other in keys && Names(other, i, j) ==> other == key
    ensures LinkNumber(parts[1], m[(i, j)])
  {
    var gpu1, gpu2 := if KeyParts(key, parts, i, j) then i else j, if KeyParts(key, parts, i, j) then j else i;
    AbbrTable(parts[1], AbbrLink(parts[1]));
    KeyIsReadIff(key, Entry(AbbrLink(parts[1]), gpu1, gpu2));
    assert Names(key, i, j) && LinkFrom(keys, i, j, m[(i, j)]);
  }

  /** An entry that no key names is 0. */
  lemma BuiltWithout(m: Matrix, keys: set<string>, i: int, j: int)
    requires BuiltFrom(m, keys) && (i, j) in m
    requires forall key, parts :: key in keys ==> !KeyParts(key, parts, i, j) && !KeyParts(key, parts, j, i)
    ensures m[(i, j)] == 0
  {
    assert LinkFrom(keys, i, j, m[(i, j)]);
    forall key | key in keys ensures !Names(key, i, j) {
      if Names(key, i, j) {
        KeyIsReadIff(key, ParseKey(key).value);
        assert false;
      }
    }
  }

  /** If no two keys name the same pair, the matrix does not depend on the order of the map. */
  lemma BuiltIsDetermined(m: Matrix, m': Matrix, keys: set<string>)
    requires BuiltFrom(m, keys) && BuiltFrom(m', keys) && m.Keys == m'.Keys && UniquePairs(keys)
    ensures m == m'
  {
    forall p | p in m ensures m[p] == m'[p] {
      var (i, j) := p;
      assert LinkFrom(keys, i, j, m[(i, j)]) && LinkFrom(keys, i, j, m'[(i, j)]);
      if exists key :: key in keys && Names(key, i, j) {
        var k :| k in keys && Names(k, i, j) && m[p] == ParseKey(k).value.link;
        var l :| l in keys && Names(l, i, j) && m'[p] == ParseKey(l).value.link;
        assert Names(l, ParseKey(k).value.gpu1, ParseKey(k).value.gpu2);
      }
    }
  }

  lemma SquareKeys(m: Matrix, m': Matrix, n: nat)
    requires Square(m, n) && Square(m', n)
    ensures m.Keys == m'.Keys
  {
    forall p: (int, int) ensures p in m <==> p in m' {
      var (i, j) := p;
      assert (i, j) in m <==> (i, j) in m';
    }
  }

  lemma MatrixIsSquare(t: array2<int>)
    requires SquareArray(t)
    ensures Square(MatrixOf(t), t.Length0)
  {
  }

  lemma SameMatrix(m: Matrix, m': Matrix, n: nat)
    requires Square(m, n) && Square(m', n)
    requires forall i, j :: 0 <= i < n && 0 <= j < n ==> m[(i, j)] == m'[(i, j)]
    ensures m == m'
  {
    SquareKeys(m, m', n);
    forall p: (int, int) | p in m ensures m[p] == m'[p] {
      var (i, j) := p;
      assert (i, j) in m;
    }
  }

  lemma MatrixEquals(t: array2<int>, m: Matrix)
    requires SquareArray(t) && Square(m, t.Length0)
    requires forall i, j :: 0 <= i < t.Length0 && 0 <= j < t.Length0 ==> t[i, j] == m[(i, j)]
    ensures MatrixOf(t) == m
  {
    MatrixIsSquare(t);
    SameMatrix(MatrixOf(t), m, t.Length0);
  }

  /** A fresh copy of the node's decoded matrix, as `getOriginGpuTopology` returns it. */
  method OriginTopology(spec: NodeSpec) returns (topology: array2<int>)
    requires Decoded(spec.topology, spec.gpuCount)
    ensures fresh(topology) && SquareArray(topology) && topology.Length0 == Rows(spec.topology, spec.gpuCount)
    ensures MatrixOf(topology) == spec.topology
  {
    var rows := Rows(spec.topology, spec.gpuCount);
    topology := new int[rows, rows]((i, j) requires 0 <= i < rows && 0 <= j < rows => Link(spec.topology, i, j));
    assert forall i, j :: 0 <= i < rows && 0 <= j < rows ==> topology[i, j] == spec.topology[(i, j)];
    MatrixEquals(topology, spec.topology);
  }
}
